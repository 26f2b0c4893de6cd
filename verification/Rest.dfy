/** The REST and Kubernetes calls of convert_to_tablets.py, made against the live cluster.
    Before every answer the environment may take any number of steps: processes stop and
    start, and addresses may change.  Every call may fail, whether or not the server carried
    the request out, and may be the last thing the controller does before it is killed. */
module Rest {
  import opened Options
  import opened Cluster

  // An answer, an ApiError or RequestException, a Fatal, or the end of the process.
  datatype Reply<+T> = Answer(value: T) | ApiError | Fatal | Killed {
    predicate IsFailure() { !Answer? }

    function PropagateFailure<U>(): Reply<U>
      requires IsFailure()
    {
      match this
      case ApiError => Reply<U>.ApiError
      case Fatal => Reply<U>.Fatal
      case Killed => Reply<U>.Killed
    }

    function Extract(): T
      requires Answer?
    {
      value
    }
  }

  // The migration status of one keyspace: its state and {host_id: (current, intended)}.
  datatype Report = Report(status: Word, nodes: map<HostId, (Option<Word>, Option<Word>)>)

  function CurrentMode(h: Host, ks: Keyspace): Word {
    if ks in h.onTablets then Tablets else Vnodes
  }

  // The per-node list is empty when no migration of the keyspace is in flight.
  function ReportOf(c: State, ks: Keyspace): Report
    requires ks in c.status
  {
    Report(c.status[ks],
           if c.status[ks] == MigratingToTablets
           then map h | h in c.hosts :: (Some(CurrentMode(c.hosts[h], ks)), Some(c.hosts[h].intended))
           else map[])
  }

  predicate Extends<T(==)>(a: seq<T>, b: seq<T>) {
    |a| <= |b| && (forall i {:trigger At(b, i)} :: 0 <= i < |a| ==> At(b, i) == At(a, i))
  }

  // --- Addresses -------------------------------------------------------------------------

  predicate Unique(c: State) {
    forall g, h {:trigger c.hosts[g].addr, c.hosts[h].addr} ::
      g in c.hosts && h in c.hosts && g != h ==> c.hosts[g].addr != c.hosts[h].addr
  }

  predicate Free(c: State, h: HostId, a: Address) {
    forall g :: g in c.hosts && g != h ==> c.hosts[g].addr != a
  }

  // In a disciplined environment only the node being restarted changes address, and
  // it never takes the address of another node.
  predicate AddressesKept(disciplined: bool, moving: Option<HostId>, c: State, c': State) {
    && c'.hosts.Keys == c.hosts.Keys
    && (disciplined ==>
          && (Unique(c) ==> Unique(c'))
          && (forall h {:trigger c'.hosts[h].addr} ::
                h in c.hosts && moving != Some(h) ==> c'.hosts[h].addr == c.hosts[h].addr))
  }

  // --- What a stretch of calls may have done --------------------------------------------

  // Nothing, or reading the modes of one node, or the drain and restart of one node.
  datatype Permit = Idle | Reads(h: HostId) | Restarts(h: HostId)

  predicate Allowed(permit: Permit, e: Event) {
    || e.Down? || e.Boot? || e.Settle? || e.Look? || e.Answers?
    || (permit.Reads? && e.Inspect? && e.h == permit.h)
    || (permit.Restarts? && ((e.Drain? && e.target == permit.h) || ((e.Restart? || e.Back?) && e.h == permit.h)))
  }

  class World {
    var c: State
    var clock: nat
    const disciplined: bool
    var moving: Option<HostId>  // the node whose pod is being replaced
    ghost var trace: seq<State>
    ghost var log: seq<Event>

    // The trace holds every state the cluster has been in, the log what led from each to the next.
    ghost predicate Valid()
      reads this
    {
      Run(trace, log) && At(trace, |log|) == c
    }

    // The run went on from where it was.
    twostate predicate Longer()
      reads this
    {
      && Valid()
      && c.hosts.Keys == old(c).hosts.Keys
      && (disciplined && Unique(old(c)) ==> Unique(c))
      && Extends(old(trace), trace)
      && Extends(old(log), log)
    }

    // The run went on, and at most the pod of `replaced` came back on another address.
    twostate predicate Grown(new replaced: Option<HostId>)
      reads this
    {
      && Valid()
      && clock >= old(clock)
      && Extends(old(trace), trace)
      && Extends(old(log), log)
      && AddressesKept(disciplined, replaced, old(c), c)
    }

    twostate predicate Grew()
      reads this
    {
      Grown(moving) && moving == old(moving)
    }

    twostate predicate Only(permit: Permit)
      reads this
    {
      Grew() && forall p :: |old(log)| <= p < |log| ==> Allowed(permit, At(log, p))
    }

    // Reads and restarts move no keyspace and mark no node.
    twostate lemma Drifts(permit: Permit)
      requires old(Valid()) && Valid() && Extends(old(trace), trace) && Extends(old(log), log)
      requires forall p :: |old(log)| <= p < |log| ==> Allowed(permit, At(log, p))
      ensures Drift(old(c), c)
    {
      assert old(At(trace, |log|)) == At(old(trace), |old(log)|) == At(trace, |old(log)|);
      CalmRunDrifts(trace, log, |old(log)|, |log|);
    }

    constructor (initial: State, disciplined: bool)
      ensures Valid() && trace == [initial] && log == [] && c == initial
      ensures this.disciplined == disciplined && moving == None
    {
      c, clock, moving := initial, 0, None;
      this.disciplined := disciplined;
      trace, log := [initial], [];
    }

    ghost method Record(e: Event, next: State)
      requires Valid() && Step(c, e, next)
      modifies this`trace, this`log
      ensures Run(trace, log) && |log| == |old(log)| + 1
      ensures Extends(old(trace), trace) && At(trace, |log|) == next
      ensures Extends(old(log), log) && At(log, |log| - 1) == e
    {
      assert Step(At(trace, |log|), e, next);
      ghost var n, t, l := |log|, trace, log;
      trace, log := t + [next], l + [e];
      forall i | 0 <= i < |log| ensures Step(trace[i], log[i], trace[i + 1]) {
        assert i < n ==> Step(t[i], l[i], t[i + 1]);
      }
    }

    // One move of the environment.
    method Move()
      requires Valid()
      modifies this
      ensures Only(Idle)
    {
      var h: HostId := *;
      var kind: int := *;
      if h !in c.hosts {
        return;
      }
      var host := c.hosts[h];
      var next := c;
      ghost var e := Look;
      if kind == 0 {
        next := c.(hosts := c.hosts[h := host.(up := false)]);
        e := Down(h);
      } else if kind == 1 {
        var at: Address := *;
        if disciplined && !(moving == Some(h) && Free(c, h, at)) {
          at := host.addr;
        }
        next := c.(hosts := c.hosts[h := host.(up := true, addr := at,
                   onTablets := Converted(host.onTablets, host.intended, Migrating(c)))]);
        e := Boot(h, at);
      } else if Migrating(c) == {} {
        next := c.(hosts := c.hosts[h := host.(intended := Vnodes)]);
        e := Settle(h);
      }
      Record(e, next);
      c := next;
    }

    method Interfere()
      requires Valid()
      modifies this
      ensures Only(Idle)
    {
      var n :| 0 <= n;
      while n > 0
        invariant Only(Idle)
      {
        Move();
        n := n - 1;
      }
      var passed :| 0 <= passed;
      clock := clock + passed;
    }

    method Sleep(seconds: nat)
      requires Valid()
      modifies this
      ensures Only(Idle) && clock >= old(clock) + seconds
    {
      Interfere();
      clock := clock + seconds;
    }

    // Some running node with this address, if there is one.
    method Reach(a: Address) returns (h: Option<HostId>)
      ensures h.Some? ==> h.value in c.hosts && c.hosts[h.value].up && c.hosts[h.value].addr == a
    {
      var at := set g | g in c.hosts && c.hosts[g].up && c.hosts[g].addr == a;
      if at == {} {
        return None;
      }
      var g :| g in at;
      return Some(g);
    }

    // The way every call begins: time passes, and the process may be gone.
    method Call() returns (r: Reply<()>)
      requires Valid()
      modifies this
      ensures Only(Idle) && (r.Answer? || r.Killed?)
    {
      Interfere();
      var killed: bool := *;
      return if killed then Killed else Answer(());
    }

    // Any read whose answer the procedure's guarantees do not lean on: a schema check,
    // the gossip state, a permission review, the operator's reply.
    method Ask() returns (r: Reply<bool>)
      requires Valid()
      modifies this
      ensures Only(Idle)
    {
      var _ :- Call();
      var failed: bool := *;
      var answer: bool := *;
      return if failed then ApiError else Answer(answer);
    }

    // GET hostid/local
    method LocalHostId(a: Address) returns (r: Reply<HostId>)
      requires Valid()
      modifies this
      ensures Only(Idle) && !r.Fatal?
      ensures r.Answer? ==> r.value in c.hosts && c.hosts[r.value].up && c.hosts[r.value].addr == a
    {
      var _ :- Call();
      var h := Reach(a);
      var failed: bool := *;
      return if failed || h.None? then ApiError else Answer(h.value);
    }

    // GET host_id: what it says is only ever used as a hint.
    method HostIdMap(a: Address) returns (r: Reply<seq<(Address, HostId)>>)
      requires Valid()
      modifies this
      ensures Only(Idle) && !r.Fatal?
    {
      var _ :- Call();
      var failed: bool := *;
      var entries: seq<(Address, HostId)> := *;
      return if failed then ApiError else Answer(entries);
    }

    // The pod's IP, if Kubernetes can tell; also only a hint.
    method PodIp() returns (r: Reply<Option<Address>>)
      requires Valid()
      modifies this
      ensures Only(Idle) && (r.Answer? || r.Killed?)
    {
      var _ :- Call();
      var known: bool := *;
      var ip: Address := *;
      return Answer(if known then Some(ip) else None);
    }

    // GET gossiper/endpoint/live: addresses of nodes that are up.
    method LiveEndpoints(a: Address) returns (r: Reply<set<Address>>)
      requires Valid()
      modifies this
      ensures Only(Idle) && !r.Fatal?
      ensures r.Answer? ==> forall x :: x in r.value ==> exists h :: h in c.hosts && c.hosts[h].up && c.hosts[h].addr == x
    {
      var _ :- Call();
      var failed: bool := *;
      if failed {
        return ApiError;
      }
      var seen: set<HostId> := *;
      return Answer(set h | h in c.hosts && h in seen && c.hosts[h].up :: c.hosts[h].addr);
    }

    // GET keyspaces/{ks}: the status as the whole cluster sees it, whichever node answers.
    method Status(a: Address, ks: Keyspace, ghost about: Option<HostId>) returns (r: Reply<Report>)
      requires Valid()
      modifies this
      ensures Only(if about.Some? then Reads(about.value) else Idle) && !r.Fatal?
      ensures r.Answer? ==> ks in c.status && r.value == ReportOf(c, ks)
      ensures forall p :: |old(log)| <= p < |log| - 1 ==> Allowed(Idle, At(log, p))
      ensures r.Answer? && about.Some? ==>
                |log| > |old(log)| && At(log, |log| - 1) == Inspect(about.value, ks) && At(trace, |log| - 1) == c
    {
      var _ :- Call();
      var failed: bool := *;
      var h := Reach(a);
      if failed || h.None? || ks !in c.status {
        return ApiError;
      }
      if about.Some? {
        Record(Inspect(about.value, ks), c);
      }
      return Answer(ReportOf(c, ks));
    }

    // PUT node/storage_mode on whichever node listens on this address.
    method PutStorageMode(ghost target: HostId, a: Address, mode: Word) returns (r: Reply<()>)
      requires Valid() && mode != MigratingToTablets
      modifies this
      ensures Grew() && !r.Fatal?
      ensures forall p :: |old(log)| <= p < |log| ==>
                Allowed(Idle, At(log, p)) ||
                (p == |log| - 1 && At(log, p).SetMode? && At(log, p).target == target && At(log, p).mode == mode
                 && At(log, p).reached in c.hosts && c.hosts[At(log, p).reached].addr == a)
      ensures r.Answer? ==> |log| > |old(log)| && At(log, |log| - 1).SetMode?
    {
      var _ :- Call();
      var lost: bool := *;
      var h := Reach(a);
      if h.None? || lost {
        return ApiError;
      }
      var next := c.(hosts := c.hosts[h.value := c.hosts[h.value].(intended := mode)]);
      Record(SetMode(target, h.value, mode), next);
      c := next;
      var failed: bool := *;
      return if failed then ApiError else Answer(());
    }

    // POST drain
    method PostDrain(ghost target: HostId, a: Address) returns (r: Reply<()>)
      requires Valid()
      modifies this
      ensures Only(Restarts(target)) && !r.Fatal?
      ensures forall p :: |old(log)| <= p < |log| && At(log, p).Drain? ==>
                At(log, p).reached in c.hosts && c.hosts[At(log, p).reached].addr == a
      ensures forall p :: |old(log)| <= p < |log| ==> !At(log, p).Restart? && !At(log, p).Back?
    {
      var _ :- Call();
      var lost: bool := *;
      var h := Reach(a);
      if h.None? || lost {
        return ApiError;
      }
      Record(Drain(target, h.value), c);
      var failed: bool := *;
      return if failed then ApiError else Answer(());
    }

    // Ask Kubernetes, or the operator, to replace the pod of this node.
    method RequestRestart(target: HostId) returns (r: Reply<()>)
      requires Valid()
      modifies this
      ensures Only(Restarts(target))
      ensures forall p :: |old(log)| <= p < |log| ==> !At(log, p).Drain? && !At(log, p).Back?
      ensures r.Answer? ==> |log| > |old(log)| && At(log, |log| - 1) == Restart(target)
    {
      var _ :- Call();
      var lost: bool := *;
      if lost {
        return ApiError;
      }
      Record(Restart(target), c);
      var failed: bool := *;
      return if failed then Reply.Fatal else Answer(());
    }

    // POST keyspaces/{ks}: build the tablet maps and start the migration.
    method PostStart(a: Address, ks: Keyspace) returns (r: Reply<()>)
      requires Valid()
      modifies this
      ensures Grew() && !r.Fatal?
      ensures forall p :: |old(log)| <= p < |log| ==>
                Allowed(Idle, At(log, p)) || (p == |log| - 1 && At(log, p) == Start(ks))
    {
      var _ :- Call();
      var lost: bool := *;
      var h := Reach(a);
      if h.None? || lost || ks !in c.status || c.status[ks] != Vnodes
         || (exists g :: g in c.hosts && c.hosts[g].intended != Vnodes) {
        return ApiError;
      }
      var next := c.(status := c.status[ks := MigratingToTablets]);
      Record(Start(ks), next);
      c := next;
      var failed: bool := *;
      return if failed then ApiError else Answer(());
    }

    // POST keyspaces/{ks}/finalization
    method PostFinalization(a: Address, ks: Keyspace) returns (r: Reply<()>)
      requires Valid()
      modifies this
      ensures Grew() && !r.Fatal?
      ensures forall p :: |old(log)| <= p < |log| ==>
                Allowed(Idle, At(log, p)) || (p == |log| - 1 && At(log, p) == Finalize(ks))
    {
      var _ :- Call();
      var h := Reach(a);
      if h.None? {
        return ApiError;
      }
      var refused: bool := *;
      var next := c;
      if !refused && ks in Migrating(c) {
        if Uniform(c, ks, Tablets) {
          next := c.(status := c.status[ks := Tablets]);
        } else if Uniform(c, ks, Vnodes) {
          next := c.(status := c.status[ks := Vnodes]);
        }
      }
      Record(Finalize(ks), next);
      c := next;
      var failed: bool := *;
      return if failed then ApiError else Answer(());
    }
  }
}
