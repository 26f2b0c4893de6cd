/** The phases of convert_to_tablets.py: preparing keyspaces, working through the nodes one
    at a time in either direction, and finalizing. */
module Phases {
  import opened Options
  import opened Cluster
  import opened Rest
  import opened Convert

  // The first `i` nodes store and intend `mode` for every keyspace asked for.
  ghost predicate Done(c: State, nodes: seq<Node>, i: nat, keyspaces: seq<Keyspace>, mode: Word)
    requires i <= |nodes|
  {
    forall j, ks :: 0 <= j < i && ks in keyspaces ==> AtMode(c, nodes[j].hostId, ks, mode)
  }

  // A node is marked only after all nodes before it are done.
  ghost predicate TurnOf(c: State, h: HostId, nodes: seq<Node>, keyspaces: seq<Keyspace>, mode: Word) {
    && (forall ks :: ks in keyspaces ==> ks in Migrating(c))
    && (exists i :: 0 <= i < |nodes| && nodes[i].hostId == h && Done(c, nodes, i, keyspaces, mode))
  }

  // Marks, drains and restarts are all in turn, and nothing else is asked for.
  ghost predicate NodeWork(c: State, e: Event, nodes: seq<Node>, keyspaces: seq<Keyspace>, mode: Word) {
    && (Calm(e) || (e.SetMode? && e.mode == mode && TurnOf(c, e.target, nodes, keyspaces, mode)))
    && (Touches(e) ==> TurnOf(c, Touched(e), nodes, keyspaces, mode))
  }

  ghost predicate AllNodeWork(w: World, from: nat, nodes: seq<Node>, keyspaces: seq<Keyspace>, mode: Word)
    reads w
  {
    forall p :: from <= p < |w.log| && p < |w.trace| ==> NodeWork(At(w.trace, p), At(w.log, p), nodes, keyspaces, mode)
  }

  // Nobody but this node is drained or restarted.
  ghost predicate OnlyTouched(log: seq<Event>, from: nat, h: HostId) {
    forall p :: from <= p < |log| && Touches(At(log, p)) ==> Touched(At(log, p)) == h
  }

  // Between the two the node was found to be back.
  ghost predicate BackBetween(log: seq<Event>, p: nat, q: nat, h: HostId)
    requires q <= |log|
  {
    exists r :: p < r < q && At(log, r).Back? && At(log, r).h == h
  }

  // Every node that was drained or restarted has come back.
  ghost predicate Settled(log: seq<Event>, from: nat) {
    forall p :: from <= p < |log| && Touches(At(log, p)) ==> BackBetween(log, p, |log|, Touched(At(log, p)))
  }

  ghost predicate Waits(log: seq<Event>, p: nat, q: nat)
    requires p < q < |log|
  {
    Touches(At(log, p)) && Touches(At(log, q)) && Touched(At(log, p)) != Touched(At(log, q)) ==>
      BackBetween(log, p, q, Touched(At(log, p)))
  }

  /** One at a time: a second node is drained or restarted only after the first has come back. */
  ghost predicate Sequential(log: seq<Event>, from: nat, until: nat)
    requires until <= |log|
  {
    forall p, q :: from <= p < q < until ==> Waits(log, p, q)
  }

  lemma NextIsSequential(l0: seq<Event>, l1: seq<Event>, from: nat, h: HostId)
    requires Extends(l0, l1) && from <= |l0|
    requires Sequential(l0, from, |l0|) && Settled(l0, from) && OnlyTouched(l1, |l0|, h)
    ensures Sequential(l1, from, |l1|)
    ensures Settled(l1, |l0|) ==> Settled(l1, from)
  {
    forall p, q | from <= p < q < |l1| && Touches(At(l1, p)) && Touches(At(l1, q))
                  && Touched(At(l1, p)) != Touched(At(l1, q))
      ensures BackBetween(l1, p, q, Touched(At(l1, p)))
    {
      assert p < |l0| && At(l1, p) == At(l0, p);
      var end := if q < |l0| then q else |l0|;
      if q < |l0| {
        assert At(l1, q) == At(l0, q) && Waits(l0, p, q);
      }
      var r :| p < r < end && At(l0, r).Back? && At(l0, r).h == Touched(At(l0, p));
      assert At(l1, r) == At(l0, r);
    }
    if Settled(l1, |l0|) {
      forall p | from <= p < |l1| && Touches(At(l1, p)) ensures BackBetween(l1, p, |l1|, Touched(At(l1, p))) {
        if p < |l0| {
          assert At(l1, p) == At(l0, p);
          var r :| p < r < |l0| && At(l0, r).Back? && At(l0, r).h == Touched(At(l0, p));
          assert At(l1, r) == At(l0, r);
        }
      }
    }
  }

  // From a look at the node, in its turn, that found it short of tablets, up to p nothing was
  // asked for but marks of this node.
  ghost predicate TurnFrom(trace: seq<State>, log: seq<Event>, r: nat, p: nat, h: HostId, nodes: seq<Node>, keyspaces: seq<Keyspace>)
    requires p <= |log| < |trace|
  {
    && r < p
    && ShortAt(At(trace, r), At(log, r), h, keyspaces, Tablets)
    && TurnOf(At(trace, r), h, nodes, keyspaces, Tablets)
    && forall q :: r <= q < p ==> OwnStep(At(log, q), h)
  }

  predicate OwnStep(e: Event, h: HostId) { Calm(e) || (e.SetMode? && e.target == h && e.mode == Tablets) }

  // Every drain and restart belongs to such a turn.
  ghost predicate TouchedInTurn(trace: seq<State>, log: seq<Event>, from: nat, nodes: seq<Node>, keyspaces: seq<Keyspace>)
    requires |log| < |trace|
  {
    forall p :: from <= p < |log| && Touches(At(log, p)) ==>
      exists r :: from <= r < p && TurnFrom(trace, log, r, p, Touched(At(log, p)), nodes, keyspaces)
  }

  // Nothing is drained or restarted before and after the stretch.
  lemma Padded(t0: seq<State>, l0: seq<Event>, t1: seq<State>, l1: seq<Event>, from: nat, mid: nat,
               nodes: seq<Node>, keyspaces: seq<Keyspace>)
    requires |l0| < |t0| && |l1| < |t1| && Extends(t0, t1) && Extends(l0, l1) && from <= mid <= |l0|
    requires forall p :: from <= p < mid ==> !Touches(At(l0, p))
    requires forall p :: |l0| <= p < |l1| ==> !Touches(At(l1, p))
    ensures TouchedInTurn(t0, l0, mid, nodes, keyspaces) ==> TouchedInTurn(t1, l1, from, nodes, keyspaces)
    ensures Sequential(l0, mid, |l0|) ==> Sequential(l1, from, |l1|)
  {
    forall p | from <= p < |l1| ensures Touches(At(l1, p)) ==> mid <= p < |l0| && At(l1, p) == At(l0, p) {
      assert p < |l0| ==> At(l1, p) == At(l0, p);
    }
    if TouchedInTurn(t0, l0, mid, nodes, keyspaces) {
      PaddedTurns(t0, l0, t1, l1, from, mid, nodes, keyspaces);
    }
    if Sequential(l0, mid, |l0|) {
      forall p, q | from <= p < q < |l1| && Touches(At(l1, p)) && Touches(At(l1, q))
                    && Touched(At(l1, p)) != Touched(At(l1, q))
        ensures BackBetween(l1, p, q, Touched(At(l1, p)))
      {
        assert Waits(l0, p, q);
        var r :| p < r < q && At(l0, r).Back? && At(l0, r).h == Touched(At(l0, p));
        assert At(l1, r) == At(l0, r);
      }
    }
  }

  lemma PaddedTurns(t0: seq<State>, l0: seq<Event>, t1: seq<State>, l1: seq<Event>, from: nat, mid: nat,
                    nodes: seq<Node>, keyspaces: seq<Keyspace>)
    requires |l0| < |t0| && |l1| < |t1| && Extends(t0, t1) && Extends(l0, l1) && from <= mid <= |l0|
    requires forall p :: from <= p < |l1| && Touches(At(l1, p)) ==> mid <= p < |l0| && At(l1, p) == At(l0, p)
    requires TouchedInTurn(t0, l0, mid, nodes, keyspaces)
    ensures TouchedInTurn(t1, l1, from, nodes, keyspaces)
  {
    forall p | from <= p < |l1| && Touches(At(l1, p))
      ensures exists r :: from <= r < p && TurnFrom(t1, l1, r, p, Touched(At(l1, p)), nodes, keyspaces)
    {
      var r :| mid <= r < p && TurnFrom(t0, l0, r, p, Touched(At(l0, p)), nodes, keyspaces);
      SameTurn(t0, l0, t1, l1, r, p, Touched(At(l0, p)), nodes, keyspaces);
    }
  }

  lemma SameTurn(t0: seq<State>, l0: seq<Event>, t1: seq<State>, l1: seq<Event>, r: nat, p: nat, h: HostId,
                 nodes: seq<Node>, keyspaces: seq<Keyspace>)
    requires |l0| < |t0| && |l1| < |t1| && Extends(t0, t1) && Extends(l0, l1) && p <= |l0|
    requires TurnFrom(t0, l0, r, p, h, nodes, keyspaces)
    ensures TurnFrom(t1, l1, r, p, h, nodes, keyspaces)
  {
    assert At(t1, r) == At(t0, r) && At(l1, r) == At(l0, r);
    forall q | r <= q < p ensures OwnStep(At(l1, q), h) {
      assert At(l1, q) == At(l0, q);
    }
  }

  lemma StillInTurn(t0: seq<State>, l0: seq<Event>, t1: seq<State>, l1: seq<Event>, from: nat,
                    nodes: seq<Node>, keyspaces: seq<Keyspace>)
    requires |l0| < |t0| && |l1| < |t1| && Extends(t0, t1) && Extends(l0, l1) && from <= |l0|
    requires TouchedInTurn(t0, l0, from, nodes, keyspaces) && TouchedInTurn(t1, l1, |l0|, nodes, keyspaces)
    ensures TouchedInTurn(t1, l1, from, nodes, keyspaces)
  {
    forall p | from <= p < |l1| && Touches(At(l1, p))
      ensures exists r :: from <= r < p && TurnFrom(t1, l1, r, p, Touched(At(l1, p)), nodes, keyspaces)
    {
      if p < |l0| {
        assert At(l1, p) == At(l0, p);
        var r :| from <= r < p && TurnFrom(t0, l0, r, p, Touched(At(l0, p)), nodes, keyspaces);
        SameTurn(t0, l0, t1, l1, r, p, Touched(At(l0, p)), nodes, keyspaces);
      } else {
        var r :| |l0| <= r < p && TurnFrom(t1, l1, r, p, Touched(At(l1, p)), nodes, keyspaces);
      }
    }
  }

  lemma DoneDrifts(c: State, c': State, nodes: seq<Node>, i: nat, keyspaces: seq<Keyspace>, mode: Word)
    requires Drift(c, c') && i <= |nodes| && Done(c, nodes, i, keyspaces, mode)
    ensures Done(c', nodes, i, keyspaces, mode)
  {
    forall j, ks | 0 <= j < i && ks in keyspaces ensures AtMode(c', nodes[j].hostId, ks, mode) {
      assert AtMode(c, nodes[j].hostId, ks, mode);
      assert DriftHost(c.hosts[nodes[j].hostId], c'.hosts[nodes[j].hostId], Migrating(c));
      assert ks in Migrating(c);
    }
  }

  // A mark that went through was made in turn, and leaves the nodes before it done.
  lemma MarkInTurn(trace: seq<State>, log: seq<Event>, from: nat, nodes: seq<Node>, i: nat,
                   keyspaces: seq<Keyspace>, e: Event)
    requires Run(trace, log) && from < |log| && i < |nodes|
    requires forall p :: from <= p < |log| - 1 ==> Calm(At(log, p))
    requires forall ks :: ks in keyspaces ==> ks in Migrating(At(trace, from))
    requires e == At(log, |log| - 1) && e.SetMode? && e.target == nodes[i].hostId
    requires Done(At(trace, from), nodes, i, keyspaces, e.mode)
    ensures NodeWork(At(trace, |log| - 1), e, nodes, keyspaces, e.mode)
    ensures At(trace, |log|).status == At(trace, from).status
    ensures Done(At(trace, |log|), nodes, i, keyspaces, e.mode)
    ensures e.reached in At(trace, |log|).hosts && At(trace, |log|).hosts[e.reached].intended == e.mode
  {
    var last := |log| - 1;
    CalmRunDrifts(trace, log, from, last);
    DoneDrifts(trace[from], trace[last], nodes, i, keyspaces, e.mode);
    assert Step(trace[last], log[last], trace[last + 1]);
    assert Migrating(trace[last]) == Migrating(trace[from]);
  }

  method SetStorageMode(w: World, nodes: seq<Node>, i: nat, keyspaces: seq<Keyspace>, mode: Word)
    returns (r: Reply<()>)
    requires w.Valid() && i < |nodes| && mode != MigratingToTablets
    requires forall ks :: ks in keyspaces ==> ks in Migrating(w.c)
    requires Done(w.c, nodes, i, keyspaces, mode)
    modifies w
    ensures w.Grew() && !r.Fatal?
    ensures AllNodeWork(w, |old(w.log)|, nodes, keyspaces, mode)
    ensures w.c.status == old(w.c.status) && Done(w.c, nodes, i, keyspaces, mode)
    ensures old(w.disciplined && w.moving == None && Unique(w.c) && Located(w, nodes[i])) ==>
              && Aimed(w.log, |old(w.log)|)
              && (r.Answer? ==> w.c.hosts[nodes[i].hostId].intended == mode)
    ensures forall p :: |old(w.log)| <= p < |w.log| ==>
              Allowed(Idle, At(w.log, p)) || MarkOf(At(w.log, p), nodes[i], mode)
  {
    r := w.PutStorageMode(nodes[i].hostId, Url(nodes[i].apiHost), mode);
    ghost var n := |old(w.log)|;
    assert At(w.trace, n) == old(w.c);
    MarkedOrNot(w.trace, w.log, n, nodes, i, keyspaces, mode);
  }

  // The call ended with a mark of this node, or with none.
  lemma MarkedOrNot(trace: seq<State>, log: seq<Event>, from: nat, nodes: seq<Node>, i: nat,
                    keyspaces: seq<Keyspace>, mode: Word)
    requires Run(trace, log) && from <= |log| && i < |nodes|
    requires forall ks :: ks in keyspaces ==> ks in Migrating(At(trace, from))
    requires Done(At(trace, from), nodes, i, keyspaces, mode)
    requires forall p :: from <= p < |log| ==> Allowed(Idle, At(log, p)) || (p == |log| - 1 && MarkOf(At(log, p), nodes[i], mode))
    ensures forall p :: from <= p < |log| ==> NodeWork(At(trace, p), At(log, p), nodes, keyspaces, mode)
    ensures At(trace, |log|).status == At(trace, from).status && Done(At(trace, |log|), nodes, i, keyspaces, mode)
    ensures |log| > from && At(log, |log| - 1).SetMode? ==>
              var h := At(log, |log| - 1).reached;
              h in At(trace, |log|).hosts && At(trace, |log|).hosts[h].intended == mode
  {
    if |log| > from && At(log, |log| - 1).SetMode? {
      MarkInTurn(trace, log, from, nodes, i, keyspaces, At(log, |log| - 1));
    } else {
      CalmRunDrifts(trace, log, from, |log|);
      DoneDrifts(trace[from], trace[|log|], nodes, i, keyspaces, mode);
    }
  }

  predicate MarkOf(e: Event, node: Node, mode: Word) { e.SetMode? && e.target == node.hostId && e.mode == mode }

  // Ask another live node whether this one already uses tablets for every keyspace; if not, when
  // it was seen not to.
  method AskPeer(w: World, nodes: seq<Node>, i: nat, keyspaces: seq<Keyspace>)
    returns (r: Reply<(Node, bool)>, ghost short: nat)
    requires w.Valid() && Roster(w, nodes) && i < |nodes|
    requires forall ks :: ks in keyspaces ==> ks in Migrating(w.c)
    requires Done(w.c, nodes, i, keyspaces, Tablets)
    modifies w
    ensures w.Only(Reads(nodes[i].hostId))
    ensures w.c.status == old(w.c.status) && Done(w.c, nodes, i, keyspaces, Tablets)
    ensures r.Answer? && r.value.1 ==> Done(w.c, nodes, i + 1, keyspaces, Tablets)
    ensures r.Answer? && !r.value.1 ==> ShortSeen(w, |old(w.log)|, short, nodes[i].hostId, keyspaces, Tablets)
  {
    var peer := PickControl(w, nodes, Some(nodes[i].hostId));
    w.Drifts(Idle);
    DoneDrifts(old(w.c), w.c, nodes, i, keyspaces, Tablets);
    if peer.Killed? {
      return Killed, 0;
    }
    if peer.value.None? {
      return Reply.Fatal, 0;
    }
    label Asked:
    var done, seen := AllUse(w, peer.value.value, nodes[i].hostId, keyspaces, Tablets);
    DoneDrifts(old@Asked(w.c), w.c, nodes, i, keyspaces, Tablets);
    short := seen;
    return if done.Answer? then Answer((peer.value.value, done.value)) else done.PropagateFailure(), short;
  }

  // Calm events about one node are work on it, while the nodes before it are done.
  lemma CalmWork(trace: seq<State>, log: seq<Event>, from: nat, nodes: seq<Node>, i: nat, keyspaces: seq<Keyspace>, mode: Word)
    requires Run(trace, log) && from <= |log| && i < |nodes|
    requires forall p :: from <= p < |log| ==> Calm(At(log, p))
    requires OnlyTouched(log, from, nodes[i].hostId)
    requires Done(At(trace, from), nodes, i, keyspaces, mode)
    requires forall ks :: ks in keyspaces ==> ks in Migrating(At(trace, from))
    ensures forall p :: from <= p < |log| ==> NodeWork(At(trace, p), At(log, p), nodes, keyspaces, mode)
  {
    forall p | from <= p < |log| ensures NodeWork(At(trace, p), At(log, p), nodes, keyspaces, mode) {
      CalmRunDrifts(trace, log, from, p);
      DoneDrifts(At(trace, from), At(trace, p), nodes, i, keyspaces, mode);
    }
  }

  // Everything after the look belongs to the turn of this node.
  lemma TurnIsTaken(trace: seq<State>, log: seq<Event>, from: nat, r: nat, nodes: seq<Node>, i: nat, keyspaces: seq<Keyspace>)
    requires |log| < |trace| && from <= r < |log| && i < |nodes|
    requires ShortAt(At(trace, r), At(log, r), nodes[i].hostId, keyspaces, Tablets)
    requires TurnOf(At(trace, r), nodes[i].hostId, nodes, keyspaces, Tablets)
    requires forall q :: r <= q < |log| ==> OwnStep(At(log, q), nodes[i].hostId)
    requires OnlyTouched(log, from, nodes[i].hostId)
    requires forall p :: from <= p <= r ==> !Touches(At(log, p))
    ensures TouchedInTurn(trace, log, from, nodes, keyspaces)
  {
    forall p | from <= p < |log| && Touches(At(log, p))
      ensures exists r :: from <= r < p && TurnFrom(trace, log, r, p, Touched(At(log, p)), nodes, keyspaces)
    {
      assert TurnFrom(trace, log, r, p, nodes[i].hostId, nodes, keyspaces);
    }
  }

  /** One turn of the storage upgrade: skip the node, or mark it, restart it and wait.  Only this
      node is drained or restarted, and only after it was seen not to use tablets. */
  method UpgradeNode(w: World, nodes: seq<Node>, i: nat, opts: Opts, k8s: bool) returns (r: Reply<()>)
    requires w.Valid() && w.moving == None && Roster(w, nodes) && i < |nodes|
    requires opts.keyspaces != [] && forall ks :: ks in opts.keyspaces ==> ks in Migrating(w.c)
    requires Done(w.c, nodes, i, opts.keyspaces, Tablets)
    modifies w, nodes[i]
    ensures w.Grown(Some(nodes[i].hostId))
    ensures AllNodeWork(w, |old(w.log)|, nodes, opts.keyspaces, Tablets)
    ensures OnlyTouched(w.log, |old(w.log)|, nodes[i].hostId)
    ensures TouchedInTurn(w.trace, w.log, |old(w.log)|, nodes, opts.keyspaces)
    ensures old(Tame(w, nodes)) ==> Aimed(w.log, |old(w.log)|) && (r.Answer? ==> Tame(w, nodes))
    ensures r.Answer? ==>
              && w.moving == None && w.c.status == old(w.c.status)
              && Done(w.c, nodes, i + 1, opts.keyspaces, Tablets) && Settled(w.log, |old(w.log)|)
  {
    ghost var n, tame := |w.log|, Tame(w, nodes);
    var asked, short := AskPeer(w, nodes, i, opts.keyspaces);
    if !asked.Answer? {
      return asked.PropagateFailure();
    }
    if asked.value.1 {
      return Answer(());
    }
    assert tame ==> Tame(w, nodes) && Aimed(w.log, n);
    LookInTurn(w.trace, w.log, n, short, nodes, i, opts.keyspaces);
    r := TakeTurn(w, nodes, i, asked.value.0, opts, k8s, n, short);
  }

  // The turn of a node that was seen, at `short`, not to use tablets.
  method TakeTurn(w: World, nodes: seq<Node>, i: nat, peer: Node, opts: Opts, k8s: bool, ghost from: nat, ghost short: nat)
    returns (r: Reply<()>)
    requires w.Valid() && w.moving == None && Roster(w, nodes) && i < |nodes|
    requires opts.keyspaces != [] && forall ks :: ks in opts.keyspaces ==> ks in Migrating(w.c)
    requires Done(w.c, nodes, i, opts.keyspaces, Tablets)
    requires from <= |w.log| && forall p :: from <= p < |w.log| ==> Allowed(Reads(nodes[i].hostId), At(w.log, p))
    requires ShortSeen(w, from, short, nodes[i].hostId, opts.keyspaces, Tablets)
    requires TurnOf(At(w.trace, short), nodes[i].hostId, nodes, opts.keyspaces, Tablets)
    modifies w, nodes[i]
    ensures w.Grown(Some(nodes[i].hostId))
    ensures AllNodeWork(w, from, nodes, opts.keyspaces, Tablets) && OnlyTouched(w.log, from, nodes[i].hostId)
    ensures TouchedInTurn(w.trace, w.log, from, nodes, opts.keyspaces)
    ensures old(Tame(w, nodes)) ==> Aimed(w.log, |old(w.log)|) && (r.Answer? ==> Tame(w, nodes))
    ensures r.Answer? ==>
              && w.moving == None && w.c.status == old(w.c.status)
              && Done(w.c, nodes, i + 1, opts.keyspaces, Tablets) && Settled(w.log, from)
  {
    ghost var t0, l0 := w.trace, w.log;
    r := MarkAndReload(w, nodes, i, peer, opts, k8s);
    AfterTheLook(t0, l0, w.trace, w.log, from, short, nodes, i, opts.keyspaces);
  }

  lemma LookInTurn(trace: seq<State>, log: seq<Event>, from: nat, r: nat, nodes: seq<Node>, i: nat, keyspaces: seq<Keyspace>)
    requires Run(trace, log) && from <= r < |log| && i < |nodes|
    requires forall p :: from <= p < |log| ==> Calm(At(log, p))
    requires Done(At(trace, from), nodes, i, keyspaces, Tablets)
    requires forall ks :: ks in keyspaces ==> ks in Migrating(At(trace, from))
    ensures TurnOf(At(trace, r), nodes[i].hostId, nodes, keyspaces, Tablets)
  {
    CalmRunDrifts(trace, log, from, r);
    DoneDrifts(At(trace, from), At(trace, r), nodes, i, keyspaces, Tablets);
  }

  // The look, and then the marking and restarting, are one turn.
  lemma AfterTheLook(t0: seq<State>, l0: seq<Event>, t1: seq<State>, l1: seq<Event>, from: nat, r: nat,
                     nodes: seq<Node>, i: nat, keyspaces: seq<Keyspace>)
    requires |t0| > |l0| && |t1| > |l1| && Extends(t0, t1) && Extends(l0, l1) && from <= r < |l0| && i < |nodes|
    requires forall p :: from <= p < |l0| ==> Allowed(Reads(nodes[i].hostId), At(l0, p))
    requires ShortAt(At(t0, r), At(l0, r), nodes[i].hostId, keyspaces, Tablets)
    requires TurnOf(At(t0, r), nodes[i].hostId, nodes, keyspaces, Tablets)
    requires forall p :: |l0| <= p < |l1| ==> OwnStep(At(l1, p), nodes[i].hostId)
    requires OnlyTouched(l1, |l0|, nodes[i].hostId)
    requires forall p :: |l0| <= p < |l1| ==> NodeWork(At(t1, p), At(l1, p), nodes, keyspaces, Tablets)
    ensures TouchedInTurn(t1, l1, from, nodes, keyspaces) && OnlyTouched(l1, from, nodes[i].hostId)
    ensures forall p :: from <= p < |l1| ==> NodeWork(At(t1, p), At(l1, p), nodes, keyspaces, Tablets)
    ensures Settled(l1, |l0|) ==> Settled(l1, from)
  {
    forall p | from <= p < |l0| ensures Calm(At(l1, p)) && !Touches(At(l1, p)) {
      assert At(l1, p) == At(l0, p);
    }
    assert At(t1, r) == At(t0, r) && At(l1, r) == At(l0, r);
    TurnIsTaken(t1, l1, from, r, nodes, i, keyspaces);
  }

  method MarkAndReload(w: World, nodes: seq<Node>, i: nat, peer: Node, opts: Opts, k8s: bool) returns (r: Reply<()>)
    requires w.Valid() && w.moving == None && Roster(w, nodes) && i < |nodes|
    requires opts.keyspaces != [] && forall ks :: ks in opts.keyspaces ==> ks in Migrating(w.c)
    requires Done(w.c, nodes, i, opts.keyspaces, Tablets)
    modifies w, nodes[i]
    ensures w.Grown(Some(nodes[i].hostId))
    ensures AllNodeWork(w, |old(w.log)|, nodes, opts.keyspaces, Tablets)
    ensures OnlyTouched(w.log, |old(w.log)|, nodes[i].hostId)
    ensures forall p :: |old(w.log)| <= p < |w.log| ==> OwnStep(At(w.log, p), nodes[i].hostId)
    ensures old(Tame(w, nodes)) ==> Aimed(w.log, |old(w.log)|) && (r.Answer? ==> Tame(w, nodes))
    ensures r.Answer? ==>
              && w.moving == None && w.c.status == old(w.c.status)
              && Done(w.c, nodes, i + 1, opts.keyspaces, Tablets) && Settled(w.log, |old(w.log)|)
  {
    ghost var tame := Tame(w, nodes);
    r := SetStorageMode(w, nodes, i, opts.keyspaces, Tablets);
    assert tame ==> Tame(w, nodes) && Aimed(w.log, |old(w.log)|);
    if !r.Answer? {
      return;
    }
    ghost var t0, l0 := w.trace, w.log;
    r := Reload(w, nodes, i, peer, opts, k8s, Tablets);
    assert At(w.trace, |l0|) == At(t0, |l0|);
    CalmWork(w.trace, w.log, |l0|, nodes, i, opts.keyspaces, Tablets);
    AlsoWork(t0, l0, w.trace, w.log, |old(w.log)|, nodes, opts.keyspaces, Tablets);
  }

  lemma AlsoWork(t0: seq<State>, l0: seq<Event>, t1: seq<State>, l1: seq<Event>, from: nat,
                 nodes: seq<Node>, keyspaces: seq<Keyspace>, mode: Word)
    requires |t0| > |l0| && |t1| > |l1| && Extends(t0, t1) && Extends(l0, l1)
    requires forall p :: from <= p < |l0| ==> NodeWork(At(t0, p), At(l0, p), nodes, keyspaces, mode)
    requires forall p :: |l0| <= p < |l1| ==> NodeWork(At(t1, p), At(l1, p), nodes, keyspaces, mode)
    ensures forall p :: from <= p < |l1| ==> NodeWork(At(t1, p), At(l1, p), nodes, keyspaces, mode)
  {
    forall p | from <= p < |l1| ensures NodeWork(At(t1, p), At(l1, p), nodes, keyspaces, mode) {
      assert p < |l0| ==> At(t1, p) == At(t0, p) && At(l1, p) == At(l0, p);
    }
  }

  // Wait until a restarted node reports the mode it was marked for.
  method AwaitMode(w: World, nodes: seq<Node>, i: nat, peer: Node, opts: Opts, mode: Word) returns (r: Reply<()>)
    requires w.Valid() && Roster(w, nodes) && i < |nodes|
    requires forall ks :: ks in opts.keyspaces ==> ks in Migrating(w.c)
    requires Done(w.c, nodes, i, opts.keyspaces, mode)
    modifies w
    ensures w.Only(Reads(nodes[i].hostId)) && w.c.status == old(w.c.status)
    ensures r.Answer? ==> Done(w.c, nodes, i + 1, opts.keyspaces, mode)
  {
    var reached :- WaitNodeMode(w, peer, nodes[i].hostId, opts.keyspaces, mode, opts.stateTimeout);
    DoneDrifts(old(w.c), w.c, nodes, i, opts.keyspaces, mode);
    return if reached then Answer(()) else Reply.Fatal;
  }

  // A node whose return was the last that happened, but for reads, has come back.
  lemma BackSettles(log: seq<Event>, from: nat, b: nat, h: HostId)
    requires from <= b < |log| && At(log, b).Back? && At(log, b).h == h && OnlyTouched(log, from, h)
    requires forall p :: b < p < |log| ==> !Touches(At(log, p))
    ensures Settled(log, from)
  {
    forall p | from <= p < |log| && Touches(At(log, p)) ensures BackBetween(log, p, |log|, Touched(At(log, p))) {
      assert p < b;
    }
  }

  method Relaunch(w: World, nodes: seq<Node>, i: nat, peer: Node, opts: Opts, k8s: bool, mode: Word)
    returns (r: Reply<()>)
    requires w.Valid() && w.moving == None && Roster(w, nodes) && i < |nodes|
    requires Done(w.c, nodes, i, opts.keyspaces, mode)
    modifies w, nodes[i]
    ensures w.Grown(Some(nodes[i].hostId))
    ensures forall p :: |old(w.log)| <= p < |w.log| ==> Allowed(Restarts(nodes[i].hostId), At(w.log, p))
    ensures r.Answer? ==> exists p :: |old(w.log)| <= p < |w.log| && At(w.log, p) == Restart(nodes[i].hostId)
    ensures old(Tame(w, nodes)) ==> Aimed(w.log, |old(w.log)|) && (r.Answer? ==> Tame(w, nodes))
    ensures r.Answer? ==> w.moving == None && LastIsBack(w, |old(w.log)|, nodes[i].hostId)
    ensures w.c.status == old(w.c.status) && Done(w.c, nodes, i, opts.keyspaces, mode)
  {
    ghost var tame := Tame(w, nodes);
    r := RestartNode(w, nodes[i], peer, opts, k8s);
    w.Drifts(Restarts(nodes[i].hostId));
    DoneDrifts(old(w.c), w.c, nodes, i, opts.keyspaces, mode);
    assert tame && r.Answer? ==> Tame(w, nodes);
  }

  // Restart a marked node and wait until it reports the mode it was marked for.
  method Reload(w: World, nodes: seq<Node>, i: nat, peer: Node, opts: Opts, k8s: bool, mode: Word)
    returns (r: Reply<()>)
    requires w.Valid() && w.moving == None && Roster(w, nodes) && i < |nodes|
    requires forall ks :: ks in opts.keyspaces ==> ks in Migrating(w.c)
    requires Done(w.c, nodes, i, opts.keyspaces, mode)
    modifies w, nodes[i]
    ensures w.Grown(Some(nodes[i].hostId))
    ensures forall p :: |old(w.log)| <= p < |w.log| ==>
              Allowed(Restarts(nodes[i].hostId), At(w.log, p)) || Allowed(Reads(nodes[i].hostId), At(w.log, p))
    ensures r.Answer? ==> exists p :: |old(w.log)| <= p < |w.log| && At(w.log, p) == Restart(nodes[i].hostId)
    ensures old(Tame(w, nodes)) ==> Aimed(w.log, |old(w.log)|) && (r.Answer? ==> Tame(w, nodes))
    ensures r.Answer? ==>
              && w.moving == None && w.c.status == old(w.c.status)
              && Done(w.c, nodes, i + 1, opts.keyspaces, mode) && Settled(w.log, |old(w.log)|)
  {
    ghost var n := |w.log|;
    r := Relaunch(w, nodes, i, peer, opts, k8s, mode);
    if r.Answer? {
      ghost var at :| n <= at < |w.log| && At(w.log, at) == Restart(nodes[i].hostId);
      ghost var l1 := w.log;
      assert Migrating(w.c) == Migrating(old(w.c));
      r := AwaitMode(w, nodes, i, peer, opts, mode);
      assert At(w.log, at) == At(l1, at) && At(w.log, |l1| - 1) == At(l1, |l1| - 1);
      BackSettles(w.log, n, |l1| - 1, nodes[i].hostId);
    }
  }
}
