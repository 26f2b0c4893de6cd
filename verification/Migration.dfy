/** migrate() and rollback() of convert_to_tablets.py. */
module Migration {
  import opened Options
  import opened Cluster
  import opened Rest
  import opened Convert
  import opened Phases
  import opened Finalization

  /** All that a run of `migrate` ever asks of the cluster, and when. */
  ghost predicate MigrateMove(c: State, e: Event, nodes: seq<Node>, keyspaces: seq<Keyspace>) {
    || NodeWork(c, e, nodes, keyspaces, Tablets)
    || FinalMove(c, e, nodes, keyspaces, Tablets)
    || (e.Start? && e.ks in keyspaces)
  }

  /** All that a run of `rollback` ever asks of the cluster, and when. */
  ghost predicate RollbackMove(c: State, e: Event, nodes: seq<Node>, keyspaces: seq<Keyspace>) {
    NodeWork(c, e, nodes, keyspaces, Vnodes) || FinalMove(c, e, nodes, keyspaces, Vnodes)
  }

  // Fail before anything is drained if no node could be restarted afterwards.
  method CheckRestartCapability(w: World, nodes: seq<Node>, opts: Opts, k8s: bool) returns (r: Reply<()>)
    requires w.Valid()
    modifies w
    ensures w.Only(Idle)
    ensures r.Answer? && opts.restartByK8s ==> k8s && forall i :: 0 <= i < |nodes| ==> nodes[i].pod.Some?
  {
    if !opts.restartByK8s {
      return Answer(());
    }
    if !k8s || exists i :: 0 <= i < |nodes| && nodes[i].pod.None? {
      return Reply.Fatal;
    }
    var allowed := w.Ask();
    if allowed.Killed? {
      return Killed;
    }
    return if allowed == Answer(true) then Answer(()) else Reply.Fatal;
  }

  // Which keyspaces still have to be prepared, and whether any preflight check failed.
  method Classify(w: World, control: Node, keyspaces: seq<Keyspace>) returns (r: Reply<(seq<Keyspace>, bool)>)
    requires w.Valid()
    modifies w
    ensures w.Only(Idle)
    ensures r.Answer? ==>
              && (forall ks :: ks in r.value.0 ==> ks in keyspaces)
              && (forall ks :: ks in keyspaces ==> ks in r.value.0 || ks in Migrating(w.c))
  {
    var toPrepare: seq<Keyspace> := [];
    var blocked := false;
    for i := 0 to |keyspaces|
      invariant w.Only(Idle) && w.c.status == old(w.c.status)
      invariant forall ks :: ks in toPrepare ==> ks in keyspaces
      invariant forall j :: 0 <= j < i ==> keyspaces[j] in toPrepare || keyspaces[j] in Migrating(w.c)
    {
      var state := KsState(w, control, keyspaces[i]);
      w.Drifts(Idle);
      if !state.Answer? {
        return if state.Killed? then Killed else Reply.Fatal;
      }
      match state.value {
        case Vnodes =>
          var passed := w.Ask();
          w.Drifts(Idle);
          if !passed.Answer? {
            return passed.PropagateFailure();
          }
          blocked := blocked || !passed.value;
          toPrepare := toPrepare + [keyspaces[i]];
        case MigratingToTablets =>
        case Tablets =>
          return Reply.Fatal;
      }
    }
    return Answer((toPrepare, blocked));
  }

  lemma StartAddsOne(trace: seq<State>, log: seq<Event>, from: nat, ks: Keyspace)
    requires Run(trace, log) && from < |log| && At(log, |log| - 1) == Start(ks)
    requires forall p :: from <= p < |log| - 1 ==> Calm(At(log, p))
    ensures Migrating(At(trace, |log|)) == Migrating(At(trace, from)) + {ks}
  {
    var last := |log| - 1;
    CalmRunDrifts(trace, log, from, last);
    assert Step(trace[last], log[last], trace[last + 1]);
  }

  method PrepareOne(w: World, control: Node, ks: Keyspace) returns (r: Reply<()>)
    requires w.Valid()
    modifies w
    ensures w.Grew() && Migrating(old(w.c)) <= Migrating(w.c)
    ensures forall p :: |old(w.log)| <= p < |w.log| ==> Allowed(Idle, At(w.log, p)) || At(w.log, p) == Start(ks)
    ensures r.Answer? ==> ks in Migrating(w.c)
  {
    ghost var n := |w.log|;
    var posted := w.PostStart(Url(control.apiHost), ks);
    if |w.log| > n && At(w.log, |w.log| - 1) == Start(ks) {
      StartAddsOne(w.trace, w.log, n, ks);
    } else {
      w.Drifts(Idle);
    }
    if !posted.Answer? {
      return if posted.Killed? then Killed else Reply.Fatal;
    }
    label Posted:
    var state := KsState(w, control, ks);
    assert Migrating(old@Posted(w.c)) == Migrating(w.c);
    if !state.Answer? {
      return state.PropagateFailure();
    }
    return if state.value == MigratingToTablets then Answer(()) else Reply.Fatal;
  }

  // Phase 1: build the tablet maps of every keyspace that is still on vnodes.
  method PrepareAll(w: World, control: Node, toPrepare: seq<Keyspace>) returns (r: Reply<()>)
    requires w.Valid()
    modifies w
    ensures w.Grew() && Migrating(old(w.c)) <= Migrating(w.c)
    ensures forall p :: |old(w.log)| <= p < |w.log| ==>
              Allowed(Idle, At(w.log, p)) || (At(w.log, p).Start? && At(w.log, p).ks in toPrepare)
    ensures r.Answer? ==> forall ks :: ks in toPrepare ==> ks in Migrating(w.c)
  {
    for i := 0 to |toPrepare|
      invariant w.Grew() && Migrating(old(w.c)) <= Migrating(w.c)
      invariant forall p :: |old(w.log)| <= p < |w.log| ==>
                  Allowed(Idle, At(w.log, p)) || (At(w.log, p).Start? && At(w.log, p).ks in toPrepare)
      invariant forall j :: 0 <= j < i ==> toPrepare[j] in Migrating(w.c)
    {
      var _ :- PrepareOne(w, control, toPrepare[i]);
    }
    return Answer(());
  }

  // Phase 2: upgrade node storage, one node at a time.
  method UpgradeAll(w: World, nodes: seq<Node>, opts: Opts, k8s: bool) returns (r: Reply<()>)
    requires w.Valid() && w.moving == None && Roster(w, nodes)
    requires opts.keyspaces != [] && forall ks :: ks in opts.keyspaces ==> ks in Migrating(w.c)
    modifies w, nodes
    ensures w.Longer()
    ensures AllNodeWork(w, |old(w.log)|, nodes, opts.keyspaces, Tablets)
    ensures TouchedInTurn(w.trace, w.log, |old(w.log)|, nodes, opts.keyspaces)
    ensures Sequential(w.log, |old(w.log)|, |w.log|)
    ensures old(Tame(w, nodes)) ==> Aimed(w.log, |old(w.log)|)
    ensures r.Answer? ==> Done(w.c, nodes, |nodes|, opts.keyspaces, Tablets) && Settled(w.log, |old(w.log)|)
  {
    ghost var tame := Tame(w, nodes);
    for i := 0 to |nodes|
      invariant w.Longer() && w.moving == None && w.c.status == old(w.c.status)
      invariant AllNodeWork(w, |old(w.log)|, nodes, opts.keyspaces, Tablets)
      invariant TouchedInTurn(w.trace, w.log, |old(w.log)|, nodes, opts.keyspaces)
      invariant Sequential(w.log, |old(w.log)|, |w.log|) && Settled(w.log, |old(w.log)|)
      invariant tame ==> Aimed(w.log, |old(w.log)|) && Tame(w, nodes)
      invariant Done(w.c, nodes, i, opts.keyspaces, Tablets)
    {
      ghost var t0, l0 := w.trace, w.log;
      assert Migrating(w.c) == Migrating(old(w.c));
      r := UpgradeNode(w, nodes, i, opts, k8s);
      AlsoWork(t0, l0, w.trace, w.log, |old(w.log)|, nodes, opts.keyspaces, Tablets);
      StillInTurn(t0, l0, w.trace, w.log, |old(w.log)|, nodes, opts.keyspaces);
      NextIsSequential(l0, w.log, |old(w.log)|, nodes[i].hostId);
      if !r.Answer? {
        return;
      }
    }
    return Answer(());
  }

  // Phase 0: every check up to and including the operator's consent.
  method Preflight(w: World, control: Node, nodes: seq<Node>, opts: Opts, k8s: bool) returns (r: Reply<seq<Keyspace>>)
    requires w.Valid()
    modifies w
    ensures w.Only(Idle)
    ensures r.Answer? ==>
              && (forall ks :: ks in r.value ==> ks in opts.keyspaces)
              && (forall ks :: ks in opts.keyspaces ==> ks in r.value || ks in Migrating(w.c))
    ensures r.Answer? && opts.restartByK8s ==> forall i :: 0 <= i < |nodes| ==> nodes[i].pod.Some?
  {
    var up :- w.Ask();
    if !up && !opts.force {
      return Reply.Fatal;
    }
    var _ :- CheckRestartCapability(w, nodes, opts, k8s);
    var classified :- Classify(w, control, opts.keyspaces);
    if (!up || classified.1) && !opts.force {
      return Reply.Fatal;
    }
    label Classified:
    var agreed := w.Ask();
    w.Drifts@Classified(Idle);
    if agreed.Answer? && agreed.value {
      return Answer(classified.0);
    }
    return if agreed.Answer? then Reply.Fatal else agreed.PropagateFailure();
  }

  /** migrate(): preflight, prepare, upgrade every node in turn, finalize.  Cut off anywhere,
      it has only ever made the moves of MigrateMove, has drained and restarted a node only in a
      turn that began with that node short of tablets, and a second one only once the first was
      back.  If pods are to be deleted and one is unknown, it asks for nothing at all. */
  method Migrate(w: World, control: Node, nodes: seq<Node>, opts: Opts, k8s: bool) returns (r: Reply<()>)
    requires w.Valid() && w.moving == None && Roster(w, nodes) && nodes != [] && opts.keyspaces != []
    modifies w, nodes
    ensures w.Longer()
    ensures forall p :: |old(w.log)| <= p < |w.log| ==>
              MigrateMove(At(w.trace, p), At(w.log, p), nodes, opts.keyspaces)
    ensures TouchedInTurn(w.trace, w.log, |old(w.log)|, nodes, opts.keyspaces)
    ensures Sequential(w.log, |old(w.log)|, |w.log|)
    ensures old(Tame(w, nodes)) ==> Aimed(w.log, |old(w.log)|)
    ensures r.Answer? ==>
              && (forall ks :: ks in opts.keyspaces ==> ks in w.c.status && w.c.status[ks] == Tablets)
              && OnEvery(w.c, nodes, opts.keyspaces, Tablets)
    ensures opts.restartByK8s && (exists i :: 0 <= i < |nodes| && nodes[i].pod.None?) ==>
              !r.Answer? && forall p :: |old(w.log)| <= p < |w.log| ==> Allowed(Idle, At(w.log, p))
  {
    ghost var n, tame := |w.log|, Tame(w, nodes);
    var toPrepare :- Preflight(w, control, nodes, opts, k8s);
    assert tame ==> Tame(w, nodes) && Aimed(w.log, n);
    ghost var mid := |w.log|;
    r := Proceed(w, control, nodes, opts, k8s, toPrepare);
    Padded(w.trace, w.log, w.trace, w.log, n, mid, nodes, opts.keyspaces);
  }

  method Proceed(w: World, control: Node, nodes: seq<Node>, opts: Opts, k8s: bool, toPrepare: seq<Keyspace>)
    returns (r: Reply<()>)
    requires w.Valid() && w.moving == None && Roster(w, nodes) && nodes != [] && opts.keyspaces != []
    requires forall ks :: ks in toPrepare ==> ks in opts.keyspaces
    requires forall ks :: ks in opts.keyspaces ==> ks in toPrepare || ks in Migrating(w.c)
    modifies w, nodes
    ensures w.Longer()
    ensures forall p :: |old(w.log)| <= p < |w.log| ==>
              MigrateMove(At(w.trace, p), At(w.log, p), nodes, opts.keyspaces)
    ensures TouchedInTurn(w.trace, w.log, |old(w.log)|, nodes, opts.keyspaces)
    ensures Sequential(w.log, |old(w.log)|, |w.log|)
    ensures old(Tame(w, nodes)) ==> Aimed(w.log, |old(w.log)|)
    ensures r.Answer? ==>
              && (forall ks :: ks in opts.keyspaces ==> ks in w.c.status && w.c.status[ks] == Tablets)
              && OnEvery(w.c, nodes, opts.keyspaces, Tablets)
  {
    ghost var n := |w.log|;
    ghost var tame := Tame(w, nodes);
    var prepared := PrepareAll(w, control, toPrepare);
    assert forall p :: n <= p < |w.log| ==> MigrateMove(At(w.trace, p), At(w.log, p), nodes, opts.keyspaces);
    assert tame ==> Tame(w, nodes) && Aimed(w.log, n);
    if !prepared.Answer? {
      return prepared;
    }
    r := UpgradeAndFinalize(w, control, nodes, opts, k8s, n);
  }

  // Phases 2 and 3.
  method UpgradeAndFinalize(w: World, control: Node, nodes: seq<Node>, opts: Opts, k8s: bool, ghost from: nat)
    returns (r: Reply<()>)
    requires w.Valid() && w.moving == None && Roster(w, nodes) && nodes != [] && opts.keyspaces != []
    requires forall ks :: ks in opts.keyspaces ==> ks in Migrating(w.c)
    requires from <= |w.log| && forall p :: from <= p < |w.log| ==> !Touches(At(w.log, p))
    modifies w, nodes
    ensures w.Longer()
    ensures forall p :: |old(w.log)| <= p < |w.log| ==>
              MigrateMove(At(w.trace, p), At(w.log, p), nodes, opts.keyspaces)
    ensures TouchedInTurn(w.trace, w.log, from, nodes, opts.keyspaces) && Sequential(w.log, from, |w.log|)
    ensures old(Tame(w, nodes)) ==> Aimed(w.log, |old(w.log)|)
    ensures r.Answer? ==>
              && (forall ks :: ks in opts.keyspaces ==> ks in w.c.status && w.c.status[ks] == Tablets)
              && OnEvery(w.c, nodes, opts.keyspaces, Tablets)
  {
    ghost var l1 := w.log;
    r := UpgradeAll(w, nodes, opts, k8s);
    forall p | from <= p < |l1| ensures !Touches(At(w.log, p)) {
      assert At(w.log, p) == At(l1, p);
    }
    ghost var t2, l2 := w.trace, w.log;
    if r.Answer? {
      r := ConfirmAndFinalize(w, control, nodes, opts.keyspaces);
    }
    Padded(t2, l2, w.trace, w.log, from, |l1|, nodes, opts.keyspaces);
    AlsoMoves(t2, l2, w.trace, w.log, |l1|, nodes, opts.keyspaces);
  }

  lemma AlsoMoves(t0: seq<State>, l0: seq<Event>, t1: seq<State>, l1: seq<Event>, from: nat,
                  nodes: seq<Node>, keyspaces: seq<Keyspace>)
    requires |t0| > |l0| && |t1| > |l1| && Extends(t0, t1) && Extends(l0, l1)
    requires forall p :: from <= p < |l0| ==> NodeWork(At(t0, p), At(l0, p), nodes, keyspaces, Tablets)
    requires forall p :: |l0| <= p < |l1| ==> FinalMove(At(t1, p), At(l1, p), nodes, keyspaces, Tablets)
    ensures forall p :: from <= p < |l1| ==> MigrateMove(At(t1, p), At(l1, p), nodes, keyspaces)
  {
    forall p | from <= p < |l1| ensures MigrateMove(At(t1, p), At(l1, p), nodes, keyspaces) {
      assert p < |l0| ==> At(t1, p) == At(t0, p) && At(l1, p) == At(l0, p);
    }
  }

  // Phase 3: the point of no return.
  method ConfirmAndFinalize(w: World, control: Node, nodes: seq<Node>, keyspaces: seq<Keyspace>) returns (r: Reply<()>)
    requires w.Valid() && nodes != [] && Done(w.c, nodes, |nodes|, keyspaces, Tablets)
    modifies w
    ensures w.Grew()
    ensures forall p :: |old(w.log)| <= p < |w.log| ==>
              FinalMove(At(w.trace, p), At(w.log, p), nodes, keyspaces, Tablets)
    ensures r.Answer? ==>
              && (forall ks :: ks in keyspaces ==> ks in w.c.status && w.c.status[ks] == Tablets)
              && OnEvery(w.c, nodes, keyspaces, Tablets)
  {
    DoneIsHeld(w.c, nodes, keyspaces, Tablets);
    var agreed :- w.Ask();
    if !agreed {
      return Reply.Fatal;
    }
    w.Drifts(Idle);
    HeldDrifts(old(w.c), w.c, nodes, keyspaces, Tablets);
    r := FinalizeAll(w, control, nodes, keyspaces, Tablets);
    assert forall j, ks :: 0 <= j < |nodes| && ks in keyspaces ==> Held(w.c, nodes[j].hostId, ks, Tablets);
  }
}
