/** rollback() of convert_to_tablets.py, and exactly which nodes it restarts. */
module Rollback {
  import opened Options
  import opened Cluster
  import opened Rest
  import opened Convert
  import opened Phases
  import opened Finalization
  import opened Migration

  // A restart of this node was requested.
  ghost predicate Restarted(log: seq<Event>, from: nat, h: HostId) {
    exists p :: from <= p < |log| && At(log, p) == Restart(h)
  }

  // The run looked at this node's modes while it stored a requested keyspace as tablets.
  ghost predicate SeenOnTablets(trace: seq<State>, log: seq<Event>, from: nat, h: HostId, keyspaces: seq<Keyspace>)
    requires |trace| == |log| + 1
  {
    exists p :: from <= p < |log| && OnTabletsAt(At(trace, p), At(log, p), h, keyspaces)
  }

  predicate OnTabletsAt(c: State, e: Event, h: HostId, keyspaces: seq<Keyspace>) {
    e.Inspect? && e.h == h && e.ks in keyspaces && h in c.hosts && e.ks in c.hosts[h].onTablets
  }

  // Restarted exactly if its storage was tablets when it was looked at.
  ghost predicate Justified(trace: seq<State>, log: seq<Event>, from: nat, h: HostId, keyspaces: seq<Keyspace>)
    requires |trace| == |log| + 1
  {
    Restarted(log, from, h) <==> SeenOnTablets(trace, log, from, h, keyspaces)
  }

  predicate About(e: Event, h: HostId) {
    (e.Inspect? ==> e.h == h) && (Touches(e) ==> Touched(e) == h)
  }

  // Work on one node says nothing about another.
  lemma VerdictStays(t0: seq<State>, l0: seq<Event>, t1: seq<State>, l1: seq<Event>, from: nat,
                     h: HostId, keyspaces: seq<Keyspace>)
    requires |t0| == |l0| + 1 && |t1| == |l1| + 1 && Extends(t0, t1) && Extends(l0, l1)
    requires forall p :: |l0| <= p < |l1| ==> !(At(l1, p).Inspect? && At(l1, p).h == h) && At(l1, p) != Restart(h)
    ensures Restarted(l0, from, h) <==> Restarted(l1, from, h)
    ensures SeenOnTablets(t0, l0, from, h, keyspaces) <==> SeenOnTablets(t1, l1, from, h, keyspaces)
  {
    SeenStays(t0, l0, t1, l1, from, h, keyspaces);
    if Restarted(l1, from, h) {
      var p :| from <= p < |l1| && At(l1, p) == Restart(h);
      assert At(l1, p) == At(l0, p);
    }
    if SeenOnTablets(t1, l1, from, h, keyspaces) {
      var p :| from <= p < |l1| && OnTabletsAt(At(t1, p), At(l1, p), h, keyspaces);
      assert At(t1, p) == At(t0, p) && At(l1, p) == At(l0, p);
    }
  }

  // Storage that intends and uses vnodes is never seen on tablets while calm.
  lemma {:induction false} CalmNotSeen(trace: seq<State>, log: seq<Event>, from: nat, h: HostId, keyspaces: seq<Keyspace>)
    requires Run(trace, log) && from <= |log|
    requires forall p :: from <= p < |log| ==> Calm(At(log, p))
    requires forall ks :: ks in keyspaces ==> AtMode(At(trace, from), h, ks, Vnodes)
    ensures !SeenOnTablets(trace, log, from, h, keyspaces)
  {
    forall p | from <= p < |log| ensures !OnTabletsAt(At(trace, p), At(log, p), h, keyspaces) {
      CalmRunDrifts(trace, log, from, p);
      forall ks | ks in keyspaces ensures AtMode(trace[p], h, ks, Vnodes) {
        assert AtMode(trace[from], h, ks, Vnodes);
        assert DriftHost(trace[from].hosts[h], trace[p].hosts[h], Migrating(trace[from]));
        assert ks in Migrating(trace[from]);
      }
    }
  }

  // One look at one keyspace: does the node have to be restarted for it?
  method LooksMigrating(w: World, peer: Node, id: HostId, ks: Keyspace, keyspaces: seq<Keyspace>, ghost from: nat)
    returns (r: Reply<bool>)
    requires w.Valid() && id in w.c.hosts && ks in keyspaces && ks in Migrating(w.c) && from <= |w.log|
    modifies w
    ensures w.Only(Reads(id)) && Drift(old(w.c), w.c)
    ensures r == Answer(true) ==> SeenOnTablets(w.trace, w.log, from, id, keyspaces)
    ensures r == Answer(false) && old(w.c).hosts[id].intended == Vnodes
            && old(!SeenOnTablets(w.trace, w.log, from, id, keyspaces)) ==>
              !SeenOnTablets(w.trace, w.log, from, id, keyspaces) && AtMode(w.c, id, ks, Vnodes)
  {
    ghost var t0, l0 := w.trace, w.log;
    var phrase :- ReadPhrase(w, peer, id, ks);
    ghost var last := |w.log| - 1;
    assert OnTabletsAt(At(w.trace, last), At(w.log, last), id, keyspaces) <==> ks in w.c.hosts[id].onTablets;
    if phrase == MigratingTo(Vnodes) {
      return Answer(true);
    }
    assert DriftHost(old(w.c).hosts[id], w.c.hosts[id], Migrating(old(w.c)));
    if SeenOnTablets(w.trace, w.log, from, id, keyspaces) {
      ghost var p :| from <= p < |w.log| && OnTabletsAt(At(w.trace, p), At(w.log, p), id, keyspaces);
      assert p < |l0| ==> OnTabletsAt(At(t0, p), At(l0, p), id, keyspaces);
    }
    return Answer(false);
  }

  /** Whether the node has to be restarted: some keyspace reports "migrating to vnodes". */
  method NeedsRestart(w: World, peer: Node, id: HostId, keyspaces: seq<Keyspace>) returns (r: Reply<bool>)
    requires w.Valid() && id in w.c.hosts
    requires forall ks :: ks in keyspaces ==> ks in Migrating(w.c)
    modifies w
    ensures w.Only(Reads(id)) && Drift(old(w.c), w.c)
    ensures r == Answer(true) ==> SeenOnTablets(w.trace, w.log, |old(w.log)|, id, keyspaces)
    ensures r == Answer(false) && old(w.c).hosts[id].intended == Vnodes ==>
              !SeenOnTablets(w.trace, w.log, |old(w.log)|, id, keyspaces)
              && forall ks :: ks in keyspaces ==> AtMode(w.c, id, ks, Vnodes)
  {
    ghost var n := |w.log|;
    ghost var marked := w.c.hosts[id].intended == Vnodes;
    var needed := false;
    w.Drifts(Reads(id));
    for i := 0 to |keyspaces|
      invariant w.Only(Reads(id)) && Drift(old(w.c), w.c)
      invariant needed ==> SeenOnTablets(w.trace, w.log, n, id, keyspaces)
      invariant !needed && marked ==>
                  !SeenOnTablets(w.trace, w.log, n, id, keyspaces)
                  && forall j :: 0 <= j < i ==> AtMode(w.c, id, keyspaces[j], Vnodes)
    {
      assert Migrating(w.c) == Migrating(old(w.c));
      ghost var t0, l0 := w.trace, w.log;
      var migrating :- LooksMigrating(w, peer, id, keyspaces[i], keyspaces, n);
      w.Drifts(Reads(id));
      if needed {
        SeenStays(t0, l0, w.trace, w.log, n, id, keyspaces);
      }
      needed := needed || migrating;
    }
    return Answer(needed);
  }

  lemma SeenStays(t0: seq<State>, l0: seq<Event>, t1: seq<State>, l1: seq<Event>, from: nat,
                  h: HostId, keyspaces: seq<Keyspace>)
    requires |t0| == |l0| + 1 && |t1| == |l1| + 1 && Extends(t0, t1) && Extends(l0, l1)
    ensures SeenOnTablets(t0, l0, from, h, keyspaces) ==> SeenOnTablets(t1, l1, from, h, keyspaces)
    ensures Restarted(l0, from, h) ==> Restarted(l1, from, h)
  {
    if SeenOnTablets(t0, l0, from, h, keyspaces) {
      var p :| from <= p < |l0| && OnTabletsAt(At(t0, p), At(l0, p), h, keyspaces);
      assert At(t1, p) == At(t0, p) && At(l1, p) == At(l0, p);
    }
    if Restarted(l0, from, h) {
      var p :| from <= p < |l0| && At(l0, p) == Restart(h);
      assert At(l1, p) == Restart(h);
    }
  }

  // The decision for one node, with the nodes before it still done.
  method Decide(w: World, nodes: seq<Node>, i: nat, peer: Node, keyspaces: seq<Keyspace>) returns (r: Reply<bool>)
    requires w.Valid() && Roster(w, nodes) && i < |nodes|
    requires forall ks :: ks in keyspaces ==> ks in Migrating(w.c)
    requires Done(w.c, nodes, i, keyspaces, Vnodes)
    modifies w
    ensures w.Only(Reads(nodes[i].hostId)) && w.c.status == old(w.c.status)
    ensures Done(w.c, nodes, i, keyspaces, Vnodes)
    ensures Aimed(w.log, |old(w.log)|) && (old(Tame(w, nodes)) ==> Tame(w, nodes))
    ensures r == Answer(true) ==> SeenOnTablets(w.trace, w.log, |old(w.log)|, nodes[i].hostId, keyspaces)
    ensures r == Answer(false) && old(w.c).hosts[nodes[i].hostId].intended == Vnodes ==>
              !SeenOnTablets(w.trace, w.log, |old(w.log)|, nodes[i].hostId, keyspaces)
              && forall ks :: ks in keyspaces ==> AtMode(w.c, nodes[i].hostId, ks, Vnodes)
  {
    r := NeedsRestart(w, peer, nodes[i].hostId, keyspaces);
    DoneDrifts(old(w.c), w.c, nodes, i, keyspaces, Vnodes);
  }

  // The decision and what follows from it: restart a node still on tablets, or only wait.
  method Downgrade(w: World, nodes: seq<Node>, i: nat, peer: Node, opts: Opts, k8s: bool) returns (r: Reply<()>)
    requires w.Valid() && w.moving == None && Roster(w, nodes) && i < |nodes|
    requires forall ks :: ks in opts.keyspaces ==> ks in Migrating(w.c)
    requires Done(w.c, nodes, i, opts.keyspaces, Vnodes)
    modifies w, nodes[i]
    ensures w.Grown(Some(nodes[i].hostId))
    ensures forall p :: |old(w.log)| <= p < |w.log| ==>
              Calm(At(w.log, p)) && About(At(w.log, p), nodes[i].hostId)
    ensures old(Tame(w, nodes)) ==> Aimed(w.log, |old(w.log)|) && (r.Answer? ==> Tame(w, nodes))
    ensures old(w.c).hosts[nodes[i].hostId].intended == Vnodes && r.Answer? ==>
              Justified(w.trace, w.log, |old(w.log)|, nodes[i].hostId, opts.keyspaces)
    ensures r.Answer? ==>
              && w.moving == None && w.c.status == old(w.c.status)
              && Done(w.c, nodes, i + 1, opts.keyspaces, Vnodes) && Settled(w.log, |old(w.log)|)
  {
    ghost var n := |w.log|;
    var needed := Decide(w, nodes, i, peer, opts.keyspaces);
    assert Migrating(w.c) == Migrating(old(w.c));
    if !needed.Answer? {
      r := needed.PropagateFailure();
    } else if needed.value {
      r := RestartSeen(w, nodes, i, peer, opts, k8s, n);
    } else {
      r := Stay(w, nodes, i, peer, opts, n);
    }
  }

  // Restart a node that was seen on tablets.
  method RestartSeen(w: World, nodes: seq<Node>, i: nat, peer: Node, opts: Opts, k8s: bool, ghost from: nat)
    returns (r: Reply<()>)
    requires w.Valid() && w.moving == None && Roster(w, nodes) && i < |nodes| && from <= |w.log|
    requires forall ks :: ks in opts.keyspaces ==> ks in Migrating(w.c)
    requires Done(w.c, nodes, i, opts.keyspaces, Vnodes)
    requires SeenOnTablets(w.trace, w.log, from, nodes[i].hostId, opts.keyspaces)
    requires forall p :: from <= p < |w.log| ==> !Touches(At(w.log, p))
    modifies w, nodes[i]
    ensures w.Grown(Some(nodes[i].hostId))
    ensures forall p :: |old(w.log)| <= p < |w.log| ==>
              Calm(At(w.log, p)) && About(At(w.log, p), nodes[i].hostId)
    ensures old(Tame(w, nodes)) ==> Aimed(w.log, |old(w.log)|) && (r.Answer? ==> Tame(w, nodes))
    ensures r.Answer? ==>
              && Justified(w.trace, w.log, from, nodes[i].hostId, opts.keyspaces)
              && w.moving == None && w.c.status == old(w.c.status)
              && Done(w.c, nodes, i + 1, opts.keyspaces, Vnodes) && Settled(w.log, from)
  {
    ghost var t0, l0 := w.trace, w.log;
    r := Reload(w, nodes, i, peer, opts, k8s, Vnodes);
    SettledSince(l0, w.log, from);
    SeenStays(t0, l0, w.trace, w.log, from, nodes[i].hostId, opts.keyspaces);
  }

  // Reads before a settled stretch leave it settled.
  lemma SettledSince(l0: seq<Event>, l1: seq<Event>, from: nat)
    requires Extends(l0, l1) && from <= |l0| && forall p :: from <= p < |l0| ==> !Touches(At(l0, p))
    ensures Settled(l1, |l0|) ==> Settled(l1, from)
  {
    forall p | from <= p < |l0| ensures !Touches(At(l1, p)) {
      assert At(l1, p) == At(l0, p);
    }
  }

  // Wait for a node that needs no restart.
  method Stay(w: World, nodes: seq<Node>, i: nat, peer: Node, opts: Opts, ghost from: nat) returns (r: Reply<()>)
    requires w.Valid() && Roster(w, nodes) && i < |nodes| && from <= |w.log|
    requires forall ks :: ks in opts.keyspaces ==> ks in Migrating(w.c)
    requires Done(w.c, nodes, i, opts.keyspaces, Vnodes)
    requires forall p :: from <= p < |w.log| ==> Calm(At(w.log, p)) && !Touches(At(w.log, p))
    modifies w
    ensures w.Only(Reads(nodes[i].hostId)) && w.c.status == old(w.c.status)
    ensures r.Answer? ==> Done(w.c, nodes, i + 1, opts.keyspaces, Vnodes)
    ensures !Restarted(w.log, from, nodes[i].hostId)
    ensures old(!SeenOnTablets(w.trace, w.log, from, nodes[i].hostId, opts.keyspaces)
                && forall ks :: ks in opts.keyspaces ==> AtMode(w.c, nodes[i].hostId, ks, Vnodes)) ==>
              !SeenOnTablets(w.trace, w.log, from, nodes[i].hostId, opts.keyspaces)
  {
    ghost var t0, l0, c0, id := w.trace, w.log, w.c, nodes[i].hostId;
    r := AwaitMode(w, nodes, i, peer, opts, Vnodes);
    ghost var unseen := !SeenOnTablets(t0, l0, from, id, opts.keyspaces)
                        && forall ks :: ks in opts.keyspaces ==> AtMode(c0, id, ks, Vnodes);
    if unseen {
      NeverSeen(t0, l0, w.trace, w.log, from, id, opts.keyspaces);
    }
  }

  // Looks before and after, all at a node that is on vnodes already.
  lemma NeverSeen(t0: seq<State>, l0: seq<Event>, t1: seq<State>, l1: seq<Event>, from: nat,
                  h: HostId, keyspaces: seq<Keyspace>)
    requires Run(t0, l0) && Run(t1, l1) && Extends(t0, t1) && Extends(l0, l1) && from <= |l0|
    requires !SeenOnTablets(t0, l0, from, h, keyspaces)
    requires forall p :: from <= p < |l1| ==> Calm(At(l1, p)) && !At(l1, p).Restart?
    requires forall ks :: ks in keyspaces ==> AtMode(At(t0, |l0|), h, ks, Vnodes)
    ensures !SeenOnTablets(t1, l1, from, h, keyspaces) && !Restarted(l1, from, h)
  {
    assert At(t1, |l0|) == At(t0, |l0|);
    CalmNotSeen(t1, l1, |l0|, h, keyspaces);
    forall p | from <= p < |l1| ensures !OnTabletsAt(At(t1, p), At(l1, p), h, keyspaces) {
      if p < |l0| {
        assert At(t1, p) == At(t0, p) && At(l1, p) == At(l0, p);
      }
    }
  }

  // What the work on one node says about another: nothing.
  ghost predicate OnlyAbout(w: World, from: nat, h: HostId)
    reads w
  {
    forall p :: from <= p < |w.log| ==> About(At(w.log, p), h)
  }

  /** One turn of the rollback: take the mark back, then restart the node if it needs it. */
  method RollbackNode(w: World, nodes: seq<Node>, i: nat, control: Node, opts: Opts, k8s: bool) returns (r: Reply<()>)
    requires w.Valid() && w.moving == None && Roster(w, nodes) && i < |nodes|
    requires forall ks :: ks in opts.keyspaces ==> ks in Migrating(w.c)
    requires Done(w.c, nodes, i, opts.keyspaces, Vnodes)
    modifies w, nodes[i]
    ensures w.Grown(Some(nodes[i].hostId))
    ensures AllNodeWork(w, |old(w.log)|, nodes, opts.keyspaces, Vnodes)
    ensures OnlyAbout(w, |old(w.log)|, nodes[i].hostId)
    ensures old(Tame(w, nodes)) ==> Aimed(w.log, |old(w.log)|) && (r.Answer? ==> Tame(w, nodes))
    ensures old(Tame(w, nodes)) && r.Answer? ==>
              Justified(w.trace, w.log, |old(w.log)|, nodes[i].hostId, opts.keyspaces)
    ensures r.Answer? ==>
              && w.moving == None && w.c.status == old(w.c.status)
              && Done(w.c, nodes, i + 1, opts.keyspaces, Vnodes) && Settled(w.log, |old(w.log)|)
  {
    ghost var id, n, tame := nodes[i].hostId, |w.log|, Tame(w, nodes);
    var peer, marked := TakeMarkBack(w, nodes, i, control, opts.keyspaces);
    if !marked.Answer? {
      return marked;
    }
    ghost var t0, l0 := w.trace, w.log;
    assert Migrating(w.c) == Migrating(old(w.c));
    r := Downgrade(w, nodes, i, peer, opts, k8s);
    assert At(w.trace, |l0|) == At(t0, |l0|);
    CalmWork(w.trace, w.log, |l0|, nodes, i, opts.keyspaces, Vnodes);
    AlsoWork(t0, l0, w.trace, w.log, n, nodes, opts.keyspaces, Vnodes);
    SettledSince(l0, w.log, n);
    JustifiedFrom(w.trace, w.log, n, |l0|, id, opts.keyspaces);
  }

  // pick_control(exclude) or control.
  method PickPeer(w: World, nodes: seq<Node>, i: nat, control: Node, keyspaces: seq<Keyspace>)
    returns (r: Reply<Node>)
    requires w.Valid() && i < |nodes| && Done(w.c, nodes, i, keyspaces, Vnodes)
    modifies w
    ensures w.Only(Idle) && w.c.status == old(w.c.status) && Done(w.c, nodes, i, keyspaces, Vnodes)
  {
    var picked := PickControl(w, nodes, Some(nodes[i].hostId));
    w.Drifts(Idle);
    DoneDrifts(old(w.c), w.c, nodes, i, keyspaces, Vnodes);
    return if picked.Killed? then Killed else Answer(if picked.value.Some? then picked.value.value else control);
  }

  // Set the node's intended mode back to vnodes.
  method TakeMarkBack(w: World, nodes: seq<Node>, i: nat, control: Node, keyspaces: seq<Keyspace>)
    returns (peer: Node, r: Reply<()>)
    requires w.Valid() && Roster(w, nodes) && i < |nodes|
    requires forall ks :: ks in keyspaces ==> ks in Migrating(w.c)
    requires Done(w.c, nodes, i, keyspaces, Vnodes)
    modifies w
    ensures w.Grew() && w.c.status == old(w.c.status)
    ensures AllNodeWork(w, |old(w.log)|, nodes, keyspaces, Vnodes)
    ensures forall p :: |old(w.log)| <= p < |w.log| ==> !At(w.log, p).Inspect? && !Touches(At(w.log, p))
    ensures Done(w.c, nodes, i, keyspaces, Vnodes)
    ensures old(Tame(w, nodes)) ==>
              && Tame(w, nodes) && Aimed(w.log, |old(w.log)|)
              && (r.Answer? ==> w.c.hosts[nodes[i].hostId].intended == Vnodes)
  {
    ghost var tame := Tame(w, nodes);
    var picked := PickPeer(w, nodes, i, control, keyspaces);
    if !picked.Answer? {
      return control, picked.PropagateFailure();
    }
    peer := picked.value;
    assert tame ==> Tame(w, nodes) && Aimed(w.log, |old(w.log)|);
    assert Migrating(w.c) == Migrating(old(w.c));
    r := SetStorageMode(w, nodes, i, keyspaces, Vnodes);
  }

  lemma JustifiedFrom(trace: seq<State>, log: seq<Event>, from: nat, mid: nat, h: HostId, keyspaces: seq<Keyspace>)
    requires |trace| == |log| + 1 && from <= mid <= |log|
    requires forall p :: from <= p < mid ==> !At(log, p).Inspect? && !At(log, p).Restart?
    ensures Justified(trace, log, mid, h, keyspaces) ==> Justified(trace, log, from, h, keyspaces)
  {
    if Restarted(log, from, h) {
      var p :| from <= p < |log| && At(log, p) == Restart(h);
      assert mid <= p;
    }
    if SeenOnTablets(trace, log, from, h, keyspaces) {
      var p :| from <= p < |log| && OnTabletsAt(At(trace, p), At(log, p), h, keyspaces);
      assert mid <= p;
    }
  }

  ghost predicate OnlyVisited(w: World, from: nat, visited: set<HostId>)
    reads w
  {
    forall p :: from <= p < |w.log| ==>
      (At(w.log, p).Inspect? || At(w.log, p).Restart?) ==> At(w.log, p).h in visited
  }

  ghost predicate AllJustified(w: World, from: nat, nodes: seq<Node>, i: nat, keyspaces: seq<Keyspace>)
    requires i <= |nodes|
    reads w
  {
    |w.trace| == |w.log| + 1
    && forall j :: 0 <= j < i ==> Justified(w.trace, w.log, from, nodes[j].hostId, keyspaces)
  }

  // Downgrade every node, one at a time.
  method RollbackAll(w: World, nodes: seq<Node>, control: Node, opts: Opts, k8s: bool) returns (r: Reply<()>)
    requires w.Valid() && w.moving == None && Roster(w, nodes)
    requires forall ks :: ks in opts.keyspaces ==> ks in Migrating(w.c)
    modifies w, nodes
    ensures w.Longer()
    ensures AllNodeWork(w, |old(w.log)|, nodes, opts.keyspaces, Vnodes)
    ensures old(Tame(w, nodes)) ==> Aimed(w.log, |old(w.log)|)
    ensures Sequential(w.log, |old(w.log)|, |w.log|)
    ensures old(Tame(w, nodes)) && r.Answer? ==> AllJustified(w, |old(w.log)|, nodes, |nodes|, opts.keyspaces)
    ensures r.Answer? ==> w.c.status == old(w.c.status) && Done(w.c, nodes, |nodes|, opts.keyspaces, Vnodes)
  {
    ghost var n, tame := |w.log|, Tame(w, nodes);
    ghost var visited: set<HostId> := {};
    for i := 0 to |nodes|
      invariant w.Longer() && w.moving == None && w.c.status == old(w.c.status)
      invariant AllNodeWork(w, n, nodes, opts.keyspaces, Vnodes)
      invariant Sequential(w.log, n, |w.log|) && Settled(w.log, n)
      invariant OnlyVisited(w, n, visited) && forall j :: i <= j < |nodes| ==> nodes[j].hostId !in visited
      invariant tame ==> Aimed(w.log, n) && Tame(w, nodes) && AllJustified(w, n, nodes, i, opts.keyspaces)
      invariant Done(w.c, nodes, i, opts.keyspaces, Vnodes)
    {
      ghost var t0, l0 := w.trace, w.log;
      assert Migrating(w.c) == Migrating(old(w.c));
      r := RollbackNode(w, nodes, i, control, opts, k8s);
      AlsoWork(t0, l0, w.trace, w.log, n, nodes, opts.keyspaces, Vnodes);
      NextIsSequential(l0, w.log, n, nodes[i].hostId);
      if !r.Answer? {
        return;
      }
      if tame {
        OthersJustified(t0, l0, w.trace, w.log, n, nodes, i, opts.keyspaces);
      }
      visited := visited + {nodes[i].hostId};
    }
    return Answer(());
  }

  lemma OthersJustified(t0: seq<State>, l0: seq<Event>, t1: seq<State>, l1: seq<Event>, from: nat,
                        nodes: seq<Node>, i: nat, keyspaces: seq<Keyspace>)
    requires |t0| == |l0| + 1 && |t1| == |l1| + 1 && Extends(t0, t1) && Extends(l0, l1)
    requires i < |nodes| && from <= |l0|
    requires forall j :: 0 <= j < i ==> nodes[j].hostId != nodes[i].hostId
    requires forall j :: 0 <= j < i ==> Justified(t0, l0, from, nodes[j].hostId, keyspaces)
    requires forall p :: from <= p < |l0| ==>
               (At(l0, p).Inspect? || At(l0, p).Restart?) ==> At(l0, p).h != nodes[i].hostId
    requires forall p :: |l0| <= p < |l1| ==> About(At(l1, p), nodes[i].hostId)
    requires Justified(t1, l1, |l0|, nodes[i].hostId, keyspaces)
    ensures forall j :: 0 <= j <= i ==> Justified(t1, l1, from, nodes[j].hostId, keyspaces)
  {
    forall j | 0 <= j < i ensures Justified(t1, l1, from, nodes[j].hostId, keyspaces) {
      VerdictStays(t0, l0, t1, l1, from, nodes[j].hostId, keyspaces);
    }
    var h := nodes[i].hostId;
    if Restarted(l1, from, h) {
      var p :| from <= p < |l1| && At(l1, p) == Restart(h);
      assert p < |l0| ==> At(l1, p) == At(l0, p);
    }
    if SeenOnTablets(t1, l1, from, h, keyspaces) {
      var p :| from <= p < |l1| && OnTabletsAt(At(t1, p), At(l1, p), h, keyspaces);
      assert p < |l0| ==> At(l1, p) == At(l0, p);
    }
  }

  // Once a node intends vnodes it does so until somebody marks it for tablets.
  lemma {:induction false} VnodesIntended(trace: seq<State>, log: seq<Event>, from: nat, until: nat, h: HostId)
    requires Run(trace, log) && from <= until <= |log|
    requires forall p :: from <= p < until ==> !At(log, p).SetMode?
    requires h in trace[from].hosts && trace[from].hosts[h].intended == Vnodes
    ensures h in trace[until].hosts && trace[until].hosts[h].intended == Vnodes
    decreases until
  {
    if from < until {
      var last := until - 1;
      VnodesIntended(trace, log, from, last, h);
      assert Step(trace[last], log[last], trace[last + 1]) && !At(log, last).SetMode?;
    }
  }

  // Only an unfinalized migration can be rolled back.
  method AllUnfinalized(w: World, control: Node, keyspaces: seq<Keyspace>) returns (r: Reply<()>)
    requires w.Valid()
    modifies w
    ensures w.Only(Idle) && Drift(old(w.c), w.c)
    ensures r.Answer? ==> forall ks :: ks in keyspaces ==> ks in Migrating(w.c)
  {
    w.Drifts(Idle);
    for i := 0 to |keyspaces|
      invariant w.Only(Idle) && Drift(old(w.c), w.c)
      invariant forall j :: 0 <= j < i ==> keyspaces[j] in Migrating(w.c)
    {
      var state :- KsState(w, control, keyspaces[i]);
      w.Drifts(Idle);
      if state != MigratingToTablets {
        return Reply.Fatal;
      }
    }
    return Answer(());
  }

  // The checks before the first node is touched.
  method CheckRollback(w: World, control: Node, nodes: seq<Node>, opts: Opts, k8s: bool) returns (r: Reply<()>)
    requires w.Valid()
    modifies w
    ensures w.Only(Idle) && Drift(old(w.c), w.c)
    ensures r.Answer? ==> forall ks :: ks in opts.keyspaces ==> ks in Migrating(w.c)
    ensures r.Answer? && opts.restartByK8s ==> forall i :: 0 <= i < |nodes| ==> nodes[i].pod.Some?
  {
    w.Drifts(Idle);
    var _ :- AllUnfinalized(w, control, opts.keyspaces);
    var capable := CheckRestartCapability(w, nodes, opts, k8s);
    w.Drifts(Idle);
    if !capable.Answer? {
      return capable;
    }
    var agreed := w.Ask();
    w.Drifts(Idle);
    if !agreed.Answer? {
      return agreed.PropagateFailure();
    }
    return if agreed.value then Answer(()) else Reply.Fatal;
  }

  // Every node is unmarked and stores the keyspaces as vnodes, as their status says; the status
  // of no other keyspace has changed.
  ghost predicate RolledBack(before: State, after: State, nodes: seq<Node>, keyspaces: seq<Keyspace>) {
    && OnEvery(after, nodes, keyspaces, Vnodes)
    && (forall j :: 0 <= j < |nodes| ==>
          nodes[j].hostId in after.hosts && after.hosts[nodes[j].hostId].intended == Vnodes)
    && (forall ks :: ks in keyspaces ==> ks in after.status && after.status[ks] == Vnodes)
    && (forall ks :: ks in after.status && ks !in keyspaces ==>
          ks in before.status && after.status[ks] == before.status[ks])
  }

  /** rollback(): downgrade every node in turn, then finalize the keyspaces back to vnodes. */
  method Rollback(w: World, control: Node, nodes: seq<Node>, opts: Opts, k8s: bool) returns (r: Reply<()>)
    requires w.Valid() && w.moving == None && Roster(w, nodes) && nodes != [] && opts.keyspaces != []
    modifies w, nodes
    ensures w.Longer()
    ensures forall p :: |old(w.log)| <= p < |w.log| ==>
              RollbackMove(At(w.trace, p), At(w.log, p), nodes, opts.keyspaces)
    ensures Sequential(w.log, |old(w.log)|, |w.log|)
    ensures old(Tame(w, nodes)) ==> Aimed(w.log, |old(w.log)|)
    ensures old(Tame(w, nodes)) && r.Answer? ==> AllJustified(w, |old(w.log)|, nodes, |nodes|, opts.keyspaces)
    ensures r.Answer? ==> RolledBack(old(w.c), w.c, nodes, opts.keyspaces)
    ensures opts.restartByK8s && (exists i :: 0 <= i < |nodes| && nodes[i].pod.None?) ==>
              forall p :: |old(w.log)| <= p < |w.log| ==> Allowed(Idle, At(w.log, p))
  {
    ghost var n, tame := |w.log|, Tame(w, nodes);
    var checked := CheckRollback(w, control, nodes, opts, k8s);
    assert tame ==> Tame(w, nodes) && Aimed(w.log, n);
    if !checked.Answer? {
      return checked;
    }
    r := CarryOut(w, control, nodes, opts, k8s, n);
  }

  method CarryOut(w: World, control: Node, nodes: seq<Node>, opts: Opts, k8s: bool, ghost from: nat)
    returns (r: Reply<()>)
    requires w.Valid() && w.moving == None && Roster(w, nodes) && nodes != [] && opts.keyspaces != []
    requires forall ks :: ks in opts.keyspaces ==> ks in Migrating(w.c)
    requires from <= |w.log| && forall p :: from <= p < |w.log| ==> Allowed(Idle, At(w.log, p))
    modifies w, nodes
    ensures w.Longer()
    ensures forall p :: |old(w.log)| <= p < |w.log| ==>
              RollbackMove(At(w.trace, p), At(w.log, p), nodes, opts.keyspaces)
    ensures Sequential(w.log, from, |w.log|)
    ensures old(Tame(w, nodes)) ==> Aimed(w.log, |old(w.log)|)
    ensures old(Tame(w, nodes)) && r.Answer? ==> AllJustified(w, from, nodes, |nodes|, opts.keyspaces)
    ensures r.Answer? ==> RolledBack(old(w.c), w.c, nodes, opts.keyspaces)
  {
    ghost var n, tame, l0 := |w.log|, Tame(w, nodes), w.log;
    r := RollbackAll(w, nodes, control, opts, k8s);
    ghost var t1, l1 := w.trace, w.log;
    forall p | from <= p < n ensures !Touches(At(l1, p)) {
      assert At(l1, p) == At(l0, p);
    }
    assert forall p :: n <= p < |w.log| ==> RollbackMove(At(w.trace, p), At(w.log, p), nodes, opts.keyspaces);
    if r.Answer? {
      r := FinalizeBack(w, control, nodes, opts.keyspaces);
    }
    Padded(t1, l1, w.trace, w.log, from, n, nodes, opts.keyspaces);
    if tame && r.Answer? {
      StillJustified(t1, l1, w.trace, w.log, from, n, nodes, opts.keyspaces);
    }
  }

  lemma StillJustified(t0: seq<State>, l0: seq<Event>, t1: seq<State>, l1: seq<Event>, from: nat, mid: nat,
                       nodes: seq<Node>, keyspaces: seq<Keyspace>)
    requires |t0| == |l0| + 1 && |t1| == |l1| + 1 && Extends(t0, t1) && Extends(l0, l1) && from <= mid <= |l0|
    requires forall p :: from <= p < mid ==> Allowed(Idle, At(l1, p))
    requires forall p :: |l0| <= p < |l1| ==> Allowed(Idle, At(l1, p)) || At(l1, p).Finalize?
    requires forall j :: 0 <= j < |nodes| ==> Justified(t0, l0, mid, nodes[j].hostId, keyspaces)
    ensures forall j :: 0 <= j < |nodes| ==> Justified(t1, l1, from, nodes[j].hostId, keyspaces)
  {
    forall j | 0 <= j < |nodes| ensures Justified(t1, l1, from, nodes[j].hostId, keyspaces) {
      VerdictStays(t0, l0, t1, l1, mid, nodes[j].hostId, keyspaces);
      JustifiedFrom(t1, l1, from, mid, nodes[j].hostId, keyspaces);
    }
  }

  method FinalizeBack(w: World, control: Node, nodes: seq<Node>, keyspaces: seq<Keyspace>) returns (r: Reply<()>)
    requires w.Valid() && nodes != [] && keyspaces != [] && Done(w.c, nodes, |nodes|, keyspaces, Vnodes)
    modifies w
    ensures w.Grew()
    ensures forall p :: |old(w.log)| <= p < |w.log| ==>
              FinalMove(At(w.trace, p), At(w.log, p), nodes, keyspaces, Vnodes)
    ensures r.Answer? ==> RolledBack(old(w.c), w.c, nodes, keyspaces)
  {
    ghost var n, t0 := |w.log|, w.trace;
    assert At(t0, n) == w.c;
    DoneIsHeld(w.c, nodes, keyspaces, Vnodes);
    assert keyspaces[0] in keyspaces;
    assert forall j :: 0 <= j < |nodes| ==> AtMode(w.c, nodes[j].hostId, keyspaces[0], Vnodes);
    r := FinalizeAll(w, control, nodes, keyspaces, Vnodes);
    assert At(w.trace, n) == At(t0, n);
    forall j | 0 <= j < |nodes|
      ensures nodes[j].hostId in w.c.hosts && w.c.hosts[nodes[j].hostId].intended == Vnodes
    {
      VnodesIntended(w.trace, w.log, n, |w.log|, nodes[j].hostId);
    }
    assert forall j, ks :: 0 <= j < |nodes| && ks in keyspaces ==> Held(w.c, nodes[j].hostId, ks, Vnodes);
  }
}
