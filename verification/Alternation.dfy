/** Any number of runs in either direction, each begun only where it may. */
module Alternation {
  import opened Options
  import opened Cluster
  import opened NodeOrder
  import opened UpgradeOrder
  import opened RollbackOrder
  import opened Rest
  import opened Convert
  import opened Phases
  import opened Migration
  import opened Operations

  // What a stretch of a run leaves to the next one.
  ghost predicate Kept(w: World, from: nat, order: seq<HostId>)
    reads w
  {
    && |w.log| < |w.trace|
    && Ordinary(w.c, order)
    && (forall p :: from <= p <= |w.log| ==> OnePending(At(w.trace, p)))
    && (forall p :: from <= p < |w.log| && Touches(At(w.log, p)) ==> Touched(At(w.log, p)) in order)
  }

  /** Any number of `migrate` and `rollback` runs, each with any keyspaces and flags and ending
      anywhere, with the environment moving in between.  If each begins only where the status allows it,
      then in every state at most one node would convert on a restart, every call reaches the node it
      is meant for, and a second node is drained or restarted only once the first has returned. */
  method Alternate(w: World, order: seq<HostId>)
    requires w.Valid() && w.moving == None && w.disciplined && Unique(w.c)
    requires Ordinary(w.c, order) && OnePending(w.c)
    modifies w
    ensures w.Longer()
    ensures Aimed(w.log, |old(w.log)|) && AllOneByOne(w.log, |old(w.log)|)
    ensures forall p :: |old(w.log)| <= p <= |w.log| ==> OnePending(At(w.trace, p))
  {
    ghost var n := |w.log|;
    var runs :| 0 <= runs;
    while runs > 0
      invariant w.Longer() && w.disciplined && Unique(w.c)
      invariant Aimed(w.log, n) && AllOneByOne(w.log, n) && Kept(w, n, order)
    {
      ghost var t0, l0 := w.trace, w.log;
      Once(w, order);
      StillOneByOne(l0, w.log, n, order);
      AlsoKept(t0, l0, w, n, order);
      runs := runs - 1;
    }
  }

  lemma AlsoKept(t0: seq<State>, l0: seq<Event>, w: World, from: nat, order: seq<HostId>)
    requires |l0| < |t0| && Extends(t0, w.trace) && Extends(l0, w.log) && from <= |l0|
    requires forall p :: from <= p <= |l0| ==> OnePending(At(t0, p))
    requires forall p :: from <= p < |l0| && Touches(At(l0, p)) ==> Touched(At(l0, p)) in order
    requires Kept(w, |l0|, order)
    ensures Kept(w, from, order)
  {
    forall p | from <= p <= |w.log| ensures OnePending(At(w.trace, p)) {
      assert p <= |l0| ==> At(w.trace, p) == At(t0, p);
    }
    forall p | from <= p < |w.log| && Touches(At(w.log, p)) ensures Touched(At(w.log, p)) in order {
      assert p < |l0| ==> At(w.log, p) == At(l0, p);
    }
  }

  // Some time passes, or one run is made where it may begin.
  method Once(w: World, order: seq<HostId>)
    requires w.Valid() && w.disciplined && Unique(w.c) && Ordinary(w.c, order) && OnePending(w.c)
    modifies w
    ensures w.Longer() && w.disciplined && Unique(w.c) && Aimed(w.log, |old(w.log)|)
    ensures Kept(w, |old(w.log)|, order)
    ensures Sequential(w.log, |old(w.log)|, |w.log|) && HeardFirst(w.log, |old(w.log)|, order)
  {
    ghost var n, t0 := |w.log|, w.trace;
    assert At(t0, n) == w.c;
    var back: bool := *;
    if !back && MayMigrate(w.c, order) {
      RunOnce(w, order);
      assert At(w.trace, n) == At(t0, n);
      UpgradesKept(w, n, order);
    } else if back && MayRollBack(w.c, order) {
      RollBackOnce(w, order);
      assert At(w.trace, n) == At(t0, n);
      DowngradesKept(w, n, order);
    } else {
      w.Interfere();
      assert At(w.trace, n) == At(t0, n);
      IdleKeeps(w, n, order);
      CalmKept(w, n, order);
    }
  }

  lemma UpgradesKept(w: World, from: nat, order: seq<HostId>)
    requires w.Valid() && from <= |w.log| && KeepsOrder(w, from, order)
    requires Ordinary(At(w.trace, from), order) && MayMigrate(At(w.trace, from), order)
    ensures Kept(w, from, order)
  {
    forall p | from <= p <= |w.log| ensures Ordinary(At(w.trace, p), order) && OnePending(At(w.trace, p)) {
      UpgradesKeepOne(w.trace, w.log, order, from, p);
    }
    forall p | from <= p < |w.log| && Touches(At(w.log, p)) ensures Touched(At(w.log, p)) in order {
      assert UpgradeMove(At(w.trace, p), At(w.log, p), order);
    }
  }

  lemma DowngradesKept(w: World, from: nat, order: seq<HostId>)
    requires w.Valid() && from <= |w.log| && KeepsBackOrder(w, from, order)
    requires Ordinary(At(w.trace, from), order) && MayRollBack(At(w.trace, from), order)
    ensures Kept(w, from, order)
  {
    forall p | from <= p <= |w.log| ensures Ordinary(At(w.trace, p), order) && OnePending(At(w.trace, p)) {
      DowngradesKeepOne(w.trace, w.log, order, from, p);
    }
    forall p | from <= p < |w.log| && Touches(At(w.log, p)) ensures Touched(At(w.log, p)) in order {
      assert DowngradeMove(At(w.trace, p), At(w.log, p), order);
    }
  }

  lemma CalmKept(w: World, from: nat, order: seq<HostId>)
    requires w.Valid() && from <= |w.log| && forall p :: from <= p < |w.log| ==> Allowed(Idle, At(w.log, p))
    requires Ordinary(At(w.trace, from), order) && OnePending(At(w.trace, from))
    ensures Kept(w, from, order)
  {
    forall p | from <= p <= |w.log| ensures Ordinary(At(w.trace, p), order) && OnePending(At(w.trace, p)) {
      CalmKeepsOne(w.trace, w.log, order, from, p);
    }
  }

  // Some time passes, or one rollback is made that visits the nodes in this order or refuses.
  method RollBackOnce(w: World, order: seq<HostId>)
    requires w.Valid() && w.disciplined && Unique(w.c) && Listing(order, w.c)
    modifies w
    ensures w.Longer() && w.disciplined && Unique(w.c) && Aimed(w.log, |old(w.log)|)
    ensures KeepsBackOrder(w, |old(w.log)|, order)
    ensures Sequential(w.log, |old(w.log)|, |w.log|) && HeardFirst(w.log, |old(w.log)|, order)
  {
    var opts: Opts := *;
    var found: seq<Info> := *;
    if opts.keyspaces == [] || !DistinctHosts(found) || exists n :: n in found && n.hostId !in w.c.hosts {
      w.Interfere();
      IdleKeeps(w, |old(w.log)|, order);
    } else {
      w.moving := None;  // a pod left behind by the last run has come back
      RollBackIfAdmissible(w, found, opts, order);
    }
  }

  method RollBackIfAdmissible(w: World, found: seq<Info>, opts: Opts, order: seq<HostId>)
    requires w.Valid() && w.disciplined && Unique(w.c) && w.moving == None && opts.keyspaces != []
    requires DistinctHosts(found) && forall n :: n in found ==> n.hostId in w.c.hosts
    modifies w
    ensures w.Longer() && Aimed(w.log, |old(w.log)|)
    ensures KeepsBackOrder(w, |old(w.log)|, order)
    ensures Sequential(w.log, |old(w.log)|, |w.log|) && HeardFirst(w.log, |old(w.log)|, order)
  {
    var k8s: bool := *;
    var addresses: map<HostId, seq<Address>> := *;
    var sorted := SortNodes(found);
    HostsListed(found, sorted, w.c);
    if !Admissible(opts, sorted, order) {
      return;
    }
    var _ := RunRollback(w, found, addresses, opts, k8s, sorted, HostIds(sorted));
    if Refused(opts, sorted) {
      IdleKeeps(w, |old(w.log)|, order);
    }
  }
}
