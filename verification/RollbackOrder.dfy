/** One conversion at a time where migrations and rollbacks meet: exactly from which states a run
    of either keeps it, and what interrupted runs leave behind. */
module RollbackOrder {
  import opened Options
  import opened Cluster
  import opened Rest
  import opened Convert
  import opened UpgradeOrder
  import opened NodeOrder

  // Every node stores the keyspaces under way as tablets, or none of them.
  ghost predicate Whole(c: State) {
    forall h :: h in c.hosts ==> WholeHost(c.hosts[h], Migrating(c))
  }

  predicate WholeHost(h: Host, migrating: set<Keyspace>) {
    h.onTablets !! migrating || migrating <= h.onTablets
  }

  // Where runs begin, continue and stop.
  ghost predicate Ordinary(c: State, order: seq<HostId>) {
    Coherent(c) && Whole(c) && Lists(order, c)
  }

  predicate AtRest(h: Host, migrating: set<Keyspace>) {
    Clean(h, migrating) || Upgraded(h, migrating)
  }

  lemma PendingUnlessAtRest(h: Host, migrating: set<Keyspace>)
    requires migrating != {} && h.intended != MigratingToTablets
    ensures Pending(h, migrating) <==> !AtRest(h, migrating)
  {
    SettledIsNotPending(h, migrating);
    if h.intended == Tablets && !(migrating <= h.onTablets) {
      var ks :| ks in migrating && ks !in h.onTablets;
      assert ks in Converted(h.onTablets, Tablets, migrating);
    } else if h.intended == Vnodes && !(h.onTablets !! migrating) {
      var ks :| ks in migrating && ks in h.onTablets;
      assert ks !in Converted(h.onTablets, Vnodes, migrating);
    }
  }

  predicate PendingAt(c: State, h: HostId) {
    h in c.hosts && Migrating(c) != {} && !AtRest(c.hosts[h], Migrating(c))
  }

  lemma PendingAtIs(c: State, h: HostId)
    requires Coherent(c) && h in c.hosts
    ensures PendingAt(c, h) <==> Pending(c.hosts[h], Migrating(c))
  {
    if Migrating(c) == {} {
      NothingToConvert(c.hosts[h]);
    } else {
      PendingUnlessAtRest(c.hosts[h], Migrating(c));
    }
  }

  /** Where it is all or nothing, the status of a keyspace under way tells: "migrating to" is
      pending, "uses tablets" upgraded, "uses vnodes" untouched. */
  lemma StatusTells(c: State, ks: Keyspace, h: HostId)
    requires Coherent(c) && Whole(c) && ks in Migrating(c) && h in c.hosts
    ensures var phrase := NodePhrase(ReportOf(c, ks), h);
            && (phrase.MigratingTo? <==> Pending(c.hosts[h], Migrating(c)))
            && (phrase == Uses(Tablets) <==> Upgraded(c.hosts[h], Migrating(c)))
            && (phrase == Uses(Vnodes) <==> Clean(c.hosts[h], Migrating(c)))
  {
    PendingUnlessAtRest(c.hosts[h], Migrating(c));
    assert WholeHost(c.hosts[h], Migrating(c));
  }

  // --- The moves of a rollback ----------------------------------------------------------------

  // A mark is taken back in turn: every earlier node is unmarked and stores a migrating keyspace as
  // vnodes.
  ghost predicate InTurnBack(c: State, order: seq<HostId>, h: HostId) {
    exists i :: 0 <= i < |order| && order[i] == h && ReachedBack(c, order, i)
  }

  ghost predicate ReachedBack(c: State, order: seq<HostId>, i: nat) {
    && i <= |order|
    && (forall j :: 0 <= j < i ==> order[j] in c.hosts && c.hosts[order[j]].intended == Vnodes)
    && (forall j :: 0 <= j < i ==> !(Migrating(c) <= c.hosts[order[j]].onTablets))
  }

  // The only marks are for vnodes and in turn, and so are the drains and restarts; no migration
  // is started.
  ghost predicate DowngradeMove(c: State, e: Event, order: seq<HostId>) {
    && !e.Start?
    && (e.SetMode? ==> e.mode == Vnodes && Migrating(c) != {} && InTurnBack(c, order, e.reached))
    && (Touches(e) ==> Migrating(c) != {} && InTurnBack(c, order, Touched(e)))
  }

  ghost predicate Downgrades(trace: seq<State>, log: seq<Event>, order: seq<HostId>) {
    Run(trace, log) && forall p :: 0 <= p < |log| ==> DowngradeMove(At(trace, p), At(log, p), order)
  }

  ghost predicate Upgrades(trace: seq<State>, log: seq<Event>, order: seq<HostId>) {
    Run(trace, log) && forall p :: 0 <= p < |log| ==> UpgradeMove(At(trace, p), At(log, p), order)
  }

  ghost predicate AlwaysOne(trace: seq<State>) { forall p :: 0 <= p < |trace| ==> OnePending(At(trace, p)) }

  // --- Who may begin --------------------------------------------------------------------------

  // A node that is pending has only nodes before it that are back on vnodes.
  predicate MayRollBack(c: State, order: seq<HostId>)
    requires Lists(order, c)
  {
    forall i, j :: 0 <= j < i < |order| && PendingAt(c, order[i]) ==> Clean(c.hosts[order[j]], Migrating(c))
  }

  // A node that is pending has only upgraded nodes before it, and there is none if a migration
  // could be started.
  predicate MayMigrate(c: State, order: seq<HostId>)
    requires Lists(order, c)
  {
    && (forall i, j :: 0 <= j < i < |order| && PendingAt(c, order[i]) ==> Upgraded(c.hosts[order[j]], Migrating(c)))
    && (Startable(c) ==> forall h :: h in c.hosts ==> !PendingAt(c, h))
  }

  // A keyspace is on vnodes, and the server would accept its migration.
  predicate Startable(c: State) {
    (exists ks :: ks in c.status && c.status[ks] == Vnodes) && forall h :: h in c.hosts ==> c.hosts[h].intended == Vnodes
  }

  // The node is where it was, but for a start of its process.
  lemma StaysAtRest(c: State, e: Event, c': State, h: HostId)
    requires Coherent(c) && Whole(c) && Step(c, e, c') && h in c.hosts && !e.Start? && !(e.SetMode? && e.reached == h)
    ensures Migrating(c') <= Migrating(c)
    ensures Migrating(c') != {} ==>
              (Clean(c.hosts[h], Migrating(c)) ==> Clean(c'.hosts[h], Migrating(c')))
              && (Upgraded(c.hosts[h], Migrating(c)) ==> Upgraded(c'.hosts[h], Migrating(c')))
    ensures PendingAt(c', h) ==> PendingAt(c, h)
    ensures WholeHost(c'.hosts[h], Migrating(c'))
  {
    assert WholeHost(c.hosts[h], Migrating(c));
    if e.Finalize? {
      assert c'.hosts == c.hosts;
    } else {
      assert Migrating(c') == Migrating(c);
    }
  }

  lemma StaysWhole(c: State, e: Event, c': State)
    requires Coherent(c) && Whole(c) && Step(c, e, c') && !e.Start?
    ensures Whole(c')
  {
    forall h | h in c'.hosts ensures WholeHost(c'.hosts[h], Migrating(c')) {
      if e.SetMode? && e.reached == h {
        assert Migrating(c') == Migrating(c) && WholeHost(c.hosts[h], Migrating(c));
      } else {
        StaysAtRest(c, e, c', h);
      }
    }
  }

  lemma StillLists(c: State, e: Event, c': State, order: seq<HostId>)
    requires Step(c, e, c') && Lists(order, c)
    ensures Lists(order, c')
  {
  }

  /** Every step of a rollback, and of the environment, leaves a state from which a rollback may go
      on. */
  lemma DowngradeKeeps(c: State, e: Event, c': State, order: seq<HostId>)
    requires Ordinary(c, order) && MayRollBack(c, order)
    requires Step(c, e, c') && DowngradeMove(c, e, order)
    ensures Ordinary(c', order) && MayRollBack(c', order)
  {
    StepKeepsCoherent(c, e, c');
    StaysWhole(c, e, c');
    StillLists(c, e, c', order);
    forall i, j | 0 <= j < i < |order| && PendingAt(c', order[i]) ensures Clean(c'.hosts[order[j]], Migrating(c')) {
      if e.SetMode? {
        BackInTurn(c, e, c', order, i, j);
      } else {
        StaysAtRest(c, e, c', order[i]);
        StaysAtRest(c, e, c', order[j]);
      }
    }
  }

  lemma BackInTurn(c: State, e: Event, c': State, order: seq<HostId>, i: nat, j: nat)
    requires Ordinary(c, order) && MayRollBack(c, order)
    requires Step(c, e, c') && DowngradeMove(c, e, order) && e.SetMode?
    requires j < i < |order| && PendingAt(c', order[i])
    ensures Clean(c'.hosts[order[j]], Migrating(c'))
  {
    var s :| 0 <= s < |order| && order[s] == e.reached && ReachedBack(c, order, s);
    assert Migrating(c') == Migrating(c);
    assert WholeHost(c.hosts[order[j]], Migrating(c));
    if i != s {
      assert PendingAt(c, order[i]);
    }
  }

  /** Every step of a migrate run, and of the environment, leaves a state from which a migrate run
      may go on. */
  lemma UpgradeKeeps(c: State, e: Event, c': State, order: seq<HostId>)
    requires Ordinary(c, order) && MayMigrate(c, order)
    requires Step(c, e, c') && UpgradeMove(c, e, order)
    ensures Ordinary(c', order) && MayMigrate(c', order)
  {
    StepKeepsCoherent(c, e, c');
    StillLists(c, e, c', order);
    if e.Start? {
      StartKeeps(c, e, c');
    } else {
      StaysWhole(c, e, c');
      NotStartable(c, e, c', order);
      forall i, j | 0 <= j < i < |order| && PendingAt(c', order[i]) ensures Upgraded(c'.hosts[order[j]], Migrating(c')) {
        if e.SetMode? {
          MarkedInTurn(c, e, c', order, i, j);
        } else {
          StaysAtRest(c, e, c', order[i]);
          StaysAtRest(c, e, c', order[j]);
        }
      }
    }
  }

  lemma MarkedInTurn(c: State, e: Event, c': State, order: seq<HostId>, i: nat, j: nat)
    requires Ordinary(c, order) && MayMigrate(c, order)
    requires Step(c, e, c') && UpgradeMove(c, e, order) && e.SetMode?
    requires j < i < |order| && PendingAt(c', order[i])
    ensures Upgraded(c'.hosts[order[j]], Migrating(c'))
  {
    var s :| 0 <= s < |order| && order[s] == e.reached && Reached(c, order, s);
    assert Migrating(c') == Migrating(c);
    assert WholeHost(c.hosts[order[j]], Migrating(c));
    if i != s {
      assert PendingAt(c, order[i]);
    } else {
      assert Migrating(c) * c.hosts[order[j]].onTablets != {};
    }
  }

  lemma StartKeeps(c: State, e: Event, c': State)
    requires Coherent(c) && Step(c, e, c') && e.Start? && forall h :: h in c.hosts ==> !PendingAt(c, h)
    ensures Whole(c') && forall h :: h in c'.hosts ==> Clean(c'.hosts[h], Migrating(c'))
  {
    assert Migrating(c') == Migrating(c) + {e.ks};
    assert Uniform(c, e.ks, Vnodes);
    forall h | h in c'.hosts ensures Clean(c'.hosts[h], Migrating(c')) {
      assert !PendingAt(c, h);
    }
  }

  // No step but a mark makes a migration startable while a node is pending.
  lemma WasStartable(c: State, e: Event, c': State, h: HostId)
    requires Coherent(c) && Whole(c) && Step(c, e, c') && !e.Start? && !e.SetMode?
    requires Startable(c') && h in c.hosts && PendingAt(c', h)
    ensures Startable(c)
  {
    assert WholeHost(c.hosts[h], Migrating(c));
    var ks :| ks in c'.status && c'.status[ks] == Vnodes;
    if e.Finalize? && c' != c {
      assert c'.hosts == c.hosts && c.hosts[h].intended == Vnodes;
      assert Migrating(c) <= c.hosts[h].onTablets;
      assert !Uniform(c, e.ks, Vnodes);
      assert ks != e.ks && c.status[ks] == Vnodes;
    } else {
      assert c'.status == c.status;
      assert forall g :: g in c.hosts ==> c'.hosts[g].intended == c.hosts[g].intended;
    }
  }

  lemma NotStartable(c: State, e: Event, c': State, order: seq<HostId>)
    requires Ordinary(c, order) && MayMigrate(c, order)
    requires Step(c, e, c') && UpgradeMove(c, e, order) && !e.Start?
    ensures Startable(c') ==> forall h :: h in c'.hosts ==> !PendingAt(c', h)
  {
    if e.SetMode? {
      assert c'.hosts[e.reached].intended == Tablets;
    } else {
      forall h | Startable(c') && h in c'.hosts ensures !PendingAt(c', h) {
        StaysAtRest(c, e, c', h);
        if PendingAt(c', h) {
          WasStartable(c, e, c', h);
        }
      }
    }
  }

  lemma MayKeepsOne(c: State, order: seq<HostId>)
    requires Coherent(c) && Lists(order, c) && (MayRollBack(c, order) || MayMigrate(c, order))
    ensures OnePending(c)
  {
    forall g, h | g in c.hosts && h in c.hosts && Pending(c.hosts[g], Migrating(c)) && Pending(c.hosts[h], Migrating(c))
      ensures g == h
    {
      PendingAtIs(c, g);
      PendingAtIs(c, h);
      var i :| 0 <= i < |order| && order[i] == g;
      var j :| 0 <= j < |order| && order[j] == h;
    }
  }

  // --- Exactly when it is kept ----------------------------------------------------------------

  /** Over a whole rollback, or any number of them, that begins where it may. */
  lemma {:induction false} DowngradesKeepOne(trace: seq<State>, log: seq<Event>, order: seq<HostId>, from: nat, until: nat)
    requires Run(trace, log) && from <= until <= |log|
    requires forall p :: from <= p < until ==> DowngradeMove(At(trace, p), At(log, p), order)
    requires Ordinary(trace[from], order) && MayRollBack(trace[from], order)
    ensures Ordinary(trace[until], order) && MayRollBack(trace[until], order) && OnePending(trace[until])
    decreases until
  {
    if from < until {
      var last := until - 1;
      DowngradesKeepOne(trace, log, order, from, last);
      assert Step(trace[last], log[last], trace[last + 1]) && DowngradeMove(At(trace, last), At(log, last), order);
      DowngradeKeeps(trace[last], log[last], trace[until], order);
    }
    MayKeepsOne(trace[until], order);
  }

  /** Over any number of migrate runs, of which the first begins where it may. */
  lemma {:induction false} UpgradesKeepOne(trace: seq<State>, log: seq<Event>, order: seq<HostId>, from: nat, until: nat)
    requires Run(trace, log) && from <= until <= |log|
    requires forall p :: from <= p < until ==> UpgradeMove(At(trace, p), At(log, p), order)
    requires Ordinary(trace[from], order) && MayMigrate(trace[from], order)
    ensures Ordinary(trace[until], order) && MayMigrate(trace[until], order) && OnePending(trace[until])
    decreases until
  {
    if from < until {
      var last := until - 1;
      UpgradesKeepOne(trace, log, order, from, last);
      assert Step(trace[last], log[last], trace[last + 1]) && UpgradeMove(At(trace, last), At(log, last), order);
      UpgradeKeeps(trace[last], log[last], trace[until], order);
    }
    MayKeepsOne(trace[until], order);
  }

  // Calm steps make no node pending.
  lemma {:induction false} CalmKeepsOne(trace: seq<State>, log: seq<Event>, order: seq<HostId>, from: nat, until: nat)
    requires Run(trace, log) && from <= until <= |log| && forall p :: from <= p < until ==> Calm(At(log, p))
    requires Ordinary(trace[from], order) && OnePending(trace[from])
    ensures Ordinary(trace[until], order) && OnePending(trace[until])
    decreases until
  {
    if from < until {
      var last := until - 1;
      CalmKeepsOne(trace, log, order, from, last);
      assert Step(trace[last], log[last], trace[last + 1]) && Calm(At(log, last));
      CalmStepKeepsOne(trace[last], log[last], trace[until], order);
    }
  }

  lemma CalmStepKeepsOne(c: State, e: Event, c': State, order: seq<HostId>)
    requires Ordinary(c, order) && OnePending(c) && Step(c, e, c') && Calm(e)
    ensures Ordinary(c', order) && OnePending(c')
  {
    StepKeepsCoherent(c, e, c');
    StaysWhole(c, e, c');
    StillLists(c, e, c', order);
    forall h | h in c'.hosts ensures Pending(c'.hosts[h], Migrating(c')) ==> Pending(c.hosts[h], Migrating(c)) {
      StaysAtRest(c, e, c', h);
      PendingAtIs(c, h);
      PendingAtIs(c', h);
    }
  }

  // A change of one node's intended mode.
  function Intending(c: State, h: HostId, mode: Word): State
    requires h in c.hosts
  {
    c.(hosts := c.hosts[h := c.hosts[h].(intended := mode)])
  }

  lemma OthersAsBefore(c: State, h: HostId, mode: Word)
    requires h in c.hosts
    ensures var c' := Intending(c, h, mode);
            && Migrating(c') == Migrating(c) && c'.hosts.Keys == c.hosts.Keys
            && (forall g :: g in c.hosts && g != h ==> c'.hosts[g] == c.hosts[g] && (PendingAt(c', g) <==> PendingAt(c, g)))
  {
  }

  lemma TwoPending(c: State, g: HostId, h: HostId)
    requires Coherent(c) && g in c.hosts && h in c.hosts && g != h && PendingAt(c, g) && PendingAt(c, h)
    ensures !OnePending(c)
  {
    PendingAtIs(c, g);
    PendingAtIs(c, h);
  }

  // The first position before i whose node is not clean, or not upgraded.
  lemma {:induction false} FirstNot(ok: set<nat>, i: nat) returns (t: nat)
    requires exists j :: 0 <= j < i && j !in ok
    ensures t < i && t !in ok && forall j :: 0 <= j < t ==> j in ok
  {
    if j :| 0 <= j < i - 1 && j !in ok {
      t := FirstNot(ok, i - 1);
    } else {
      t := i - 1;
    }
  }

  // Taking back the mark of the node at t leaves two pending nodes, or there are two already.
  lemma RollbackBreaksAt(c: State, order: seq<HostId>, t: nat, i: nat) returns (trace: seq<State>, log: seq<Event>)
    requires Ordinary(c, order) && t < i < |order| && PendingAt(c, order[i])
    requires !Clean(c.hosts[order[t]], Migrating(c)) && forall j :: 0 <= j < t ==> Clean(c.hosts[order[j]], Migrating(c))
    ensures Downgrades(trace, log, order) && trace[0] == c && !AlwaysOne(trace)
  {
    var h := order[t];
    assert WholeHost(c.hosts[h], Migrating(c));
    if PendingAt(c, h) {
      TwoPending(c, h, order[i]);
      trace, log := [c], [];
      assert !OnePending(At(trace, 0));
    } else {
      var e, c' := SetMode(h, h, Vnodes), Intending(c, h, Vnodes);
      OthersAsBefore(c, h, Vnodes);
      assert ReachedBack(c, order, t) && DowngradeMove(c, e, order);
      StepKeepsCoherent(c, e, c');
      TwoPending(c', h, order[i]);
      trace, log := OneStep(c, e, c');
      assert !OnePending(At(trace, 1));
    }
  }

  lemma OneStep(c: State, e: Event, c': State) returns (trace: seq<State>, log: seq<Event>)
    requires Step(c, e, c')
    ensures Run(trace, log) && trace == [c, c'] && log == [e]
  {
    trace, log := [c, c'], [e];
  }

  lemma RollbackBreaks(c: State, order: seq<HostId>) returns (trace: seq<State>, log: seq<Event>)
    requires Ordinary(c, order) && !MayRollBack(c, order)
    ensures Downgrades(trace, log, order) && trace[0] == c && !AlwaysOne(trace)
  {
    var i, j :| 0 <= j < i < |order| && PendingAt(c, order[i]) && !Clean(c.hosts[order[j]], Migrating(c));
    var clean := set n: nat | n < i && Clean(c.hosts[order[n]], Migrating(c)) :: n;
    assert j !in clean;
    var t := FirstNot(clean, i);
    forall n | 0 <= n < t ensures Clean(c.hosts[order[n]], Migrating(c)) {
      assert n in clean;
    }
    trace, log := RollbackBreaksAt(c, order, t, i);
  }

  /** A rollback, or any number of them, keeps one conversion at a time exactly if at its start
      every pending node has only clean nodes before it. */
  lemma RollbackKeepsOneIff(c: State, order: seq<HostId>)
    requires Ordinary(c, order)
    ensures (forall trace, log :: Downgrades(trace, log, order) && trace[0] == c ==> AlwaysOne(trace))
            <==> MayRollBack(c, order)
  {
    if MayRollBack(c, order) {
      forall trace, log | Downgrades(trace, log, order) && trace[0] == c ensures AlwaysOne(trace) {
        forall p | 0 <= p < |trace| ensures OnePending(At(trace, p)) {
          DowngradesKeepOne(trace, log, order, 0, p);
        }
      }
    } else {
      var trace, log := RollbackBreaks(c, order);
    }
  }

  // A mark of the node at t leaves two pending nodes.
  lemma MigrateBreaksAt(c: State, order: seq<HostId>, t: nat, i: nat) returns (trace: seq<State>, log: seq<Event>)
    requires Ordinary(c, order) && t < i < |order| && PendingAt(c, order[i])
    requires !Upgraded(c.hosts[order[t]], Migrating(c)) && forall j :: 0 <= j < t ==> Upgraded(c.hosts[order[j]], Migrating(c))
    ensures Upgrades(trace, log, order) && trace[0] == c && !AlwaysOne(trace)
  {
    var h := order[t];
    if PendingAt(c, h) {
      TwoPending(c, h, order[i]);
      trace, log := [c], [];
      assert !OnePending(At(trace, 0));
      return;
    }
    var e, c' := SetMode(h, h, Tablets), Intending(c, h, Tablets);
    OthersAsBefore(c, h, Tablets);
    forall j | 0 <= j < t ensures Migrating(c) * c.hosts[order[j]].onTablets != {} {
      assert Migrating(c) * c.hosts[order[j]].onTablets == Migrating(c);
    }
    assert Reached(c, order, t) && UpgradeMove(c, e, order);
    StepKeepsCoherent(c, e, c');
    TwoPending(c', h, order[i]);
    trace, log := OneStep(c, e, c');
    assert !OnePending(At(trace, 1));
  }

  // The state after the start of a migration.
  function Started(c: State, ks: Keyspace): State { c.(status := c.status[ks := MigratingToTablets]) }

  lemma StartedIs(c: State, ks: Keyspace, h: HostId)
    requires Coherent(c) && ks in c.status && c.status[ks] == Vnodes && h in c.hosts
    ensures Migrating(Started(c, ks)) == Migrating(c) + {ks} && ks !in c.hosts[h].onTablets
  {
    assert Uniform(c, ks, Vnodes);
  }

  // Beside a node that is still to go back to vnodes another keyspace's migration is started.
  lemma StartBreaks(c: State, order: seq<HostId>) returns (trace: seq<State>, log: seq<Event>)
    requires Ordinary(c, order) && |order| >= 2 && Startable(c) && PendingAt(c, order[0])
    ensures Upgrades(trace, log, order) && trace[0] == c && !AlwaysOne(trace)
  {
    var ks :| ks in c.status && c.status[ks] == Vnodes;
    var g, h := order[0], order[1];
    assert g != h;
    var c1 := Started(c, ks);
    StepKeepsCoherent(c, Start(ks), c1);
    StartedIs(c, ks, g);
    StartedIs(c, ks, h);
    assert WholeHost(c.hosts[g], Migrating(c));
    assert Migrating(c) <= c.hosts[g].onTablets && Migrating(c1) * c.hosts[g].onTablets != {};
    var c2, c3 := BothMarked(c1, order, ks);
    trace, log := ThreeSteps(c, c1, c2, c3, Start(ks), SetMode(g, g, Tablets), SetMode(h, h, Tablets), order);
    assert !OnePending(At(trace, 3));
  }

  lemma ThreeSteps(c: State, c1: State, c2: State, c3: State, e1: Event, e2: Event, e3: Event, order: seq<HostId>)
    returns (trace: seq<State>, log: seq<Event>)
    requires Step(c, e1, c1) && UpgradeMove(c, e1, order)
    requires Step(c1, e2, c2) && UpgradeMove(c1, e2, order)
    requires Step(c2, e3, c3) && UpgradeMove(c2, e3, order)
    ensures Upgrades(trace, log, order) && trace == [c, c1, c2, c3]
  {
    trace, log := [c, c1, c2, c3], [e1, e2, e3];
    forall p | 0 <= p < 3 ensures Step(trace[p], log[p], trace[p + 1]) && UpgradeMove(At(trace, p), At(log, p), order) {
    }
  }

  lemma BothMarked(c: State, order: seq<HostId>, ks: Keyspace) returns (c2: State, c3: State)
    requires Coherent(c) && Lists(order, c) && |order| >= 2 && order[0] != order[1] && ks in Migrating(c)
    requires ks !in c.hosts[order[0]].onTablets && ks !in c.hosts[order[1]].onTablets
    requires Migrating(c) * c.hosts[order[0]].onTablets != {}
    ensures var e2, e3 := SetMode(order[0], order[0], Tablets), SetMode(order[1], order[1], Tablets);
            && Step(c, e2, c2) && UpgradeMove(c, e2, order)
            && Step(c2, e3, c3) && UpgradeMove(c2, e3, order) && !OnePending(c3)
  {
    var g, h := order[0], order[1];
    c2 := Intending(c, g, Tablets);
    c3 := Intending(c2, h, Tablets);
    OthersAsBefore(c, g, Tablets);
    OthersAsBefore(c2, h, Tablets);
    assert Reached(c, order, 0) && Reached(c2, order, 1);
    StepKeepsCoherent(c, SetMode(g, g, Tablets), c2);
    StepKeepsCoherent(c2, SetMode(h, h, Tablets), c3);
    TwoPending(c3, g, h);
  }

  lemma MigrateBreaks(c: State, order: seq<HostId>) returns (trace: seq<State>, log: seq<Event>)
    requires Ordinary(c, order) && |order| >= 2 && !MayMigrate(c, order)
    ensures Upgrades(trace, log, order) && trace[0] == c && !AlwaysOne(trace)
  {
    if i, j :| 0 <= j < i < |order| && PendingAt(c, order[i]) && !Upgraded(c.hosts[order[j]], Migrating(c)) {
      var done := set n: nat | n < i && Upgraded(c.hosts[order[n]], Migrating(c)) :: n;
      assert j !in done;
      var t := FirstNot(done, i);
      forall n | 0 <= n < t ensures Upgraded(c.hosts[order[n]], Migrating(c)) {
        assert n in done;
      }
      trace, log := MigrateBreaksAt(c, order, t, i);
    } else {
      var h :| h in c.hosts && PendingAt(c, h);
      var i :| 0 <= i < |order| && order[i] == h;
      assert i > 0 ==> Upgraded(c.hosts[order[0]], Migrating(c));
      trace, log := StartBreaks(c, order);
    }
  }

  lemma Alone(trace: seq<State>, log: seq<Event>, order: seq<HostId>, until: nat)
    requires Run(trace, log) && Lists(order, trace[0]) && |order| < 2 && until < |trace|
    ensures Lists(order, trace[until]) && OnePending(At(trace, until))
    decreases until
  {
    if until > 0 {
      var last := until - 1;
      Alone(trace, log, order, last);
      assert Step(trace[last], log[last], trace[last + 1]);
    }
  }

  /** Any number of migrate runs, with any keyspaces, keep one conversion at a time exactly if at
      their start every pending node has only upgraded nodes before it, and no other migration can
      be started beside a pending node. */
  lemma MigrateKeepsOneIff(c: State, order: seq<HostId>)
    requires Ordinary(c, order)
    ensures (forall trace, log :: Upgrades(trace, log, order) && trace[0] == c ==> AlwaysOne(trace))
            <==> |order| < 2 || MayMigrate(c, order)
  {
    if |order| < 2 {
      forall trace, log | Upgrades(trace, log, order) && trace[0] == c ensures AlwaysOne(trace) {
        forall p | 0 <= p < |trace| ensures OnePending(At(trace, p)) {
          Alone(trace, log, order, p);
        }
      }
    } else if MayMigrate(c, order) {
      forall trace, log | Upgrades(trace, log, order) && trace[0] == c ensures AlwaysOne(trace) {
        forall p | 0 <= p < |trace| ensures OnePending(At(trace, p)) {
          UpgradesKeepOne(trace, log, order, 0, p);
        }
      }
    } else {
      var trace, log := MigrateBreaks(c, order);
    }
  }

  // --- What runs leave behind -----------------------------------------------------------------

  lemma {:induction false} DowngradesLeave(trace: seq<State>, log: seq<Event>, order: seq<HostId>, until: nat)
    requires Downgrades(trace, log, order) && until < |trace|
    requires Ordinary(trace[0], order)
    ensures Ordinary(trace[until], order)
    decreases until
  {
    if until > 0 {
      var last := until - 1;
      DowngradesLeave(trace, log, order, last);
      assert Step(trace[last], log[last], trace[last + 1]) && DowngradeMove(At(trace, last), At(log, last), order);
      StepKeepsCoherent(trace[last], log[last], trace[until]);
      StaysWhole(trace[last], log[last], trace[until]);
    }
  }

  /** After migrate runs alone the next one may always begin. */
  lemma InOrderMayMigrate(c: State, order: seq<HostId>)
    requires Coherent(c) && InOrder(c, order)
    ensures Whole(c) && MayMigrate(c, order)
  {
    if Migrating(c) != {} {
      var k: nat :| Frontier(c, order, k);
      forall h | h in c.hosts ensures WholeHost(c.hosts[h], Migrating(c)) {
        var j :| 0 <= j < |order| && order[j] == h;
      }
      forall h | Startable(c) && h in c.hosts ensures !PendingAt(c, h) {
        var j :| 0 <= j < |order| && order[j] == h;
      }
    }
  }

  /** After migrate runs alone a rollback keeps one conversion at a time exactly if they left no
      node marked but the first. */
  lemma RollbackAfterMigrationIff(c: State, order: seq<HostId>, k: nat)
    requires Coherent(c) && Lists(order, c) && Migrating(c) != {} && Frontier(c, order, k)
    ensures (forall trace, log :: Downgrades(trace, log, order) && trace[0] == c ==> AlwaysOne(trace))
            <==> k == 0 || k == |order| || !Marked(c.hosts[order[k]], Migrating(c))
  {
    InOrderMayMigrate(c, order);
    RollbackKeepsOneIff(c, order);
    if 0 < k < |order| && Marked(c.hosts[order[k]], Migrating(c)) {
      assert PendingAt(c, order[k]) && !Clean(c.hosts[order[0]], Migrating(c));
    }
  }

  /** After migrate runs and a rollback, completed or cut off anywhere, migrate runs keep one
      conversion at a time exactly if the state that the rollback left allows it. */
  lemma MigrateAfterRollbackIff(trace: seq<State>, log: seq<Event>, order: seq<HostId>)
    requires Downgrades(trace, log, order) && Coherent(trace[0]) && InOrder(trace[0], order)
    ensures var c := trace[|log|];
            && Lists(order, c)
            && ((forall t, l :: Upgrades(t, l, order) && t[0] == c ==> AlwaysOne(t)) <==> |order| < 2 || MayMigrate(c, order))
  {
    InOrderMayMigrate(trace[0], order);
    DowngradesLeave(trace, log, order, |log|);
    MigrateKeepsOneIff(trace[|log|], order);
  }

  // --- States from which a migrate run may not go on -------------------------------------------

  // The node's process has started once more, where it was.
  function Booted(c: State, h: HostId): State
    requires h in c.hosts
  {
    c.(hosts := c.hosts[h := c.hosts[h].(up := true,
         onTablets := Converted(c.hosts[h].onTablets, c.hosts[h].intended, Migrating(c)))])
  }

  // One turn of a rollback: the node is clean, and the others are as before.
  lemma OneTurn(c: State, order: seq<HostId>, i: nat)
    requires Ordinary(c, order) && i < |order| && Migrating(c) != {} && ReachedBack(c, order, i)
    ensures var (h, c1) := (order[i], Intending(c, order[i], Vnodes));
            var c2 := Booted(c1, h);
            && Step(c, SetMode(h, h, Vnodes), c1) && DowngradeMove(c, SetMode(h, h, Vnodes), order)
            && Step(c1, Boot(h, c1.hosts[h].addr), c2)
            && c2.hosts.Keys == c.hosts.Keys && Migrating(c2) == Migrating(c) && Clean(c2.hosts[h], Migrating(c2))
            && (forall g :: g in c.hosts && g != h ==> c2.hosts[g] == c.hosts[g])
  {
    OthersAsBefore(c, order[i], Vnodes);
  }

  // One more step of a rollback.
  lemma OneMore(trace: seq<State>, log: seq<Event>, order: seq<HostId>, e: Event, c: State)
    returns (t: seq<State>, l: seq<Event>)
    requires Downgrades(trace, log, order) && Step(trace[|log|], e, c) && DowngradeMove(trace[|log|], e, order)
    ensures Downgrades(t, l, order) && t[0] == trace[0] && |l| == |log| + 1 && t[|l|] == c
    ensures AlwaysOne(trace) && OnePending(c) ==> AlwaysOne(t)
  {
    t, l := trace + [c], log + [e];
    forall p | 0 <= p < |l| ensures Step(t[p], l[p], t[p + 1]) && DowngradeMove(At(t, p), At(l, p), order) {
      if p < |log| {
        assert Step(trace[p], log[p], trace[p + 1]) && DowngradeMove(At(trace, p), At(log, p), order);
      }
    }
    if AlwaysOne(trace) && OnePending(c) {
      forall p | 0 <= p < |t| ensures OnePending(At(t, p)) {
        assert p < |trace| ==> OnePending(At(trace, p));
      }
    }
  }

  // The first step of a rollback, which leaves a state that keeps one conversion at a time.
  lemma FirstStep(c: State, order: seq<HostId>) returns (trace: seq<State>, log: seq<Event>)
    requires Ordinary(c, order) && order != [] && Migrating(c) != {}
    ensures Downgrades(trace, log, order) && trace[0] == c && trace[|log|] == Intending(c, order[0], Vnodes)
    ensures Ordinary(trace[|log|], order)
    ensures MayRollBack(c, order) ==> AlwaysOne(trace) && MayRollBack(trace[|log|], order)
  {
    var e, c1 := SetMode(order[0], order[0], Vnodes), Intending(c, order[0], Vnodes);
    OneTurn(c, order, 0);
    StepKeepsCoherent(c, e, c1);
    StaysWhole(c, e, c1);
    trace, log := OneStep(c, e, c1);
    if MayRollBack(c, order) {
      DowngradeKeeps(c, e, c1, order);
      MayKeepsOne(c, order);
      MayKeepsOne(c1, order);
    }
  }

  // The whole turn of the first node.
  lemma FirstTurn(c: State, order: seq<HostId>) returns (trace: seq<State>, log: seq<Event>)
    requires Ordinary(c, order) && order != [] && Migrating(c) != {}
    ensures Downgrades(trace, log, order) && trace[0] == c && Ordinary(trace[|log|], order)
    ensures var (c2, h) := (trace[|log|], order[0]);
            && Migrating(c2) == Migrating(c) && Clean(c2.hosts[h], Migrating(c2))
            && forall g :: g in c.hosts && g != h ==> c2.hosts[g] == c.hosts[g]
    ensures MayRollBack(c, order) ==> AlwaysOne(trace) && MayRollBack(trace[|log|], order)
  {
    var h := order[0];
    OneTurn(c, order, 0);
    trace, log := FirstStep(c, order);
    var c1 := trace[|log|];
    var e, c2 := Boot(h, c1.hosts[h].addr), Booted(c1, h);
    StepKeepsCoherent(c1, e, c2);
    StaysWhole(c1, e, c2);
    if MayRollBack(c1, order) {
      DowngradeKeeps(c1, e, c2, order);
      MayKeepsOne(c2, order);
    }
    trace, log := OneMore(trace, log, order, e, c2);
  }

  /** A migrate run that is cut off at a marked node, and then a rollback that is cut off once the
      first node is back: no node has to go back any more, and yet the next migrate run would mark
      the first node beside the one that is still marked. */
  lemma LeftoverMark(c: State, order: seq<HostId>, k: nat) returns (trace: seq<State>, log: seq<Event>)
    requires Coherent(c) && Lists(order, c) && Migrating(c) != {} && Frontier(c, order, k)
    requires 0 < k < |order| && Marked(c.hosts[order[k]], Migrating(c))
    ensures Downgrades(trace, log, order) && trace[0] == c && Lists(order, trace[|log|]) && OnePending(trace[|log|])
    ensures forall h :: PendingAt(trace[|log|], h) ==> h == order[k]
    ensures PendingAt(trace[|log|], order[k]) && !MayMigrate(trace[|log|], order)
  {
    InOrderMayMigrate(c, order);
    trace, log := FirstTurn(c, order);
    var c2 := trace[|log|];
    assert order[0] != order[k] && c2.hosts[order[k]] == c.hosts[order[k]];
    forall g | g in c2.hosts && PendingAt(c2, g) ensures g == order[k] {
      var j :| 0 <= j < |order| && order[j] == g;
    }
    OnlyOne(c2, order[k]);
  }

  lemma OnlyOne(c: State, h: HostId)
    requires Coherent(c) && forall g :: g in c.hosts && PendingAt(c, g) ==> g == h
    ensures OnePending(c)
  {
    forall g | g in c.hosts ensures PendingAt(c, g) <==> Pending(c.hosts[g], Migrating(c)) {
      PendingAtIs(c, g);
    }
  }

  /** A rollback that is cut off once it has taken back the second node's mark leaves that node to go
      back to vnodes behind the first one, which is clean and which the next migrate run would mark. */
  lemma InterruptedRollback(c: State, order: seq<HostId>, k: nat) returns (trace: seq<State>, log: seq<Event>)
    requires Coherent(c) && Lists(order, c) && Migrating(c) != {} && Frontier(c, order, k)
    requires 2 <= k && (k < |order| ==> !Marked(c.hosts[order[k]], Migrating(c)))
    ensures Downgrades(trace, log, order) && trace[0] == c && Lists(order, trace[|log|]) && AlwaysOne(trace)
    ensures PendingAt(trace[|log|], order[1]) && !MayMigrate(trace[|log|], order)
  {
    InOrderMayMigrate(c, order);
    assert MayRollBack(c, order);
    trace, log := FirstTurn(c, order);
    var c2, h := trace[|log|], order[1];
    assert h != order[0] && c2.hosts[h] == c.hosts[h];
    trace, log := SecondMark(trace, log, order);
  }

  // The mark of the second node is taken back.
  lemma SecondMark(trace: seq<State>, log: seq<Event>, order: seq<HostId>) returns (t: seq<State>, l: seq<Event>)
    requires Downgrades(trace, log, order) && Ordinary(trace[|log|], order) && Migrating(trace[|log|]) != {}
    requires |order| >= 2 && Clean(trace[|log|].hosts[order[0]], Migrating(trace[|log|]))
    requires Upgraded(trace[|log|].hosts[order[1]], Migrating(trace[|log|]))
    requires MayRollBack(trace[|log|], order) && AlwaysOne(trace)
    ensures Downgrades(t, l, order) && t[0] == trace[0] && AlwaysOne(t) && Lists(order, t[|l|])
    ensures PendingAt(t[|l|], order[1]) && !MayMigrate(t[|l|], order)
  {
    var c2, h := trace[|log|], order[1];
    var e, c3 := SetMode(h, h, Vnodes), Intending(c2, h, Vnodes);
    assert order[0] != h && ReachedBack(c2, order, 1);
    OthersAsBefore(c2, h, Vnodes);
    OneTurn(c2, order, 1);
    DowngradeKeeps(c2, e, c3, order);
    MayKeepsOne(c3, order);
    t, l := OneMore(trace, log, order, e, c3);
    assert PendingAt(c3, order[1]) && !Upgraded(c3.hosts[order[0]], Migrating(c3));
  }

  /** Beside the first node, which is to go back to vnodes, the migration of another keyspace can be
      started: a mark that is cut off, and a run for the first keyspace alone, which skips that node,
      would then make a second one pending. */
  lemma StartBesidePending(c: State, order: seq<HostId>) returns (trace: seq<State>, log: seq<Event>)
    requires Coherent(c) && Lists(order, c) && Migrating(c) != {} && Frontier(c, order, 1) && order != []
    requires |order| > 1 ==> Clean(c.hosts[order[1]], Migrating(c))
    requires exists ks :: ks in c.status && c.status[ks] == Vnodes
    ensures Downgrades(trace, log, order) && trace[0] == c && Lists(order, trace[|log|]) && AlwaysOne(trace)
    ensures forall h :: PendingAt(trace[|log|], h) <==> h == order[0]
    ensures !MayMigrate(trace[|log|], order)
  {
    InOrderMayMigrate(c, order);
    var g := order[0];
    assert MayRollBack(c, order);
    trace, log := FirstStep(c, order);
    var c1 := trace[|log|];
    OthersAsBefore(c, g, Vnodes);
    forall h | h in c1.hosts && h != g ensures Clean(c1.hosts[h], Migrating(c1)) {
      var j :| 0 <= j < |order| && order[j] == h;
    }
    assert Startable(c1) && PendingAt(c1, g);
  }
}
