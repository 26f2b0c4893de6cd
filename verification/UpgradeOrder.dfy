/** Safety of the rolling storage upgrade over whole runs of the cluster: nodes convert
    strictly one after the other, in the order the controller visits them. */
module UpgradeOrder {
  import opened Cluster

  // The stages a node goes through while `migrating` keyspaces are under way.
  predicate Clean(h: Host, migrating: set<Keyspace>) {
    h.intended == Vnodes && h.onTablets !! migrating
  }

  predicate Marked(h: Host, migrating: set<Keyspace>) {
    h.intended == Tablets && h.onTablets !! migrating
  }

  predicate Upgraded(h: Host, migrating: set<Keyspace>) {
    h.intended == Tablets && migrating <= h.onTablets
  }

  // A start of the process would convert this node's storage.
  predicate Pending(h: Host, migrating: set<Keyspace>) {
    Converted(h.onTablets, h.intended, migrating) != h.onTablets
  }

  // `order` names every node of the cluster exactly once.
  ghost predicate Lists(order: seq<HostId>, c: State) {
    && (forall i :: 0 <= i < |order| ==> order[i] in c.hosts)
    && (forall h :: h in c.hosts ==> h in order)
    && (forall i, j :: 0 <= i < j < |order| ==> order[i] != order[j])
  }

  // Nodes before position k have converted, nodes after it are untouched.
  ghost predicate Frontier(c: State, order: seq<HostId>, k: nat)
    requires forall i :: 0 <= i < |order| ==> order[i] in c.hosts
  {
    && k <= |order|
    && (forall j :: 0 <= j < k ==> Upgraded(c.hosts[order[j]], Migrating(c)))
    && (forall j :: k < j < |order| ==> Clean(c.hosts[order[j]], Migrating(c)))
    && (k < |order| ==>
          || Clean(c.hosts[order[k]], Migrating(c))
          || Marked(c.hosts[order[k]], Migrating(c))
          || Upgraded(c.hosts[order[k]], Migrating(c)))
  }

  ghost predicate InOrder(c: State, order: seq<HostId>) {
    && Lists(order, c)
    && (Migrating(c) != {} ==> exists k: nat :: Frontier(c, order, k))
  }

  // A mark is made in turn: every earlier node already stores a migrating keyspace as tablets.
  ghost predicate InTurn(c: State, order: seq<HostId>, h: HostId) {
    exists i :: 0 <= i < |order| && order[i] == h && Reached(c, order, i)
  }

  ghost predicate Reached(c: State, order: seq<HostId>, i: nat) {
    && i <= |order|
    && (forall j :: 0 <= j < i ==> order[j] in c.hosts && c.hosts[order[j]].intended == Tablets)
    && (forall j :: 0 <= j < i ==> Migrating(c) * c.hosts[order[j]].onTablets != {})
  }

  // The only marks are for tablets and in turn, and so are the drains and restarts that the
  // controller asks for; the other events are free.
  ghost predicate UpgradeMove(c: State, e: Event, order: seq<HostId>) {
    && (e.SetMode? ==> e.mode == Tablets && Migrating(c) != {} && InTurn(c, order, e.reached))
    && (Touches(e) ==> Migrating(c) != {} && InTurn(c, order, Touched(e)))
  }

  // The frontier may be taken at any position reached by upgraded nodes.
  lemma FrontierAt(c: State, order: seq<HostId>, i: nat)
    requires InOrder(c, order) && Migrating(c) != {} && Reached(c, order, i) && i < |order|
    ensures exists k: nat :: Frontier(c, order, k) && i <= k
    ensures !Upgraded(c.hosts[order[i]], Migrating(c)) ==> Frontier(c, order, i)
  {
    var k: nat :| Frontier(c, order, k);
    if k < i {
      assert Migrating(c) * c.hosts[order[k]].onTablets != {};
      assert Upgraded(c.hosts[order[k]], Migrating(c));
      assert k + 1 < i ==> Clean(c.hosts[order[k + 1]], Migrating(c));
      assert Frontier(c, order, i);
    }
  }

  lemma MoveKeepsOrder(c: State, e: Event, c': State, order: seq<HostId>)
    requires Coherent(c) && Step(c, e, c') && InOrder(c, order) && UpgradeMove(c, e, order)
    ensures InOrder(c', order)
  {
    if Migrating(c') == {} {
    } else if e.Start? {
      StartIsClean(c, e, c', order);
      assert Frontier(c', order, 0);
    } else if e.SetMode? {
      MarkKeepsOrder(c, e, c', order);
    } else {
      assert Migrating(c') <= Migrating(c);
      var k: nat :| Frontier(c, order, k);
      forall h | h in c.hosts ensures StageKept(c.hosts[h], c'.hosts[h], Migrating(c), Migrating(c')) {
        RestartKeepsStage(c, e, c', h);
      }
      assert Frontier(c', order, k);
    }
  }

  // The stages survive: an untouched or upgraded node stays so, a marked one may convert.
  predicate StageKept(a: Host, b: Host, before: set<Keyspace>, after: set<Keyspace>) {
    && (Clean(a, before) ==> Clean(b, after))
    && (Upgraded(a, before) ==> Upgraded(b, after))
    && (Marked(a, before) ==> Marked(b, after) || Upgraded(b, after))
  }

  lemma RestartKeepsStage(c: State, e: Event, c': State, h: HostId)
    requires Step(c, e, c') && !e.SetMode? && !e.Start? && h in c.hosts && Migrating(c') != {}
    ensures Migrating(c') <= Migrating(c)
    ensures StageKept(c.hosts[h], c'.hosts[h], Migrating(c), Migrating(c'))
  {
    if e.Finalize? {
      assert c'.hosts == c.hosts;
    } else {
      assert Migrating(c') == Migrating(c);
    }
  }

  lemma MarkKeepsOrder(c: State, e: Event, c': State, order: seq<HostId>)
    requires Step(c, e, c') && InOrder(c, order) && UpgradeMove(c, e, order) && e.SetMode?
    ensures InOrder(c', order)
  {
    var i :| 0 <= i < |order| && order[i] == e.reached && Reached(c, order, i);
    FrontierAt(c, order, i);
    if Upgraded(c.hosts[order[i]], Migrating(c)) {
      assert c'.hosts == c.hosts;
    } else {
      MarkAtFrontier(c, c', order, i);
    }
  }

  lemma MarkAtFrontier(c: State, c': State, order: seq<HostId>, i: nat)
    requires Lists(order, c) && i < |order| && Frontier(c, order, i)
    requires !Upgraded(c.hosts[order[i]], Migrating(c))
    requires c' == c.(hosts := c.hosts[order[i] := c.hosts[order[i]].(intended := Tablets)])
    ensures InOrder(c', order)
  {
    assert Migrating(c') == Migrating(c);
    assert Frontier(c', order, i);
  }

  lemma StartIsClean(c: State, e: Event, c': State, order: seq<HostId>)
    requires Coherent(c) && e.Start? && Step(c, e, c') && InOrder(c, order)
    ensures forall j :: 0 <= j < |order| ==> Clean(c'.hosts[order[j]], Migrating(c'))
  {
    assert Migrating(c') == Migrating(c) + {e.ks};
    assert Uniform(c, e.ks, Vnodes);
    if Migrating(c) != {} {
      var k: nat :| Frontier(c, order, k);
      assert forall j :: 0 <= j < |order| ==> Clean(c.hosts[order[j]], Migrating(c));
    }
  }

  /** Over any run of the cluster whose marks are made in turn, with processes stopping and
      starting anywhere in between, the upgrade stays in order in every state. */
  lemma {:induction false} RunKeepsOrder(trace: seq<State>, log: seq<Event>, order: seq<HostId>, from: nat, until: nat)
    requires Run(trace, log) && from <= until <= |log|
    requires Coherent(trace[from]) && InOrder(trace[from], order)
    requires forall p :: from <= p < until ==> UpgradeMove(At(trace, p), At(log, p), order)
    ensures forall p :: from <= p <= until ==> Coherent(At(trace, p)) && InOrder(At(trace, p), order)
    decreases until
  {
    if from < until {
      RunKeepsOrder(trace, log, order, from, until - 1);
      var last := until - 1;
      assert Step(trace[last], log[last], trace[last + 1]);
      assert InOrder(At(trace, last), order) && UpgradeMove(At(trace, last), At(log, last), order);
      StepKeepsCoherent(trace[last], log[last], trace[last + 1]);
      MoveKeepsOrder(trace[last], log[last], trace[last + 1], order);
    }
  }

  // --- Drains and restarts ------------------------------------------------------------------

  // The node at the frontier: all before it are upgraded, all after it untouched.
  ghost predicate AtFrontier(c: State, order: seq<HostId>, h: HostId) {
    Lists(order, c) && Migrating(c) != {} && exists i :: 0 <= i < |order| && order[i] == h && Frontier(c, order, i)
  }

  // At r it is the turn of a node that is not upgraded, and until p nothing is asked for but
  // marks of this node.
  ghost predicate TurnAt(trace: seq<State>, log: seq<Event>, r: nat, p: nat, h: HostId, order: seq<HostId>)
    requires p <= |log| < |trace|
  {
    && r < p
    && Migrating(At(trace, r)) != {} && InTurn(At(trace, r), order, h)
    && h in At(trace, r).hosts && !Upgraded(At(trace, r).hosts[h], Migrating(At(trace, r)))
    && forall q :: r <= q < p ==> OwnMove(At(log, q), h)
  }

  predicate OwnMove(e: Event, h: HostId) { Calm(e) || (e.SetMode? && e.reached == h && e.mode == Tablets) }

  lemma FrontierStep(c: State, e: Event, c': State, order: seq<HostId>, h: HostId)
    requires Step(c, e, c') && OwnMove(e, h) && AtFrontier(c, order, h)
    ensures AtFrontier(c', order, h)
  {
    var i :| 0 <= i < |order| && order[i] == h && Frontier(c, order, i);
    assert Migrating(c') == Migrating(c);
    if e.SetMode? {
      assert forall g :: g in c.hosts && g != h ==> c'.hosts[g] == c.hosts[g];
    } else {
      forall g | g in c.hosts ensures StageKept(c.hosts[g], c'.hosts[g], Migrating(c), Migrating(c')) {
        RestartKeepsStage(c, e, c', g);
      }
    }
    assert Frontier(c', order, i);
  }

  /** From its turn on a node that is not upgraded stays at the frontier, until something else is
      asked for. */
  lemma {:induction false} TurnIsFrontier(trace: seq<State>, log: seq<Event>, r: nat, p: nat, h: HostId, order: seq<HostId>)
    requires Run(trace, log) && p <= |log| && TurnAt(trace, log, r, p, h, order) && InOrder(At(trace, r), order)
    ensures AtFrontier(At(trace, p), order, h)
    decreases p
  {
    var last := p - 1;
    if r < last {
      TurnIsFrontier(trace, log, r, last, h, order);
    } else {
      var i :| 0 <= i < |order| && order[i] == h && Reached(At(trace, r), order, i);
      FrontierAt(At(trace, r), order, i);
      assert AtFrontier(At(trace, r), order, h);
    }
    assert Step(trace[last], log[last], trace[last + 1]);
    assert OwnMove(At(log, last), h);
    FrontierStep(At(trace, last), At(log, last), At(trace, p), order, h);
  }

  // Every drain and restart belongs to a turn.
  ghost predicate Turned(trace: seq<State>, log: seq<Event>, from: nat, order: seq<HostId>)
    requires |log| < |trace|
  {
    forall p :: from <= p < |log| && Touches(At(log, p)) ==>
      exists r :: from <= r < p && TurnAt(trace, log, r, p, Touched(At(log, p)), order)
  }

  /** In a run whose marks, drains and restarts are in turn, every node that is drained or
      restarted is the one at the frontier: no node before it is short of tablets, no node after it
      is marked or on tablets. */
  lemma OnlyFrontierRestarts(trace: seq<State>, log: seq<Event>, order: seq<HostId>, from: nat)
    requires Run(trace, log) && from <= |log|
    requires Coherent(trace[from]) && InOrder(trace[from], order)
    requires forall p :: from <= p < |log| ==> UpgradeMove(At(trace, p), At(log, p), order)
    requires Turned(trace, log, from, order)
    ensures forall p :: from <= p < |log| && Touches(At(log, p)) ==> AtFrontier(At(trace, p), order, Touched(At(log, p)))
  {
    RunKeepsOrder(trace, log, order, from, |log|);
    forall p | from <= p < |log| && Touches(At(log, p)) ensures AtFrontier(At(trace, p), order, Touched(At(log, p))) {
      var r :| from <= r < p && TurnAt(trace, log, r, p, Touched(At(log, p)), order);
      TurnIsFrontier(trace, log, r, p, Touched(At(log, p)), order);
    }
  }

  // In order, no two nodes would convert on a restart: an unexpected one converts at most one.
  lemma OneConvertsAtATime(c: State, order: seq<HostId>, g: HostId, h: HostId)
    requires InOrder(c, order) && g in c.hosts && h in c.hosts
    requires Pending(c.hosts[g], Migrating(c)) && Pending(c.hosts[h], Migrating(c))
    ensures g == h
  {
    NothingToConvert(c.hosts[g]);
    if Migrating(c) != {} {
      var k: nat :| Frontier(c, order, k);
      var i :| 0 <= i < |order| && order[i] == g;
      var j :| 0 <= j < |order| && order[j] == h;
      SettledIsNotPending(c.hosts[g], Migrating(c));
      SettledIsNotPending(c.hosts[h], Migrating(c));
      assert i == k && j == k;
    }
  }

  lemma NothingToConvert(h: Host)
    ensures !Pending(h, {})
  {
    assert h.onTablets + {} == h.onTablets == h.onTablets - {};
  }

  lemma SettledIsNotPending(h: Host, migrating: set<Keyspace>)
    ensures Clean(h, migrating) || Upgraded(h, migrating) ==> !Pending(h, migrating)
  {
    if Clean(h, migrating) {
      assert h.onTablets - migrating == h.onTablets;
    }
  }
}
