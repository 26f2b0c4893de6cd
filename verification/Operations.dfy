/** Whole operations: discovering the nodes, then one run of the controller; and what holds
    over any number of runs, each cut off anywhere. */
module Operations {
  import opened Options
  import opened Cluster
  import opened NodeOrder
  import opened UpgradeOrder
  import opened Rest
  import opened Convert
  import opened Phases
  import opened Finalization
  import opened Migration
  import opened Rollback
  import opened RollbackOrder

  // What discovery finds, in any order, of nodes that belong in this order.
  ghost predicate Shuffled(found: seq<Info>, sorted: seq<Info>) {
    DistinctHosts(found) && Ordered(sorted) && multiset(found) == multiset(sorted)
  }

  ghost predicate Listing(order: seq<HostId>, c: State) {
    && (forall i :: 0 <= i < |order| ==> order[i] in c.hosts)
    && (forall i, j :: 0 <= i < j < |order| ==> order[i] != order[j])
  }

  // The node answered with its own host ID.
  ghost predicate Answered(log: seq<Event>, from: nat, until: nat, h: HostId)
    requires until <= |log|
  {
    exists r :: from <= r < until && At(log, r) == Answers(h)
  }

  // Every node whose address is known answered there.
  ghost predicate Heard(log: seq<Event>, from: nat, nodes: seq<Node>)
    reads nodes
  {
    forall i :: 0 <= i < |nodes| && nodes[i].apiHost.Some? ==> Answered(log, from, |log|, nodes[i].hostId)
  }

  lemma StillHeard(l0: seq<Event>, l1: seq<Event>, from: nat, nodes: seq<Node>)
    requires Extends(l0, l1) && Heard(l0, from, nodes)
    ensures Heard(l1, from, nodes)
  {
    forall i | 0 <= i < |nodes| && nodes[i].apiHost.Some? ensures Answered(l1, from, |l1|, nodes[i].hostId) {
      StillAnswered(l0, l1, from, nodes[i].hostId);
    }
  }

  lemma StillAnswered(l0: seq<Event>, l1: seq<Event>, from: nat, h: HostId)
    requires Extends(l0, l1) && Answered(l0, from, |l0|, h)
    ensures Answered(l1, from, |l1|, h)
  {
    var r :| from <= r < |l0| && At(l0, r) == Answers(h);
    assert At(l1, r) == Answers(h);
  }

  // Fresh nodes in the given order, with every resolved address leading to its node, which
  // answered there.
  ghost predicate Found(w: World, nodes: seq<Node>, order: seq<HostId>, from: nat)
    reads w, nodes
  {
    && |nodes| == |order|
    && (forall i :: 0 <= i < |nodes| ==> nodes[i].hostId == order[i])
    && (w.disciplined && w.moving == None ==>
          forall i :: 0 <= i < |nodes| && nodes[i].apiHost.Some? ==> Located(w, nodes[i]))
    && Heard(w.log, from, nodes)
  }

  ghost predicate AllAnswered(log: seq<Event>, from: nat, until: nat, order: seq<HostId>)
    requires until <= |log|
  {
    forall i :: 0 <= i < |order| ==> Answered(log, from, until, order[i])
  }

  method MakeNodes(sorted: seq<Info>, addresses: map<HostId, seq<Address>>) returns (nodes: seq<Node>)
    ensures |nodes| == |sorted| && fresh(nodes)
    ensures forall i :: 0 <= i < |nodes| ==>
              nodes[i].hostId == sorted[i].hostId && nodes[i].pod == sorted[i].pod && nodes[i].apiHost == None
  {
    nodes := [];
    for i := 0 to |sorted|
      invariant |nodes| == i && fresh(nodes)
      invariant forall j :: 0 <= j < i ==>
                  nodes[j].hostId == sorted[j].hostId && nodes[j].pod == sorted[j].pod && nodes[j].apiHost == None
    {
      var id := sorted[i].hostId;
      var node := new Node(id, sorted[i].pod, if id in addresses then addresses[id] else []);
      nodes := nodes + [node];
    }
  }

  // One node's address; that it answered there goes into the log.
  method Resolve(w: World, node: Node) returns (r: Reply<Option<Address>>)
    requires w.Valid()
    modifies w
    ensures w.Only(Idle) && (r.Answer? || r.Killed?)
    ensures r.Answer? && r.value.Some? ==>
              node.hostId in w.c.hosts && w.c.hosts[node.hostId].addr == r.value.value
              && Answered(w.log, |old(w.log)|, |w.log|, node.hostId)
  {
    r := ResolveApiHost(w, node);
    if r.Answer? && r.value.Some? {
      w.Record(Answers(node.hostId), w.c);
    }
  }

  // One pass over the nodes that have no API address yet.
  method ResolveAll(w: World, nodes: seq<Node>, ghost order: seq<HostId>, ghost from: nat) returns (r: Reply<()>)
    requires w.Valid() && Listing(order, w.c) && Found(w, nodes, order, from) && from <= |w.log|
    modifies w, nodes
    ensures w.Only(Idle) && (r.Answer? || r.Killed?)
    ensures Found(w, nodes, order, from)
  {
    for i := 0 to |nodes|
      invariant w.Only(Idle) && Found(w, nodes, order, from)
    {
      if nodes[i].apiHost.None? {
        ghost var l0 := w.log;
        var found := Resolve(w, nodes[i]);
        StillHeard(l0, w.log, from, nodes);
        if found.Killed? {
          return Killed;
        }
        nodes[i].apiHost := found.value;
      }
    }
    return Answer(());
  }

  // What a node that did answer says about the others' addresses.
  method AskForAddresses(w: World, nodes: seq<Node>, ghost order: seq<HostId>, ghost from: nat) returns (r: Reply<()>)
    requires w.Valid() && Listing(order, w.c) && Found(w, nodes, order, from)
    modifies w, nodes
    ensures w.Only(Idle) && (r.Answer? || r.Killed?)
    ensures Found(w, nodes, order, from)
  {
    if resolved :| 0 <= resolved < |nodes| && nodes[resolved].apiHost.Some? {
      ghost var l0 := w.log;
      var entries := w.HostIdMap(nodes[resolved].apiHost.value);
      StillHeard(l0, w.log, from, nodes);
      if entries.Killed? {
        return Killed;
      }
      if entries.Answer? {
        for i := 0 to |entries.value|
          invariant w.Only(Idle) && Found(w, nodes, order, from)
        {
          var (a, id) := entries.value[i];
          if j :| 0 <= j < |nodes| && nodes[j].hostId == id
                  && nodes[j].apiHost.None? && a !in nodes[j].addresses {
            nodes[j].addresses := nodes[j].addresses + [a];
          }
        }
      }
    }
    return Answer(());
  }

  // Both passes; every node's API has to be reachable in the end.
  method LocateAll(w: World, nodes: seq<Node>, ghost order: seq<HostId>, ghost from: nat) returns (r: Reply<()>)
    requires w.Valid() && Listing(order, w.c) && Found(w, nodes, order, from) && from <= |w.log|
    modifies w, nodes
    ensures w.Only(Idle) && Found(w, nodes, order, from)
    ensures r.Answer? ==> forall i :: 0 <= i < |nodes| ==> nodes[i].apiHost.Some?
  {
    var _ :- ResolveAll(w, nodes, order, from);
    if exists i :: 0 <= i < |nodes| && nodes[i].apiHost.None? {
      var _ :- AskForAddresses(w, nodes, order, from);
      var _ :- ResolveAll(w, nodes, order, from);
    }
    return if exists i :: 0 <= i < |nodes| && nodes[i].apiHost.None? then Reply.Fatal else Answer(());
  }

  /** Every node of the cluster in the stable order, with an API address for each, or an error. */
  method Discover(w: World, found: seq<Info>, addresses: map<HostId, seq<Address>>, ghost sorted: seq<Info>)
    returns (r: Reply<seq<Node>>)
    requires w.Valid() && Shuffled(found, sorted) && Listing(HostIds(sorted), w.c)
    modifies w
    ensures w.Only(Idle)
    ensures r.Answer? ==>
              && fresh(r.value) && |r.value| == |sorted| && Roster(w, r.value)
              && (forall i :: 0 <= i < |sorted| ==> r.value[i].hostId == HostIds(sorted)[i])
              && (forall i :: 0 <= i < |sorted| ==> r.value[i].pod == sorted[i].pod)
              && (w.disciplined && w.moving == None && Unique(w.c) ==> Tame(w, r.value))
              && AllAnswered(w.log, |old(w.log)|, |w.log|, HostIds(sorted))
  {
    var inOrder := SortNodes(found);
    OrderIsUnique(inOrder, sorted);
    ghost var order := HostIds(sorted);
    var nodes := MakeNodes(inOrder, addresses);
    var _ :- LocateAll(w, nodes, order, |w.log|);
    return Answer(nodes);
  }

  // Storage of every listed node, for every requested keyspace.
  ghost predicate StoredAs(c: State, order: seq<HostId>, keyspaces: seq<Keyspace>, mode: Word) {
    forall i, ks :: 0 <= i < |order| && ks in keyspaces ==>
      order[i] in c.hosts && CurrentMode(c.hosts[order[i]], ks) == mode
  }

  // Irreversible steps only on uniform storage.
  ghost predicate FinalizedWell(c: State, e: Event, order: seq<HostId>, keyspaces: seq<Keyspace>, mode: Word) {
    e.Finalize? ==> e.ks in keyspaces && StoredAs(c, order, keyspaces, mode)
  }

  // The turn of a node, seen from the order of the nodes.
  lemma TurnIsInOrder(c: State, h: HostId, nodes: seq<Node>, keyspaces: seq<Keyspace>, order: seq<HostId>)
    requires TurnOf(c, h, nodes, keyspaces, Tablets) && keyspaces != []
    requires |nodes| == |order| && forall i :: 0 <= i < |order| ==> nodes[i].hostId == order[i]
    ensures Migrating(c) != {} && InTurn(c, order, h)
  {
    var i :| 0 <= i < |nodes| && nodes[i].hostId == h && Done(c, nodes, i, keyspaces, Tablets);
    var ks := keyspaces[0];
    assert ks in keyspaces;
    forall j | 0 <= j < i
      ensures order[j] in c.hosts && c.hosts[order[j]].intended == Tablets
      ensures Migrating(c) * c.hosts[order[j]].onTablets != {}
    {
      assert AtMode(c, nodes[j].hostId, ks, Tablets);
      assert ks in Migrating(c) * c.hosts[order[j]].onTablets;
    }
    assert Reached(c, order, i);
  }

  /** The moves of a migrate run that reach the node they are meant for keep the upgrade in order. */
  lemma MoveIsInTurn(c: State, e: Event, nodes: seq<Node>, keyspaces: seq<Keyspace>, order: seq<HostId>)
    requires MigrateMove(c, e, nodes, keyspaces) && keyspaces != []
    requires |nodes| == |order| && forall i :: 0 <= i < |order| ==> nodes[i].hostId == order[i]
    ensures FinalizedWell(c, e, order, keyspaces, Tablets)
    ensures Right(e) ==> UpgradeMove(c, e, order)
  {
    if e.SetMode? {
      TurnIsInOrder(c, e.target, nodes, keyspaces, order);
    } else if Touches(e) {
      TurnIsInOrder(c, Touched(e), nodes, keyspaces, order);
    } else if e.Finalize? {
      forall i, ks | 0 <= i < |order| && ks in keyspaces
        ensures order[i] in c.hosts && CurrentMode(c.hosts[order[i]], ks) == Tablets
      {
        assert nodes[i].hostId == order[i];
      }
    }
  }

  // The turns of a run that reaches its nodes, seen from the order of the nodes.
  lemma TurnsInOrder(trace: seq<State>, log: seq<Event>, from: nat, nodes: seq<Node>, keyspaces: seq<Keyspace>, order: seq<HostId>)
    requires |log| < |trace| && TouchedInTurn(trace, log, from, nodes, keyspaces) && Aimed(log, from) && keyspaces != []
    requires |nodes| == |order| && forall i :: 0 <= i < |order| ==> nodes[i].hostId == order[i]
    requires forall p, i :: from <= p < |trace| && 0 <= i < |order| ==> order[i] in At(trace, p).hosts
    ensures Turned(trace, log, from, order)
  {
    forall p | from <= p < |log| && Touches(At(log, p))
      ensures exists r :: from <= r < p && TurnAt(trace, log, r, p, Touched(At(log, p)), order)
    {
      var h := Touched(At(log, p));
      var r :| from <= r < p && TurnFrom(trace, log, r, p, h, nodes, keyspaces);
      TurnIsInOrder(At(trace, r), h, nodes, keyspaces, order);
      ShortIsNotUpgraded(At(trace, r), At(log, r), h, keyspaces);
      forall q | r <= q < p ensures OwnMove(At(log, q), h) {
        assert OwnStep(At(log, q), h) && Right(At(log, q));
      }
      assert TurnAt(trace, log, r, p, h, order);
    }
  }

  lemma ShortIsNotUpgraded(c: State, e: Event, h: HostId, keyspaces: seq<Keyspace>)
    requires ShortAt(c, e, h, keyspaces, Tablets) && h in c.hosts && forall ks :: ks in keyspaces ==> ks in Migrating(c)
    ensures !Upgraded(c.hosts[h], Migrating(c))
  {
  }

  // Steps change no host's name.
  lemma {:induction false} SameHosts(trace: seq<State>, log: seq<Event>, from: nat, until: nat)
    requires Run(trace, log) && from <= until <= |log|
    ensures trace[until].hosts.Keys == trace[from].hosts.Keys
    decreases until
  {
    if from < until {
      var last := until - 1;
      SameHosts(trace, log, from, last);
      assert Step(trace[last], log[last], trace[last + 1]);
    }
  }

  lemma StillListed(trace: seq<State>, log: seq<Event>, from: nat, order: seq<HostId>)
    requires Run(trace, log) && from <= |log| && Listing(order, trace[from])
    ensures forall p, i :: from <= p < |trace| && 0 <= i < |order| ==> order[i] in At(trace, p).hosts
  {
    forall p, i | from <= p < |trace| && 0 <= i < |order| ensures order[i] in At(trace, p).hosts {
      SameHosts(trace, log, from, p);
    }
  }

  // What a run may do to the order: in turn, and only to the node at the frontier.
  ghost predicate KeepsOrder(w: World, from: nat, order: seq<HostId>)
    reads w
  {
    && |w.log| < |w.trace|
    && (forall p :: from <= p < |w.log| ==> UpgradeMove(At(w.trace, p), At(w.log, p), order))
    && Turned(w.trace, w.log, from, order)
  }

  // The controller refuses to begin: pods are to be deleted, and one of them is not known.
  predicate Refused(opts: Opts, sorted: seq<Info>) {
    opts.restartByK8s && exists i :: 0 <= i < |sorted| && sorted[i].pod.None?
  }

  lemma StillAllAnswered(l0: seq<Event>, l1: seq<Event>, from: nat, until: nat, order: seq<HostId>)
    requires Extends(l0, l1) && |l0| <= until <= |l1| && AllAnswered(l0, from, |l0|, order)
    ensures AllAnswered(l1, from, until, order)
  {
    forall i | 0 <= i < |order| ensures Answered(l1, from, until, order[i]) {
      var r :| from <= r < |l0| && At(l0, r) == Answers(order[i]);
      assert At(l1, r) == Answers(order[i]);
    }
  }

  // Nobody is drained or restarted before every node has answered.
  ghost predicate HeardFirst(log: seq<Event>, from: nat, order: seq<HostId>) {
    forall q :: from <= q < |log| && Touches(At(log, q)) ==> AllAnswered(log, from, q, order)
  }

  lemma BegunIsHeard(l0: seq<Event>, l1: seq<Event>, from: nat, order: seq<HostId>)
    requires Extends(l0, l1) && from <= |l0| && AllAnswered(l0, from, |l0|, order)
    requires forall p :: from <= p < |l0| ==> Allowed(Idle, At(l0, p))
    ensures HeardFirst(l1, from, order)
  {
    forall q | from <= q < |l0| ensures !Touches(At(l1, q)) {
      assert At(l1, q) == At(l0, q);
    }
    forall q | |l0| <= q < |l1| ensures AllAnswered(l1, from, q, order) {
      StillAllAnswered(l0, l1, from, q, order);
    }
  }

  // The nodes and a live one among them, or an error.
  method Begin(w: World, found: seq<Info>, addresses: map<HostId, seq<Address>>, ghost sorted: seq<Info>)
    returns (r: Reply<(seq<Node>, Node)>)
    requires w.Valid() && w.moving == None && Shuffled(found, sorted) && Listing(HostIds(sorted), w.c)
    modifies w
    ensures w.Only(Idle)
    ensures r.Answer? ==>
              && fresh(r.value.0) && r.value.0 != [] && |r.value.0| == |sorted| && Roster(w, r.value.0)
              && (forall i :: 0 <= i < |sorted| ==> r.value.0[i].hostId == HostIds(sorted)[i])
              && (forall i :: 0 <= i < |sorted| ==> r.value.0[i].pod == sorted[i].pod)
              && (w.disciplined && Unique(old(w.c)) ==> Tame(w, r.value.0))
              && AllAnswered(w.log, |old(w.log)|, |w.log|, HostIds(sorted))
  {
    ghost var n := |w.log|;
    var nodes :- Discover(w, found, addresses, sorted);
    if nodes == [] {
      return Reply.Fatal;
    }
    ghost var l0 := w.log;
    var control :- PickControl(w, nodes, None);
    StillAllAnswered(l0, w.log, n, |w.log|, HostIds(sorted));
    return if control.None? then Reply.Fatal else Answer((nodes, control.value));
  }

  /** One run of `migrate`, from discovery to wherever it ends. */
  method RunMigrate(w: World, found: seq<Info>, addresses: map<HostId, seq<Address>>, opts: Opts, k8s: bool,
                    ghost sorted: seq<Info>, ghost order: seq<HostId>) returns (r: Reply<()>)
    requires w.Valid() && w.moving == None && Shuffled(found, sorted)
    requires order == HostIds(sorted) && Listing(order, w.c)
    requires opts.keyspaces != []
    modifies w
    ensures w.Longer()
    ensures forall p :: |old(w.log)| <= p < |w.log| ==>
              FinalizedWell(At(w.trace, p), At(w.log, p), order, opts.keyspaces, Tablets)
    ensures Sequential(w.log, |old(w.log)|, |w.log|) && HeardFirst(w.log, |old(w.log)|, order)
    ensures w.disciplined && old(Unique(w.c)) ==>
              Aimed(w.log, |old(w.log)|) && KeepsOrder(w, |old(w.log)|, order)
    ensures Refused(opts, sorted) ==> forall p :: |old(w.log)| <= p < |w.log| ==> Allowed(Idle, At(w.log, p))
  {
    ghost var n, t0 := |w.log|, w.trace;
    ghost var tame := w.disciplined && Unique(w.c);
    assert At(t0, n) == w.c;
    var begun :- Begin(w, found, addresses, sorted);
    ghost var l1, t1 := w.log, w.trace;
    r := Migrate(w, begun.1, begun.0, opts, k8s);
    assert At(w.trace, n) == At(t0, n);
    StillListed(w.trace, w.log, n, order);
    Summarize(t1, l1, w.trace, w.log, n, begun.0, opts.keyspaces, order, tame);
    OnlyIdle(l1, w.log, n);
    BegunIsHeard(l1, w.log, n, order);
  }

  lemma OnlyIdle(l0: seq<Event>, l1: seq<Event>, from: nat)
    requires Extends(l0, l1) && from <= |l0| && forall p :: from <= p < |l0| ==> Allowed(Idle, At(l0, p))
    ensures (forall p :: |l0| <= p < |l1| ==> Allowed(Idle, At(l1, p))) ==> forall p :: from <= p < |l1| ==> Allowed(Idle, At(l1, p))
  {
    forall p | from <= p < |l0| ensures Allowed(Idle, At(l1, p)) {
      assert At(l1, p) == At(l0, p);
    }
  }

  lemma Summarize(t1: seq<State>, l1: seq<Event>, trace: seq<State>, log: seq<Event>, from: nat,
                  nodes: seq<Node>, keyspaces: seq<Keyspace>, order: seq<HostId>, tame: bool)
    requires Extends(l1, log) && Extends(t1, trace) && |trace| == |log| + 1 && |t1| == |l1| + 1 && from <= |l1|
    requires forall p :: from <= p < |l1| ==> Allowed(Idle, At(l1, p))
    requires forall p :: |l1| <= p < |log| ==> MigrateMove(At(trace, p), At(log, p), nodes, keyspaces)
    requires TouchedInTurn(trace, log, |l1|, nodes, keyspaces) && Sequential(log, |l1|, |log|)
    requires tame ==> Aimed(log, |l1|)
    requires keyspaces != [] && |nodes| == |order| && forall i :: 0 <= i < |order| ==> nodes[i].hostId == order[i]
    requires forall p, i :: from <= p < |trace| && 0 <= i < |order| ==> order[i] in At(trace, p).hosts
    ensures forall p :: from <= p < |log| ==> FinalizedWell(At(trace, p), At(log, p), order, keyspaces, Tablets)
    ensures Sequential(log, from, |log|)
    ensures tame ==> Aimed(log, from) && Turned(trace, log, from, order)
    ensures tame ==> forall p :: from <= p < |log| ==> UpgradeMove(At(trace, p), At(log, p), order)
  {
    forall p | from <= p < |l1| ensures Allowed(Idle, At(log, p)) {
      assert At(log, p) == At(l1, p);
    }
    Padded(trace, log, trace, log, from, |l1|, nodes, keyspaces);
    forall p | from <= p < |log|
      ensures FinalizedWell(At(trace, p), At(log, p), order, keyspaces, Tablets)
      ensures tame ==> Right(At(log, p)) && UpgradeMove(At(trace, p), At(log, p), order)
    {
      if p >= |l1| {
        MoveIsInTurn(At(trace, p), At(log, p), nodes, keyspaces, order);
      }
    }
    if tame {
      TurnsInOrder(trace, log, from, nodes, keyspaces, order);
    }
  }

  // What a rollback may do to the order.
  ghost predicate KeepsBackOrder(w: World, from: nat, order: seq<HostId>)
    reads w
  {
    |w.log| < |w.trace| && forall p :: from <= p < |w.log| ==> DowngradeMove(At(w.trace, p), At(w.log, p), order)
  }

  // The turn of a node on the way back, seen from the order of the nodes.
  lemma TurnIsBackInOrder(c: State, h: HostId, nodes: seq<Node>, keyspaces: seq<Keyspace>, order: seq<HostId>)
    requires TurnOf(c, h, nodes, keyspaces, Vnodes) && keyspaces != []
    requires |nodes| == |order| && forall i :: 0 <= i < |order| ==> nodes[i].hostId == order[i]
    ensures Migrating(c) != {} && InTurnBack(c, order, h)
  {
    var i :| 0 <= i < |nodes| && nodes[i].hostId == h && Done(c, nodes, i, keyspaces, Vnodes);
    var ks := keyspaces[0];
    assert ks in keyspaces && ks in Migrating(c);
    forall j | 0 <= j < i
      ensures order[j] in c.hosts && c.hosts[order[j]].intended == Vnodes
      ensures !(Migrating(c) <= c.hosts[order[j]].onTablets)
    {
      assert AtMode(c, nodes[j].hostId, ks, Vnodes);
    }
    assert ReachedBack(c, order, i);
  }

  /** The moves of a rollback that reach the node they are meant for take the nodes back in turn. */
  lemma MoveIsBackInTurn(c: State, e: Event, nodes: seq<Node>, keyspaces: seq<Keyspace>, order: seq<HostId>)
    requires RollbackMove(c, e, nodes, keyspaces) && keyspaces != []
    requires |nodes| == |order| && forall i :: 0 <= i < |order| ==> nodes[i].hostId == order[i]
    ensures FinalizedWell(c, e, order, keyspaces, Vnodes)
    ensures Right(e) ==> DowngradeMove(c, e, order)
  {
    if e.SetMode? {
      TurnIsBackInOrder(c, e.target, nodes, keyspaces, order);
    } else if Touches(e) {
      TurnIsBackInOrder(c, Touched(e), nodes, keyspaces, order);
    } else if e.Finalize? {
      forall i, ks | 0 <= i < |order| && ks in keyspaces
        ensures order[i] in c.hosts && CurrentMode(c.hosts[order[i]], ks) == Vnodes
      {
        assert nodes[i].hostId == order[i];
      }
    }
  }

  /** One run of `rollback`, from discovery to wherever it ends. */
  method RunRollback(w: World, found: seq<Info>, addresses: map<HostId, seq<Address>>, opts: Opts, k8s: bool,
                     ghost sorted: seq<Info>, ghost order: seq<HostId>) returns (r: Reply<()>)
    requires w.Valid() && w.moving == None && Shuffled(found, sorted)
    requires order == HostIds(sorted) && Listing(order, w.c)
    requires opts.keyspaces != []
    modifies w
    ensures w.Longer()
    ensures forall p :: |old(w.log)| <= p < |w.log| ==>
              FinalizedWell(At(w.trace, p), At(w.log, p), order, opts.keyspaces, Vnodes)
    ensures Sequential(w.log, |old(w.log)|, |w.log|) && HeardFirst(w.log, |old(w.log)|, order)
    ensures w.disciplined && old(Unique(w.c)) ==> Aimed(w.log, |old(w.log)|) && KeepsBackOrder(w, |old(w.log)|, order)
    ensures r.Answer? ==>
              StoredAs(w.c, order, opts.keyspaces, Vnodes)
              && forall ks :: ks in opts.keyspaces ==> ks in w.c.status && w.c.status[ks] == Vnodes
    ensures Refused(opts, sorted) ==> forall p :: |old(w.log)| <= p < |w.log| ==> Allowed(Idle, At(w.log, p))
  {
    ghost var n, tame := |w.log|, w.disciplined && Unique(w.c);
    var begun :- Begin(w, found, addresses, sorted);
    ghost var l1, t1 := w.log, w.trace;
    r := Rollback.Rollback(w, begun.1, begun.0, opts, k8s);
    SummarizeRollback(t1, l1, w.trace, w.log, n, begun.0, opts.keyspaces, order, tame);
    OnlyIdle(l1, w.log, n);
    BegunIsHeard(l1, w.log, n, order);
    if r.Answer? {
      OnEveryInOrder(w.c, begun.0, opts.keyspaces, order);
    }
  }

  lemma OnEveryInOrder(c: State, nodes: seq<Node>, keyspaces: seq<Keyspace>, order: seq<HostId>)
    requires OnEvery(c, nodes, keyspaces, Vnodes)
    requires |nodes| == |order| && forall i :: 0 <= i < |order| ==> nodes[i].hostId == order[i]
    ensures StoredAs(c, order, keyspaces, Vnodes)
  {
    forall i, ks | 0 <= i < |order| && ks in keyspaces
      ensures order[i] in c.hosts && CurrentMode(c.hosts[order[i]], ks) == Vnodes
    {
      assert nodes[i].hostId == order[i];
    }
  }

  lemma SummarizeRollback(t1: seq<State>, l1: seq<Event>, trace: seq<State>, log: seq<Event>, from: nat,
                          nodes: seq<Node>, keyspaces: seq<Keyspace>, order: seq<HostId>, tame: bool)
    requires Extends(l1, log) && Extends(t1, trace) && |trace| == |log| + 1 && |t1| == |l1| + 1 && from <= |l1|
    requires forall p :: from <= p < |l1| ==> Allowed(Idle, At(l1, p))
    requires forall p :: |l1| <= p < |log| ==> RollbackMove(At(trace, p), At(log, p), nodes, keyspaces)
    requires Sequential(log, |l1|, |log|) && (tame ==> Aimed(log, |l1|))
    requires keyspaces != [] && |nodes| == |order| && forall i :: 0 <= i < |order| ==> nodes[i].hostId == order[i]
    ensures forall p :: from <= p < |log| ==> FinalizedWell(At(trace, p), At(log, p), order, keyspaces, Vnodes)
    ensures Sequential(log, from, |log|)
    ensures tame ==> Aimed(log, from) && forall p :: from <= p < |log| ==> DowngradeMove(At(trace, p), At(log, p), order)
  {
    forall p | from <= p < |l1| ensures Allowed(Idle, At(log, p)) {
      assert At(log, p) == At(l1, p);
    }
    Padded(trace, log, trace, log, from, |l1|, nodes, keyspaces);
    forall p | from <= p < |log|
      ensures FinalizedWell(At(trace, p), At(log, p), order, keyspaces, Vnodes)
      ensures tame ==> Right(At(log, p)) && DowngradeMove(At(trace, p), At(log, p), order)
    {
      if p >= |l1| {
        MoveIsBackInTurn(At(trace, p), At(log, p), nodes, keyspaces, order);
      }
    }
  }

  // --- Any number of runs -------------------------------------------------------------------

  /** A run may take part in a migration over several runs if it visits the nodes in the same
      order, or refuses to begin. */
  predicate Admissible(opts: Opts, sorted: seq<Info>, order: seq<HostId>) {
    HostIds(sorted) == order || Refused(opts, sorted)
  }

  /** Of the runs after a run that visited the nodes in a certain order, those are admissible that
      see the same pods, and those that have pods deleted even if they do not. */
  lemma WhichRunsAreAdmissible(before: seq<Info>, hidden: set<HostId>, sorted: seq<Info>, opts: Opts)
    requires Ordered(before) && Ordered(sorted) && multiset(sorted) == multiset(Forgetting(before, hidden))
    requires opts.restartByK8s || forall n :: n in before ==> n.hostId !in hidden
    ensures Admissible(opts, sorted, HostIds(before))
  {
    var found := Forgetting(before, hidden);
    if n :| n in before && n.hostId in hidden {
      var i :| 0 <= i < |before| && before[i] == n;
      assert found[i] in multiset(sorted);
      var k :| 0 <= k < |sorted| && sorted[k] == found[i];
      assert sorted[k].pod.None?;
    } else {
      forall i | 0 <= i < |before| ensures found[i] == before[i] {
        assert before[i] in before;
      }
      assert found == before;
      OrderIsUnique(sorted, before);
    }
  }

  lemma StillTurned(t0: seq<State>, l0: seq<Event>, t1: seq<State>, l1: seq<Event>, from: nat, order: seq<HostId>)
    requires |l0| < |t0| && |l1| < |t1| && Extends(t0, t1) && Extends(l0, l1) && from <= |l0|
    requires Turned(t0, l0, from, order) && Turned(t1, l1, |l0|, order)
    ensures Turned(t1, l1, from, order)
  {
    forall p | from <= p < |l1| && Touches(At(l1, p))
      ensures exists r :: from <= r < p && TurnAt(t1, l1, r, p, Touched(At(l1, p)), order)
    {
      if p < |l0| {
        assert At(l1, p) == At(l0, p);
        var h := Touched(At(l0, p));
        var r :| from <= r < p && TurnAt(t0, l0, r, p, h, order);
        assert At(t1, r) == At(t0, r);
        forall q | r <= q < p ensures OwnMove(At(l1, q), h) {
          assert At(l1, q) == At(l0, q);
        }
        assert TurnAt(t1, l1, r, p, h, order);
      } else {
        var r :| |l0| <= r < p && TurnAt(t1, l1, r, p, Touched(At(l1, p)), order);
      }
    }
  }

  lemma StillKept(t0: seq<State>, l0: seq<Event>, w: World, from: nat, order: seq<HostId>)
    requires |l0| < |t0| && |w.log| < |w.trace| && Extends(t0, w.trace) && Extends(l0, w.log) && from <= |l0|
    requires forall p :: from <= p < |l0| ==> UpgradeMove(At(t0, p), At(l0, p), order)
    requires Turned(t0, l0, from, order) && KeepsOrder(w, |l0|, order)
    ensures KeepsOrder(w, from, order)
  {
    StillTurned(t0, l0, w.trace, w.log, from, order);
    forall p | from <= p < |w.log| ensures UpgradeMove(At(w.trace, p), At(w.log, p), order) {
      assert p < |l0| ==> At(w.trace, p) == At(t0, p) && At(w.log, p) == At(l0, p);
    }
  }

  // The runs, by where each begins and ends: in each one node at a time is drained or restarted.
  ghost predicate Runs(log: seq<Event>, bounds: seq<nat>) {
    && bounds != [] && bounds[|bounds| - 1] <= |log|
    && (forall k :: 0 <= k < |bounds| - 1 ==> OneRun(log, bounds, k))
  }

  ghost predicate OneRun(log: seq<Event>, bounds: seq<nat>, k: nat)
    requires k + 1 < |bounds|
  {
    bounds[k] <= bounds[k + 1] <= |log| && Sequential(log, bounds[k], bounds[k + 1])
  }

  lemma SequentialStays(l0: seq<Event>, l1: seq<Event>, a: nat, b: nat)
    requires Extends(l0, l1) && a <= b <= |l0| && Sequential(l0, a, b)
    ensures Sequential(l1, a, b)
  {
    forall p, q | a <= p < q < b && Touches(At(l1, p)) && Touches(At(l1, q)) && Touched(At(l1, p)) != Touched(At(l1, q))
      ensures BackBetween(l1, p, q, Touched(At(l1, p)))
    {
      assert At(l1, p) == At(l0, p) && At(l1, q) == At(l0, q) && Waits(l0, p, q);
      var r :| p < r < q && At(l0, r).Back? && At(l0, r).h == Touched(At(l0, p));
      assert At(l1, r) == At(l0, r);
    }
  }

  lemma OneMoreRun(l0: seq<Event>, l1: seq<Event>, bounds: seq<nat>)
    requires Runs(l0, bounds) && bounds[|bounds| - 1] == |l0| && Extends(l0, l1) && Sequential(l1, |l0|, |l1|)
    ensures Runs(l1, bounds + [|l1|])
  {
    var after := bounds + [|l1|];
    forall k | 0 <= k < |after| - 1 ensures OneRun(l1, after, k) {
      if k < |bounds| - 1 {
        assert OneRun(l0, bounds, k);
        SequentialStays(l0, l1, bounds[k], bounds[k + 1]);
      }
    }
  }

  // The node answered a discovery, or was found to be back.
  ghost predicate Returned(log: seq<Event>, p: nat, q: nat, h: HostId)
    requires q <= |log|
  {
    exists r :: p < r < q && (At(log, r) == Answers(h) || (At(log, r).Back? && At(log, r).h == h))
  }

  ghost predicate OneByOne(log: seq<Event>, p: nat, q: nat)
    requires p < q < |log|
  {
    Touches(At(log, p)) && Touches(At(log, q)) && Touched(At(log, p)) != Touched(At(log, q)) ==>
      Returned(log, p, q, Touched(At(log, p)))
  }

  /** In one run or in two, a second node is drained or restarted only after the first has
      returned. */
  ghost predicate AllOneByOne(log: seq<Event>, from: nat) {
    forall p, q :: from <= p < q < |log| ==> OneByOne(log, p, q)
  }

  lemma StillOneByOne(l0: seq<Event>, l1: seq<Event>, from: nat, order: seq<HostId>)
    requires Extends(l0, l1) && from <= |l0| && AllOneByOne(l0, from)
    requires Sequential(l1, |l0|, |l1|) && HeardFirst(l1, |l0|, order)
    requires forall p :: from <= p < |l0| && Touches(At(l0, p)) ==> Touched(At(l0, p)) in order
    ensures AllOneByOne(l1, from)
  {
    forall p, q | from <= p < q < |l1| ensures OneByOne(l1, p, q) {
      if q < |l0| {
        SameOneByOne(l0, l1, p, q);
      } else if p < |l0| {
        assert At(l1, p) == At(l0, p);
        HeardBetween(l1, |l0|, order, p, q);
      } else {
        assert Waits(l1, p, q);
      }
    }
  }

  lemma SameOneByOne(l0: seq<Event>, l1: seq<Event>, p: nat, q: nat)
    requires Extends(l0, l1) && p < q < |l0| && OneByOne(l0, p, q)
    ensures OneByOne(l1, p, q)
  {
    assert At(l1, p) == At(l0, p) && At(l1, q) == At(l0, q);
    if Touches(At(l0, p)) && Touches(At(l0, q)) && Touched(At(l0, p)) != Touched(At(l0, q)) {
      var h := Touched(At(l0, p));
      var r :| p < r < q && (At(l0, r) == Answers(h) || (At(l0, r).Back? && At(l0, r).h == h));
      assert At(l1, r) == At(l0, r);
    }
  }

  lemma HeardBetween(log: seq<Event>, from: nat, order: seq<HostId>, p: nat, q: nat)
    requires HeardFirst(log, from, order) && p < from <= q < |log|
    requires Touches(At(log, p)) ==> Touched(At(log, p)) in order
    ensures OneByOne(log, p, q)
  {
    if Touches(At(log, p)) && Touches(At(log, q)) {
      var i :| 0 <= i < |order| && order[i] == Touched(At(log, p));
      assert Answered(log, from, q, order[i]);
    }
  }

  /** Any number of `migrate` runs with any keyspaces and flags, each ending anywhere, with
      the environment moving in between: in every state the cluster goes through, at most
      one node would convert on a restart, and it is the one whose turn it is; every node that is
      drained or restarted is the one at the frontier; a second node is drained or restarted only
      once the first has returned, in the same run only once it was found to be back. */
  method Operate(w: World, order: seq<HostId>) returns (ghost bounds: seq<nat>)
    requires w.Valid() && w.moving == None && w.disciplined && Unique(w.c)
    requires Coherent(w.c) && InOrder(w.c, order)
    modifies w
    ensures w.Longer()
    ensures Aimed(w.log, |old(w.log)|)
    ensures forall p :: |old(w.log)| <= p <= |w.log| ==> InOrder(At(w.trace, p), order)
    ensures forall p :: |old(w.log)| <= p < |w.log| && Touches(At(w.log, p)) ==>
              AtFrontier(At(w.trace, p), order, Touched(At(w.log, p)))
    ensures Runs(w.log, bounds) && bounds[0] == |old(w.log)| && bounds[|bounds| - 1] == |w.log|
    ensures AllOneByOne(w.log, |old(w.log)|)
  {
    ghost var n, t0 := |w.log|, w.trace;
    bounds := [n];
    var runs :| 0 <= runs;
    while runs > 0
      invariant w.Longer() && w.disciplined && Unique(w.c) && Aimed(w.log, n)
      invariant KeepsOrder(w, n, order) && AllOneByOne(w.log, n)
      invariant Runs(w.log, bounds) && bounds[0] == n && bounds[|bounds| - 1] == |w.log|
    {
      ghost var t1, l1 := w.trace, w.log;
      RunOnce(w, order);
      StillOneByOne(l1, w.log, n, order);
      StillKept(t1, l1, w, n, order);
      OneMoreRun(l1, w.log, bounds);
      bounds := bounds + [|w.log|];
      runs := runs - 1;
    }
    assert At(w.trace, n) == At(t0, n) == old(w.c);
    RunKeepsOrder(w.trace, w.log, order, n, |w.log|);
    OnlyFrontierRestarts(w.trace, w.log, order, n);
  }

  // Some time passes, or one admissible run is made.
  method RunOnce(w: World, order: seq<HostId>)
    requires w.Valid() && w.disciplined && Unique(w.c) && Listing(order, w.c)
    modifies w
    ensures w.Longer() && w.disciplined && Unique(w.c) && Aimed(w.log, |old(w.log)|)
    ensures KeepsOrder(w, |old(w.log)|, order)
    ensures Sequential(w.log, |old(w.log)|, |w.log|) && HeardFirst(w.log, |old(w.log)|, order)
  {
    var opts: Opts := *;
    var found: seq<Info> := *;
    if opts.keyspaces == [] || !DistinctHosts(found) || exists n :: n in found && n.hostId !in w.c.hosts {
      w.Interfere();
      IdleKeeps(w, |old(w.log)|, order);
    } else {
      w.moving := None;  // a pod left behind by the last run has come back
      RunIfAdmissible(w, found, opts, order);
    }
  }

  lemma IdleKeeps(w: World, from: nat, order: seq<HostId>)
    requires w.Valid() && forall p :: from <= p < |w.log| ==> Allowed(Idle, At(w.log, p))
    ensures KeepsOrder(w, from, order) && Aimed(w.log, from) && (from <= |w.log| ==> Sequential(w.log, from, |w.log|))
    ensures HeardFirst(w.log, from, order)
  {
  }

  method RunIfAdmissible(w: World, found: seq<Info>, opts: Opts, order: seq<HostId>)
    requires w.Valid() && w.disciplined && Unique(w.c) && w.moving == None && opts.keyspaces != []
    requires DistinctHosts(found) && forall n :: n in found ==> n.hostId in w.c.hosts
    modifies w
    ensures w.Longer() && Aimed(w.log, |old(w.log)|)
    ensures KeepsOrder(w, |old(w.log)|, order)
    ensures Sequential(w.log, |old(w.log)|, |w.log|) && HeardFirst(w.log, |old(w.log)|, order)
  {
    var k8s: bool := *;
    var addresses: map<HostId, seq<Address>> := *;
    var sorted := SortNodes(found);
    HostsListed(found, sorted, w.c);
    if !Admissible(opts, sorted, order) {
      IdleKeeps(w, |w.log|, order);
      return;
    }
    var _ := RunMigrate(w, found, addresses, opts, k8s, sorted, HostIds(sorted));
    if Refused(opts, sorted) {
      IdleKeeps(w, |old(w.log)|, order);
    }
  }

  lemma HostsListed(found: seq<Info>, sorted: seq<Info>, c: State)
    requires DistinctHosts(found) && multiset(found) == multiset(sorted) && forall n :: n in found ==> n.hostId in c.hosts
    requires Ordered(sorted)
    ensures Listing(HostIds(sorted), c)
  {
    forall i | 0 <= i < |sorted| ensures sorted[i].hostId in c.hosts {
      assert sorted[i] in multiset(found);
    }
    forall i, j | 0 <= i < j < |sorted| ensures sorted[i].hostId != sorted[j].hostId {
      DistinctInBoth(found, sorted, i, j);
    }
  }

  lemma DistinctInBoth(found: seq<Info>, sorted: seq<Info>, i: nat, j: nat)
    requires DistinctHosts(found) && multiset(found) == multiset(sorted) && Ordered(sorted) && i < j < |sorted|
    ensures sorted[i].hostId != sorted[j].hostId
  {
    assert sorted[i] in multiset(found) && sorted[j] in multiset(found);
    var a :| 0 <= a < |found| && found[a] == sorted[i];
    var b :| 0 <= b < |found| && found[b] == sorted[j];
    assert Before(sorted[i], sorted[j]);
    InfoOrder(sorted[i], sorted[i], sorted[i]);
    assert a != b;
  }
}
