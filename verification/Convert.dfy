/** The vnodes-to-tablets controller: sample_app/convert_to_tablets.py. */
module Convert {
  import opened Options
  import opened Cluster
  import opened Rest

  const DOWN_TIMEOUT := 300
  const POLL_INTERVAL := 15

  datatype Opts = Opts(keyspaces: seq<Keyspace>, restartByK8s: bool, stateTimeout: int, nodeTimeout: int, force: bool)

  class Node {
    const hostId: HostId
    const pod: Option<string>
    var addresses: seq<Address>     // candidate API addresses, old ones included
    var apiHost: Option<Address>

    constructor (hostId: HostId, pod: Option<string>, addresses: seq<Address>)
      ensures this.hostId == hostId && this.pod == pod && this.addresses == addresses && apiHost == None
    {
      this.hostId, this.pod, this.addresses, apiHost := hostId, pod, addresses, None;
    }
  }

  // The host part of a request URL: an unresolved node is asked at "None".
  function Url(apiHost: Option<Address>): Address {
    match apiHost
    case Some(a) => a
    case None => "None"
  }

  // --- What the controller reads ---------------------------------------------------------

  datatype Phrase = Unknown | Uses(mode: Word) | MigratingTo(mode: Word)

  function NodePhrase(report: Report, id: HostId): (r: Phrase)
  {
    var (current, intended) :=
      if id in report.nodes then report.nodes[id] else (Some(report.status), Some(report.status));
    if current.None? || intended.None? then Unknown
    else if current == intended then Uses(current.value)
    else MigratingTo(intended.value)
  }

  // The node stores and intends `mode` for a keyspace whose migration is under way.
  predicate AtMode(c: State, id: HostId, ks: Keyspace, mode: Word) {
    && id in c.hosts
    && ks in c.status && c.status[ks] == MigratingToTablets
    && c.hosts[id].intended == mode
    && CurrentMode(c.hosts[id], ks) == mode
  }

  lemma PhraseIsTrue(c: State, id: HostId, ks: Keyspace)
    requires id in c.hosts && ks in c.status && c.status[ks] == MigratingToTablets
    ensures forall mode :: NodePhrase(ReportOf(c, ks), id) == Uses(mode) <==> AtMode(c, id, ks, mode)
    ensures NodePhrase(ReportOf(c, ks), id) == MigratingTo(Vnodes) <==>
              c.hosts[id].intended == Vnodes && ks in c.hosts[id].onTablets
  {
  }

  // --- Nodes -----------------------------------------------------------------------------

  ghost function Ids(nodes: seq<Node>): seq<HostId> {
    seq(|nodes|, i requires 0 <= i < |nodes| => nodes[i].hostId)
  }

  // One Node object for each of several hosts of the cluster.
  ghost predicate Roster(w: World, nodes: seq<Node>)
    reads w
  {
    && (forall i :: 0 <= i < |nodes| ==> nodes[i].hostId in w.c.hosts)
    && (forall i, j :: 0 <= i < j < |nodes| ==> nodes[i].hostId != nodes[j].hostId)
  }

  // The API address leads to the node itself.
  ghost predicate Located(w: World, node: Node)
    reads w, node
  {
    node.hostId in w.c.hosts && node.apiHost == Some(w.c.hosts[node.hostId].addr)
  }

  // Addresses are unique, nobody is being moved, and every node is where we think it is.
  ghost predicate Tame(w: World, nodes: seq<Node>)
    reads w, nodes
  {
    && w.disciplined && w.moving == None && Unique(w.c)
    && (forall i :: 0 <= i < |nodes| ==> Located(w, nodes[i]))
  }

  // Every storage-mode and drain call reached the node it was meant for, and every node that was
  // found to be back was really running.
  ghost predicate Aimed(log: seq<Event>, from: nat) {
    forall p :: from <= p < |log| ==> Right(At(log, p))
  }

  predicate Right(e: Event) {
    (e.SetMode? || e.Drain? ==> e.reached == e.target) && (e.Back? ==> e.up)
  }

  method ApiAlive(w: World, a: Address) returns (r: Reply<bool>)
    requires w.Valid()
    modifies w
    ensures w.Only(Idle) && (r.Answer? || r.Killed?)
    ensures r == Answer(true) ==> exists h :: h in w.c.hosts && w.c.hosts[h].up && w.c.hosts[h].addr == a
  {
    var id := w.LocalHostId(a);
    return if id.Killed? then Killed else Answer(id.Answer?);
  }

  /** First candidate address whose REST API reports this node's host ID. */
  method ResolveApiHost(w: World, node: Node) returns (r: Reply<Option<Address>>)
    requires w.Valid()
    modifies w
    ensures w.Only(Idle) && (r.Answer? || r.Killed?)
    ensures r.Answer? && r.value.Some? ==>
              node.hostId in w.c.hosts && w.c.hosts[node.hostId].addr == r.value.value && w.c.hosts[node.hostId].up
  {
    for i := 0 to |node.addresses|
      invariant w.Only(Idle)
    {
      var id := w.LocalHostId(node.addresses[i]);
      if id.Killed? {
        return Killed;
      }
      if id == Answer(node.hostId) {
        return Answer(Some(node.addresses[i]));
      }
    }
    return Answer(None);
  }

  /** A node whose API is up, other than the one about to be restarted. */
  method PickControl(w: World, nodes: seq<Node>, exclude: Option<HostId>) returns (r: Reply<Option<Node>>)
    requires w.Valid()
    modifies w
    ensures w.Only(Idle) && (r.Answer? || r.Killed?)
    ensures r.Answer? && r.value.Some? ==>
              r.value.value in nodes && Some(r.value.value.hostId) != exclude && r.value.value.apiHost.Some?
              && exists h :: h in w.c.hosts && w.c.hosts[h].up && w.c.hosts[h].addr == r.value.value.apiHost.value
  {
    for i := 0 to |nodes|
      invariant w.Only(Idle)
    {
      if exclude != Some(nodes[i].hostId) && nodes[i].apiHost.Some? {
        var alive :- ApiAlive(w, nodes[i].apiHost.value);
        if alive {
          return Answer(Some(nodes[i]));
        }
      }
    }
    return Answer(None);
  }

  /** What one node does with one keyspace, as the cluster sees it. */
  method ReadPhrase(w: World, control: Node, id: HostId, ks: Keyspace) returns (r: Reply<Phrase>)
    requires w.Valid() && id in w.c.hosts && ks in Migrating(w.c)
    modifies w
    ensures w.Only(Reads(id)) && !r.Fatal? && Drift(old(w.c), w.c)
    ensures forall p :: |old(w.log)| <= p < |w.log| - 1 ==> Allowed(Idle, At(w.log, p))
    ensures r.Answer? ==> forall mode :: r.value == Uses(mode) <==> AtMode(w.c, id, ks, mode)
    ensures r.Answer? ==> (r.value == MigratingTo(Vnodes) <==>
                             w.c.hosts[id].intended == Vnodes && ks in w.c.hosts[id].onTablets)
    ensures r.Answer? ==>
              |w.log| > |old(w.log)| && At(w.log, |w.log| - 1) == Inspect(id, ks) && At(w.trace, |w.log| - 1) == w.c
  {
    var report := w.Status(Url(control.apiHost), ks, Some(id));
    w.Drifts(Reads(id));
    if report.Answer? {
      PhraseIsTrue(w.c, id, ks);
      return Answer(NodePhrase(report.value, id));
    }
    return report.PropagateFailure();
  }

  // A look at the node that did not find it at `want`.
  predicate ShortAt(c: State, e: Event, id: HostId, keyspaces: seq<Keyspace>, want: Word) {
    e.Inspect? && e.h == id && e.ks in keyspaces && !AtMode(c, id, e.ks, want)
  }

  ghost predicate ShortSeen(w: World, from: nat, p: nat, id: HostId, keyspaces: seq<Keyspace>, want: Word)
    reads w
  {
    from <= p < |w.log| && p < |w.trace| && ShortAt(At(w.trace, p), At(w.log, p), id, keyspaces, want)
  }

  /** Whether one node is at `want` for every keyspace, asking for each in turn; if not, when it
      was seen not to be. */
  method AllUse(w: World, control: Node, id: HostId, keyspaces: seq<Keyspace>, want: Word)
    returns (r: Reply<bool>, ghost short: nat)
    requires w.Valid() && id in w.c.hosts
    requires forall ks :: ks in keyspaces ==> ks in Migrating(w.c)
    modifies w
    ensures w.Only(Reads(id)) && !r.Fatal? && Drift(old(w.c), w.c)
    ensures r == Answer(true) ==> forall ks :: ks in keyspaces ==> AtMode(w.c, id, ks, want)
    ensures r == Answer(false) ==> ShortSeen(w, |old(w.log)|, short, id, keyspaces, want)
  {
    var all := true;
    short := 0;
    for i := 0 to |keyspaces|
      invariant w.Only(Reads(id)) && Drift(old(w.c), w.c)
      invariant all ==> forall j :: 0 <= j < i ==> AtMode(w.c, id, keyspaces[j], want)
      invariant !all ==> ShortSeen(w, |old(w.log)|, short, id, keyspaces, want)
    {
      assert Migrating(w.c) == Migrating(old(w.c));
      var phrase := ReadPhrase(w, control, id, keyspaces[i]);
      w.Drifts(Reads(id));
      if !phrase.Answer? {
        return phrase.PropagateFailure(), short;
      }
      if phrase.value != Uses(want) {
        all, short := false, |w.log| - 1;
      }
    }
    return Answer(all), short;
  }

  /** Wait until one node reports `want` for every keyspace, giving up once the time is over. */
  method WaitNodeMode(w: World, control: Node, id: HostId, keyspaces: seq<Keyspace>, want: Word, timeout: int)
    returns (r: Reply<bool>)
    requires w.Valid() && id in w.c.hosts
    requires forall ks :: ks in keyspaces ==> ks in Migrating(w.c)
    modifies w
    ensures w.Only(Reads(id)) && !r.Fatal? && Drift(old(w.c), w.c)
    ensures r == Answer(true) ==> forall ks :: ks in keyspaces ==> AtMode(w.c, id, ks, want)
    ensures r == Answer(false) ==> w.clock >= old(w.clock) + timeout
  {
    var deadline := w.clock + timeout;
    w.Drifts(Reads(id));
    while true
      invariant w.Only(Reads(id)) && Drift(old(w.c), w.c)
      decreases deadline - w.clock
    {
      assert Migrating(w.c) == Migrating(old(w.c));
      var all, _ := AllUse(w, control, id, keyspaces, want);
      w.Drifts(Reads(id));
      if !all.Answer? || all.value {
        return all;
      }
      if w.clock >= deadline {
        return Answer(false);
      }
      w.Sleep(POLL_INTERVAL);
      w.Drifts(Reads(id));
    }
  }

  // --- Restarting a node -----------------------------------------------------------------

  // No other node has the address we last used for this one.
  ghost predicate Ours(w: World, node: Node)
    reads w, node
  {
    && w.disciplined && w.moving == Some(node.hostId) && Unique(w.c)
    && node.hostId in w.c.hosts
    && (node.apiHost.Some? ==> Free(w.c, node.hostId, node.apiHost.value))
  }

  // New candidate addresses go to the front; the old ones stay behind them.
  function WithCandidates(known: seq<Address>, candidates: seq<Address>): seq<Address>
    decreases |candidates|
  {
    if candidates == [] then known
    else WithCandidates(if candidates[0] in known then known else [candidates[0]] + known, candidates[1..])
  }

  /** Where the node may be now: its pod's own IP, then the cluster's host ID map. */
  method Candidates(w: World, node: Node, control: Node, k8s: bool) returns (r: Reply<seq<Address>>)
    requires w.Valid()
    modifies w
    ensures w.Only(Idle) && (r.Answer? || r.Killed?)
  {
    var candidates: seq<Address> := [];
    if k8s && node.pod.Some? {
      var ip :- w.PodIp();
      candidates := if ip.Some? then [ip.value] else [];
    }
    var entries := w.HostIdMap(Url(control.apiHost));
    if entries.Killed? {
      return Killed;
    }
    if entries.Answer? {
      for i := 0 to |entries.value| {
        if entries.value[i].1 == node.hostId {
          candidates := candidates + [entries.value[i].0];
        }
      }
    }
    return Answer(candidates);
  }

  /** Why one pod has to be back before another is replaced: with two on their way, one may come back
      on the address that the other had.  Somebody answers there, so that a node that is down is
      taken to be back. */
  lemma TwoOnTheirWay(c: State, g: HostId, h: HostId) returns (c': State)
    requires g in c.hosts && h in c.hosts && g != h && !c.hosts[g].up
    ensures Step(c, Boot(h, c.hosts[g].addr), c')
    ensures exists x :: x in c'.hosts && c'.hosts[x].up && c'.hosts[x].addr == c'.hosts[g].addr
    ensures Step(c', Back(g, false), c') && !Right(Back(g, false))
  {
    var host := c.hosts[h];
    c' := c.(hosts := c.hosts[h := host.(up := true, addr := c.hosts[g].addr,
               onTablets := Converted(host.onTablets, host.intended, Migrating(c)))]);
    assert c'.hosts[h].up;
  }

  /** Find the node's REST API again after a restart.  The early exit asks whether anything
      answers at the old address, not who does. */
  method RefreshApiHost(w: World, node: Node, control: Node, k8s: bool) returns (r: Reply<bool>)
    requires w.Valid()
    modifies w, node
    ensures w.Only(Idle) && (r.Answer? || r.Killed?)
    ensures r == Answer(true) ==>
              && node.apiHost.Some?
              && (Located(w, node) ||
                  (node.apiHost == old(node.apiHost)
                   && exists h :: h in w.c.hosts && w.c.hosts[h].addr == node.apiHost.value))
    ensures old(Ours(w, node)) ==> Ours(w, node)
  {
    if node.apiHost.Some? {
      var alive :- ApiAlive(w, node.apiHost.value);
      if alive {
        return Answer(true);
      }
    }
    var candidates :- Candidates(w, node, control, k8s);
    node.addresses := WithCandidates(node.addresses, candidates);
    var found :- ResolveApiHost(w, node);
    node.apiHost := found;
    return Answer(found.Some?);
  }

  // The node answers its own API, serves clients and is live in the cluster's gossip view.
  method Serving(w: World, control: Node, node: Node, k8s: bool) returns (r: Reply<bool>)
    requires w.Valid()
    modifies w, node
    ensures w.Only(Idle) && (r.Answer? || r.Killed?)
    ensures old(Ours(w, node)) ==>
              Ours(w, node) && (r == Answer(true) ==> Located(w, node) && w.c.hosts[node.hostId].up)
  {
    var refreshed :- RefreshApiHost(w, node, control, k8s);
    if !refreshed {
      return Answer(false);
    }
    var serving := w.Ask();
    if serving.Killed? {
      return Killed;
    }
    if serving != Answer(true) {
      return Answer(false);
    }
    var live := w.LiveEndpoints(Url(control.apiHost));
    if live.Killed? {
      return Killed;
    }
    return Answer(live.Answer? && node.apiHost.Some? && node.apiHost.value in live.value);
  }

  /** Whether the node is back; the finding goes into the log. */
  method NodeBackUp(w: World, control: Node, node: Node, k8s: bool) returns (r: Reply<bool>)
    requires w.Valid() && node.hostId in w.c.hosts
    modifies w, node
    ensures w.Only(Restarts(node.hostId)) && (r.Answer? || r.Killed?)
    ensures forall p :: |old(w.log)| <= p < |w.log| ==> !Touches(At(w.log, p))
    ensures r == Answer(true) ==> LastIsBack(w, |old(w.log)|, node.hostId)
    ensures old(Ours(w, node)) ==>
              Ours(w, node) && Aimed(w.log, |old(w.log)|) && (r == Answer(true) ==> Located(w, node))
  {
    r := Serving(w, control, node, k8s);
    if r == Answer(true) {
      w.Record(Back(node.hostId, w.c.hosts[node.hostId].up), w.c);
    }
  }

  // The last event is that the node was found to be back.
  ghost predicate LastIsBack(w: World, from: nat, id: HostId)
    reads w
  {
    |w.log| > from && At(w.log, |w.log| - 1).Back? && At(w.log, |w.log| - 1).h == id
  }

  method WaitForDown(w: World, node: Node) returns (r: Reply<bool>)
    requires w.Valid()
    modifies w
    ensures w.Only(Idle) && (r.Answer? || r.Killed?)
  {
    var deadline := w.clock + DOWN_TIMEOUT;
    while true
      invariant w.Only(Idle)
      decreases deadline - w.clock
    {
      var alive :- ApiAlive(w, Url(node.apiHost));
      if !alive {
        return Answer(true);
      }
      if w.clock >= deadline {
        return Answer(false);
      }
      w.Sleep(5);
    }
  }

  method WaitForBack(w: World, control: Node, node: Node, k8s: bool, timeout: int) returns (r: Reply<bool>)
    requires w.Valid() && node.hostId in w.c.hosts
    modifies w, node
    ensures w.Only(Restarts(node.hostId)) && (r.Answer? || r.Killed?)
    ensures forall p :: |old(w.log)| <= p < |w.log| ==> !Touches(At(w.log, p))
    ensures r == Answer(true) ==> LastIsBack(w, |old(w.log)|, node.hostId)
    ensures old(Ours(w, node)) ==> Aimed(w.log, |old(w.log)|)
    ensures old(Ours(w, node)) && r == Answer(true) ==> Ours(w, node) && Located(w, node)
  {
    ghost var ours := Ours(w, node);
    var deadline := w.clock + timeout;
    while true
      invariant w.Only(Restarts(node.hostId)) && (ours ==> Ours(w, node) && Aimed(w.log, |old(w.log)|))
      invariant forall p :: |old(w.log)| <= p < |w.log| ==> !Touches(At(w.log, p))
      decreases deadline - w.clock
    {
      var back :- NodeBackUp(w, control, node, k8s);
      if back {
        return Answer(true);
      }
      if w.clock >= deadline {
        return Answer(false);
      }
      w.Sleep(10);
    }
  }

  // From the request to the node's return, its pod may come back on any free address.
  method Replace(w: World, node: Node, control: Node, opts: Opts, k8s: bool) returns (r: Reply<()>)
    requires w.Valid() && w.moving == Some(node.hostId) && node.hostId in w.c.hosts
    modifies w, node
    ensures w.Only(Restarts(node.hostId)) && (old(Ours(w, node)) ==> Aimed(w.log, |old(w.log)|))
    ensures r.Answer? ==> exists p :: |old(w.log)| <= p < |w.log| && At(w.log, p) == Restart(node.hostId)
    ensures r.Answer? ==> LastIsBack(w, |old(w.log)|, node.hostId)
    ensures old(Ours(w, node)) && r.Answer? ==> Ours(w, node) && Located(w, node)
  {
    var _ :- w.RequestRestart(node.hostId);
    ghost var at := |w.log| - 1;
    var down :- WaitForDown(w, node);
    if !down {
      return Reply.Fatal;
    }
    var back :- WaitForBack(w, control, node, k8s, opts.nodeTimeout);
    if !back {
      return Reply.Fatal;
    }
    assert At(w.log, at) == Restart(node.hostId);
    return Answer(());
  }

  // Replace the pod, during which it alone may change its address.
  method Respawn(w: World, node: Node, control: Node, opts: Opts, k8s: bool) returns (r: Reply<()>)
    requires w.Valid() && w.moving == None && node.hostId in w.c.hosts
    modifies w, node
    ensures w.Grown(Some(node.hostId))
    ensures forall p :: |old(w.log)| <= p < |w.log| ==> Allowed(Restarts(node.hostId), At(w.log, p))
    ensures r.Answer? ==> w.moving == None && LastIsBack(w, |old(w.log)|, node.hostId)
    ensures r.Answer? ==> exists p :: |old(w.log)| <= p < |w.log| && At(w.log, p) == Restart(node.hostId)
    ensures w.disciplined && old(Unique(w.c) && Located(w, node)) ==>
              Aimed(w.log, |old(w.log)|) && (r.Answer? ==> Unique(w.c) && Located(w, node))
  {
    w.moving := Some(node.hostId);
    r := Replace(w, node, control, opts, k8s);
    if r.Answer? {
      w.moving := None;
    }
  }

  /** Drain one node and get it started again, on whatever address it comes back. */
  method RestartNode(w: World, node: Node, control: Node, opts: Opts, k8s: bool) returns (r: Reply<()>)
    requires w.Valid() && w.moving == None && node.hostId in w.c.hosts
    modifies w, node
    ensures w.Grown(Some(node.hostId))
    ensures forall p :: |old(w.log)| <= p < |w.log| ==> Allowed(Restarts(node.hostId), At(w.log, p))
    ensures r.Answer? ==> w.moving == None && LastIsBack(w, |old(w.log)|, node.hostId)
    ensures r.Answer? ==> exists p :: |old(w.log)| <= p < |w.log| && At(w.log, p) == Restart(node.hostId)
    ensures w.disciplined && old(Unique(w.c) && Located(w, node)) ==>
              Aimed(w.log, |old(w.log)|) && (r.Answer? ==> Unique(w.c) && Located(w, node))
  {
    ghost var located := w.disciplined && Unique(w.c) && Located(w, node);
    var drained := w.PostDrain(node.hostId, Url(node.apiHost));
    if drained.Killed? {
      return Killed;
    }
    assert located ==> Unique(w.c) && Located(w, node) && Aimed(w.log, |old(w.log)|);
    r := Respawn(w, node, control, opts, k8s);
  }
}
