/** create_oke as a whole, fresh and resumed, and the life of a deployment over runs that may
    each stop anywhere. */
module OkeRuns {
  import opened Options
  import opened OkeState
  import opened OkeCloud
  import opened OkeTeardown
  import opened OkeLifecycle
  import opened OkeCreate

  // What is there after some of the network has been created.
  ghost predicate Partial(s: State, vcn: Id, done: seq<Net>, ids: map<Net, Id>) {
    && Holds(s, Vcn, vcn) && KindGone(s, Cluster)
    && (forall n :: n in done ==> n in ids && Holds(s, Child(n), ids[n]))
    && forall n :: n !in done ==> KindGone(s, Child(n))
  }

  lemma PartialStep(s: State, t: State, vcn: Id, i: nat, ids: map<Net, Id>, id: Id)
    requires i < |CreateOrder| && Partial(s, vcn, CreateOrder[..i], ids)
    requires Tends(s, t, {Child(CreateOrder[i])}) && Holds(t, Child(CreateOrder[i]), id)
    ensures Partial(t, vcn, CreateOrder[..i + 1], ids[CreateOrder[i] := id])
  {
    var n := CreateOrder[i];
    CreatePrefix(i);
    StillHolds(s, t, {Child(n)}, Vcn, vcn);
    TendsKeepsGone(s, t, {Child(n)});
    forall m | m in CreateOrder[..i] ensures Holds(t, Child(m), ids[m]) {
      StillHolds(s, t, {Child(n)}, Child(m), ids[m]);
    }
    forall m | m !in CreateOrder[..i + 1] ensures KindGone(t, Child(m)) {
      assert KindGone(s, Child(m));
    }
  }

  function NetResource(n: Net, vcn: Id, ids: map<Net, Id>): Resource
    requires Needs(n) <= ids.Keys
  {
    Resource(Child(n), true, true, vcn, {vcn} + (set m | m in Needs(n) :: ids[m]), 0, Creating)
  }

  lemma NetMayCreate(s: State, vcn: Id, i: nat, ids: map<Net, Id>)
    requires i < |CreateOrder| && Partial(s, vcn, CreateOrder[..i], ids)
    ensures Needs(CreateOrder[i]) <= ids.Keys
    ensures MayCreate(s, NetResource(CreateOrder[i], vcn, ids))
  {
    var n := CreateOrder[i];
    CreatePrefix(i);
    NeedsAreDone(i);
    forall m | m in Needs(n) ensures m in ids && Holds(s, Child(m), ids[m]) && NetRank(n) < NetRank(m) {
      OrdersCover(n);
    }
    forall x | x in NetResource(n, vcn, ids).refs
      ensures x in s && s[x].mine && Standing(s[x]) && Rank(Child(n)) < Rank(s[x].kind)
    {
      if x != vcn {
        var m :| m in Needs(n) && ids[m] == x;
        assert Holds(s, Child(m), x);
      }
    }
  }

  lemma NeedsAreDone(i: nat)
    requires i < |CreateOrder|
    ensures forall m :: m in Needs(CreateOrder[i]) ==> m in CreateOrder[..i]
  {
    forall m | m in Needs(CreateOrder[i]) ensures m in CreateOrder[..i] {
      assert CreatePlace(CreateOrder[i]) == i;
      assert CreateOrder[..i][CreatePlace(m)] == m;
    }
  }

  method CreateNet(cloud: Cloud, vcn: Id, i: nat, ids: map<Net, Id>) returns (id: Option<Id>)
    requires i < |CreateOrder| && cloud.Valid() && Partial(cloud.state, vcn, CreateOrder[..i], ids)
    modifies cloud`state, cloud`failures, cloud`lists
    ensures cloud.Valid() && cloud.context == old(cloud.context) && Holds(cloud.state, Vcn, vcn)
    ensures Tends(old(cloud.state), cloud.state, {Child(CreateOrder[i])})
    ensures id.Some? ==> Partial(cloud.state, vcn, CreateOrder[..i + 1], ids[CreateOrder[i] := id.value])
    ensures cloud.failures == old(cloud.failures) + if id.None? then 1 else 0
  {
    var n := CreateOrder[i];
    NetMayCreate(cloud.state, vcn, i, ids);
    id := cloud.Create(NetResource(n, vcn, ids));
    StillHolds(old(cloud.state), cloud.state, {Child(n)}, Vcn, vcn);
    if id.Some? {
      PartialStep(old(cloud.state), cloud.state, vcn, i, ids, id.value);
    }
  }

  function Nets(): (ks: set<Kind>)
    ensures forall k :: k in ks ==> k.Child?
  {
    {Child(Igw), Child(Nat), Child(PublicRt), Child(PrivateRt), Child(PublicSl), Child(PrivateSl), Child(CpSubnet),
     Child(WorkersSubnet), Child(LbSubnet)}
  }

  lemma NetTends(r: State, s: State, t: State, n: Net)
    requires Tends(r, s, Nets()) && Tends(s, t, {Child(n)})
    ensures Tends(r, t, Nets())
  {
    assert Child(n) in Nets();
    TendsWider(s, t, {Child(n)}, Nets());
    TendsTransitive(r, s, t, Nets());
  }

  method CreateNetwork(cloud: Cloud, vcn: Id) returns (ok: bool, ids: map<Net, Id>)
    requires cloud.Valid() && Partial(cloud.state, vcn, [], map[])
    modifies cloud`state, cloud`failures, cloud`lists
    ensures cloud.Valid() && cloud.context == old(cloud.context)
    ensures Holds(cloud.state, Vcn, vcn)
    ensures ok ==> KindGone(cloud.state, Cluster) && Wired(cloud.state, vcn, ids)
    ensures Tends(old(cloud.state), cloud.state, Nets())
    ensures if ok then cloud.failures == old(cloud.failures) else cloud.failures > old(cloud.failures)
  {
    ids := map[];
    for i := 0 to |CreateOrder|
      invariant cloud.Valid() && Partial(cloud.state, vcn, CreateOrder[..i], ids)
      invariant Tends(old(cloud.state), cloud.state, Nets()) && cloud.failures == old(cloud.failures)
    {
      ghost var s := cloud.state;
      var id := CreateNet(cloud, vcn, i, ids);
      NetTends(old(cloud.state), s, cloud.state, CreateOrder[i]);
      if id.None? {
        return false, ids;
      }
      ids := ids[CreateOrder[i] := id.value];
    }
    forall n ensures n in ids && Holds(cloud.state, Child(n), ids[n]) {
      assert CreateOrder[..|CreateOrder|] == CreateOrder;
      OrdersCover(n);
    }
    ok := true;
  }

  // The whole network is there and ready.
  ghost predicate Wired(s: State, vcn: Id, ids: map<Net, Id>) {
    Holds(s, Vcn, vcn) && forall n :: n in ids && Holds(s, Child(n), ids[n])
  }

  lemma StillWired(s: State, t: State, ks: set<Kind>, vcn: Id, ids: map<Net, Id>)
    requires Tends(s, t, ks) && Wired(s, vcn, ids) && forall k :: k in ks ==> k.Pool? || k == Cluster
    ensures Wired(t, vcn, ids)
  {
    StillHolds(s, t, ks, Vcn, vcn);
    forall n ensures Holds(t, Child(n), ids[n]) {
      StillHolds(s, t, ks, Child(n), ids[n]);
    }
  }

  method NewCluster(cloud: Cloud, vcn: Id, ids: map<Net, Id>) returns (id: Option<Id>)
    requires cloud.Valid() && KindGone(cloud.state, Cluster) && Wired(cloud.state, vcn, ids)
    modifies cloud`state, cloud`failures, cloud`lists
    ensures cloud.Valid() && cloud.context == old(cloud.context) && Wired(cloud.state, vcn, ids)
    ensures id.Some? ==> Holds(cloud.state, Cluster, id.value)
    ensures Tends(old(cloud.state), cloud.state, {Cluster})
    ensures cloud.failures == old(cloud.failures) + if id.None? then 1 else 0
  {
    assert Holds(cloud.state, Child(CpSubnet), ids[CpSubnet]) && Holds(cloud.state, Child(LbSubnet), ids[LbSubnet]);
    id := cloud.Create(Resource(Cluster, true, true, vcn, {vcn, ids[CpSubnet], ids[LbSubnet]}, 0, Creating));
    StillWired(old(cloud.state), cloud.state, {Cluster}, vcn, ids);
  }

  // The cluster on its network; its OCID is looked up, and it must have become ACTIVE.
  method CreateCluster(cloud: Cloud, vcn: Id, ids: map<Net, Id>) returns (ok: bool, cluster: Id)
    requires cloud.Valid() && cloud.exact && KindGone(cloud.state, Cluster) && Wired(cloud.state, vcn, ids)
    modifies cloud`state, cloud`failures, cloud`lists
    ensures cloud.Valid() && cloud.context == old(cloud.context) && Wired(cloud.state, vcn, ids)
    ensures ok ==> Holds(cloud.state, Cluster, cluster)
    ensures Tends(old(cloud.state), cloud.state, {Cluster})
    ensures if ok then cloud.failures == old(cloud.failures) else cloud.failures > old(cloud.failures)
  {
    var id := NewCluster(cloud, vcn, ids);
    if id.None? {
      return false, 0;
    }
    ghost var s := cloud.state;
    ok, cluster := FindCluster(cloud, id.value);
    StillWired(s, cloud.state, {}, vcn, ids);
    TendsWider(s, cloud.state, {}, {Cluster});
    TendsTransitive(old(cloud.state), s, cloud.state, {Cluster});
  }

  lemma NetworkFrom(s: State, vcn: Id, ids: map<Net, Id>, cluster: Id)
    requires Intact(s) && Wired(s, vcn, ids) && Holds(s, Cluster, cluster)
    ensures Network(s) && Holds(s, Child(WorkersSubnet), ids[WorkersSubnet])
  {
    HoldsIsOne(s, Vcn, vcn);
    HoldsIsOne(s, Cluster, cluster);
    forall n ensures OneReady(s, Child(n)) {
      HoldsIsOne(s, Child(n), ids[n]);
    }
  }

  // lookup_cluster, and the state of what it finds
  method FindCluster(cloud: Cloud, ghost id: Id) returns (ok: bool, cluster: Id)
    requires cloud.Valid() && cloud.exact && Holds(cloud.state, Cluster, id)
    modifies cloud`state, cloud`failures, cloud`lists
    ensures cloud.Drifted()
    ensures ok ==> cluster == id && Holds(cloud.state, Cluster, cluster)
    ensures if ok then cloud.failures == old(cloud.failures) else cloud.failures > old(cloud.failures)
  {
    var owned, any := ListOwned(cloud, Cluster);
    ghost var s := cloud.state;
    StillHolds(old(cloud.state), s, {}, Cluster, id);
    if owned.None? || owned.value == [] {
      return false, 0;
    }
    assert owned.value[0] in owned.value;
    cluster := owned.value[0].id;
    var life := cloud.Get(cluster);
    StillHolds(s, cloud.state, {}, Cluster, id);
    TendsTransitive(old(cloud.state), s, cloud.state, {});
    ok := life == Some(Ready);
  }

  // The kubeconfig context, and the checks of the nodes, any of which may fail.
  method Finish(cloud: Cloud) returns (ok: bool)
    modifies cloud`context, cloud`failures
    ensures ok ==> cloud.context
    ensures cloud.failures == old(cloud.failures) + if ok then 0 else 1
    ensures old(cloud.context) ==> cloud.context
    ensures cloud.state == old(cloud.state) && (old(cloud.Valid()) ==> cloud.Valid())
  {
    var generated: bool := *;
    var checked: bool := *;
    if !cloud.context && generated {
      cloud.context := true;
    }
    ok := cloud.context && checked;
    cloud.failures := cloud.failures + if ok then 0 else 1;
  }

  /** A create from nothing.  It begins only where nothing of the deployment is live, ends, if it
      ends well, with a complete deployment, and wherever it stops keeps the invariant; the
      context exists only beside a VCN.  From a clean state only a failing call or a stranger's
      resource of the same name stops it. */
  method CreateOke(cloud: Cloud, sizes: Sizes, attempts: nat) returns (ok: bool)
    requires cloud.Valid() && cloud.exact && attempts >= 1
    modifies cloud
    ensures cloud.Valid()
    ensures ok ==> Complete(cloud.state, sizes) && cloud.context && !old(cloud.context)
    ensures cloud.context && !old(cloud.context) ==> !NoneStanding(cloud.state, Vcn)
    ensures old(cloud.context) ==> !ok && cloud.context && cloud.state == old(cloud.state)
    ensures !ok && !old(cloud.context) && NoneLive(old(cloud.state)) ==>
              cloud.failures > old(cloud.failures)
              || (|cloud.answers| > |old(cloud.answers)| && Strangers(cloud.answers[|old(cloud.answers)|]))
  {
    if cloud.context {
      return false;
    }
    var v := CheckCreateCollisions(cloud, attempts);
    if v != Clear {
      return false;
    }
    var vcn := cloud.Create(Resource(Vcn, true, true, 0, {}, 0, Creating));
    if vcn.None? {
      return false;
    }
    ok := CreateInVcn(cloud, vcn.value, sizes);
    assert Holds(cloud.state, Vcn, vcn.value);
  }

  method CreateInVcn(cloud: Cloud, vcn: Id, sizes: Sizes) returns (ok: bool)
    requires cloud.Valid() && cloud.exact && Partial(cloud.state, vcn, [], map[])
    requires forall p :: KindGone(cloud.state, Pool(p))
    modifies cloud`state, cloud`failures, cloud`lists, cloud`context
    ensures cloud.Valid() && Holds(cloud.state, Vcn, vcn)
    ensures ok ==> Complete(cloud.state, sizes) && cloud.context
    ensures if ok then cloud.failures == old(cloud.failures) else cloud.failures > old(cloud.failures)
  {
    var ids;
    ok, ids := CreateNetwork(cloud, vcn);
    if ok {
      StillNoPools(old(cloud.state), cloud.state, Nets());
      ok := CreateOnNetwork(cloud, vcn, ids, sizes);
    }
  }

  lemma StillNoPools(s: State, t: State, ks: set<Kind>)
    requires Tends(s, t, ks) && (forall k :: k in ks ==> !k.Pool?) && forall p :: KindGone(s, Pool(p))
    ensures forall p :: KindGone(t, Pool(p))
  {
    TendsKeepsGone(s, t, ks);
    forall p ensures KindGone(t, Pool(p)) {
      assert KindGone(s, Pool(p));
    }
  }

  lemma MissingPoolsFit(s: State, t: State)
    requires Tends(s, t, {Cluster}) && forall p :: KindGone(s, Pool(p))
    ensures PoolsFit(t)
  {
    StillNoPools(s, t, {Cluster});
    forall p ensures ReadyOrMissing(t, p) {
      assert KindGone(t, Pool(p));
    }
  }

  method CreateOnNetwork(cloud: Cloud, vcn: Id, ids: map<Net, Id>, sizes: Sizes) returns (ok: bool)
    requires cloud.Valid() && cloud.exact && KindGone(cloud.state, Cluster) && Wired(cloud.state, vcn, ids)
    requires forall p :: KindGone(cloud.state, Pool(p))
    modifies cloud`state, cloud`failures, cloud`lists, cloud`context
    ensures cloud.Valid() && Holds(cloud.state, Vcn, vcn)
    ensures ok ==> Complete(cloud.state, sizes) && cloud.context
    ensures if ok then cloud.failures == old(cloud.failures) else cloud.failures > old(cloud.failures)
  {
    var cluster;
    ok, cluster := CreateCluster(cloud, vcn, ids);
    if !ok {
      return;
    }
    MissingPoolsFit(old(cloud.state), cloud.state);
    NetworkFrom(cloud.state, vcn, ids, cluster);
    ok := PopulateCluster(cloud, vcn, cluster, ids[WorkersSubnet], sizes);
  }

  // The node pools and the context.
  method PopulateCluster(cloud: Cloud, ghost vcn: Id, cluster: Id, workers: Id, sizes: Sizes) returns (ok: bool)
    requires cloud.Valid() && cloud.exact && Network(cloud.state) && Holds(cloud.state, Vcn, vcn)
    requires Holds(cloud.state, Cluster, cluster) && Holds(cloud.state, Child(WorkersSubnet), workers)
    modifies cloud`state, cloud`failures, cloud`lists, cloud`context
    ensures cloud.Valid() && Holds(cloud.state, Vcn, vcn) && (old(cloud.context) ==> cloud.context)
    ensures Tends(old(cloud.state), cloud.state, Pools)
    ensures ok ==> Complete(cloud.state, sizes) && cloud.context && cloud.failures == old(cloud.failures)
    ensures !ok && PoolsFit(old(cloud.state)) ==> cloud.failures > old(cloud.failures)
  {
    ok := PoolsAndContext(cloud, cluster, workers, sizes);
    VcnStays(old(cloud.state), cloud.state, vcn);
  }

  lemma VcnStays(s: State, t: State, vcn: Id)
    requires Tends(s, t, Pools) && Holds(s, Vcn, vcn)
    ensures Holds(t, Vcn, vcn)
  {
    StillHolds(s, t, Pools, Vcn, vcn);
  }

  method PoolsAndContext(cloud: Cloud, cluster: Id, workers: Id, sizes: Sizes) returns (ok: bool)
    requires cloud.Valid() && cloud.exact && Network(cloud.state)
    requires Holds(cloud.state, Cluster, cluster) && Holds(cloud.state, Child(WorkersSubnet), workers)
    modifies cloud`state, cloud`failures, cloud`lists, cloud`context
    ensures cloud.Valid() && (old(cloud.context) ==> cloud.context)
    ensures Tends(old(cloud.state), cloud.state, Pools)
    ensures ok ==> Complete(cloud.state, sizes) && cloud.context && cloud.failures == old(cloud.failures)
    ensures !ok && PoolsFit(old(cloud.state)) ==> cloud.failures > old(cloud.failures)
  {
    ok := EnsurePools(cloud, cluster, workers, sizes);
    if !ok {
      return;
    }
    ghost var s := cloud.state;
    ok := Finish(cloud);
    assert cloud.state == s;
  }

  // --- Resume -----------------------------------------------------------------------------

  lemma {:induction false} FilterAll(p: Record -> bool, rs: seq<Record>)
    requires forall r :: r in rs ==> p(r)
    ensures Filter(p, rs) == rs
  {
    if rs != [] {
      FilterAll(p, rs[1..]);
      assert rs == [rs[0]] + rs[1..];
    }
  }

  // A ready parent, listed without strangers, is the one live record.
  lemma ParentFound(s: State, kind: Kind, rs: seq<Record>)
    requires Intact(s) && (kind == Vcn || kind == Cluster) && Listed(s, kind, None, rs) && DistinctIds(rs)
    requires HasReady(s, kind) && !Strangers(rs)
    ensures var live := LiveRecords(rs); |live| == 1 && |Owned(live)| == 1 && Owned(live)[0].life == Ready
  {
    var live := LiveRecords(rs);
    forall r | r in live ensures r.mine {
      assert r !in Unowned(live);
    }
    FilterAll((r: Record) => r.mine, live);
    ParentsNamed(s, kind);
    ListFinds(s, kind, None, rs, live);
    ReadyIsFound(s, kind, None, rs, live);
  }

  lemma NoStrangersShown(s: State, kind: Kind, rs: seq<Record>)
    requires NoStrangers(s) && (kind == Vcn || kind == Cluster) && Listed(s, kind, None, rs)
    ensures !Strangers(rs)
  {
    forall r | r in rs && r.life != Gone ensures r.mine {
      assert r == RecordOf(r.id, s[r.id]);
    }
    if Strangers(rs) {
      SomeRecord(Unowned(LiveRecords(rs)));
    }
  }

  lemma SomeRecord(rs: seq<Record>)
    requires rs != []
    ensures exists r :: r in rs
  {
    assert rs[0] in rs;
  }

  // The one live parent of its kind, if there is exactly one, and it is tagged and ready.  A ready
  // one is missed only if the list call fails or shows a stranger's.
  method SelectParent(cloud: Cloud, kind: Kind) returns (id: Option<Id>)
    requires cloud.Valid() && cloud.exact && (kind == Vcn || kind == Cluster)
    modifies cloud`state, cloud`failures, cloud`lists
    ensures cloud.Drifted() && cloud.ListsKept()
    ensures id.Some? ==> Holds(cloud.state, kind, id.value) && cloud.failures == old(cloud.failures)
    ensures id.Some? ==> |cloud.lists| == |old(cloud.lists)| + 1
    ensures id.None? && HasReady(old(cloud.state), kind) ==>
              cloud.failures > old(cloud.failures)
              || (StrangerIn(cloud.lists, |old(cloud.lists)|) && !(cloud.alone && NoStrangers(old(cloud.state))))
  {
    var listed := cloud.List(kind, None);
    if listed.None? {
      return None;
    }
    var live := LiveRecords(listed.value);
    if HasReady(old(cloud.state), kind) {
      StillHasReady(old(cloud.state), cloud.state, kind);
      if !Strangers(listed.value) {
        ParentFound(cloud.state, kind, listed.value);
      }
    }
    if cloud.alone && NoStrangers(old(cloud.state)) {
      NoStrangersShown(cloud.state, kind, listed.value);
    }
    if |live| != 1 || |Owned(live)| != 1 || Owned(live)[0].life != Ready {
      return None;
    }
    assert Owned(live)[0] in Owned(live);
    return Some(Owned(live)[0].id);
  }

  // The n-th list shows a live record of somebody else.
  predicate StrangerIn(lists: seq<seq<Record>>, n: nat) { n < |lists| && Strangers(lists[n]) }

  // oke_validate_resume_network
  predicate AllAvailable(found: map<Net, Record>) {
    forall i :: 0 <= i < |CreateOrder| ==> CreateOrder[i] in found && found[CreateOrder[i]].life == Ready
  }

  lemma AvailableIsWired(s: State, vcn: Id, found: map<Net, Record>, ids: map<Net, Id>)
    requires Holds(s, Vcn, vcn) && AllAvailable(found) && forall n :: NetKnown(s, n, found)
    requires ids == map n | n in found :: found[n].id
    ensures Wired(s, vcn, ids)
  {
    forall n ensures n in ids && Holds(s, Child(n), ids[n]) {
      assert CreateOrder[CreatePlace(n)] in found;
      assert NetKnown(s, n, found);
    }
  }

  /** --resume: it goes on only from exactly one tagged ACTIVE cluster and VCN with the whole
      network available; it leaves network and cluster alone, and ends, if it ends well, with a
      complete deployment; with a configured Kubernetes version other than the cluster's it changes
      nothing.  From a ready cluster of the configured version, if there is one, VCN and network, and
      pools that are ready or missing, it stops only if a call fails or one of its first two lists
      shows a stranger's resource of the same name; if there is no stranger, only if a call fails. */
  method ResumeOke(cloud: Cloud, sizes: Sizes, configured: Option<string>, running: string) returns (ok: bool)
    requires cloud.Valid() && cloud.exact
    modifies cloud`state, cloud`failures, cloud`lists, cloud`context
    ensures cloud.Valid() && Tends(old(cloud.state), cloud.state, Pools)
    ensures ok ==> Complete(cloud.state, sizes) && cloud.context
    ensures cloud.context && !old(cloud.context) ==> !NoneStanding(cloud.state, Vcn)
    ensures !VersionFits(configured, running) ==>
              !ok && cloud.context == old(cloud.context) && Tends(old(cloud.state), cloud.state, {})
    ensures !ok && VersionFits(configured, running) && Network(old(cloud.state)) && PoolsFit(old(cloud.state)) ==>
              cloud.failures > old(cloud.failures)
              || ((StrangerIn(cloud.lists, |old(cloud.lists)|) || StrangerIn(cloud.lists, |old(cloud.lists)| + 1))
                  && !(cloud.alone && NoStrangers(old(cloud.state))))
  {
    NetworkIsReady(old(cloud.state));
    var cluster, vcn, found;
    ok, cluster, vcn, found := FindResumable(cloud, configured, running);
    TendsWider(old(cloud.state), cloud.state, {}, Pools);
    if !ok {
      return;
    }
    ok := Continue(cloud, cluster, vcn, found, sizes, old(cloud.state));
  }

  predicate VersionFits(configured: Option<string>, running: string) { configured.Some? ==> configured.value == running }

  // The deployment, if its cluster is of the configured version.
  method FindResumable(cloud: Cloud, configured: Option<string>, running: string)
    returns (ok: bool, cluster: Id, vcn: Id, found: map<Net, Record>)
    requires cloud.Valid() && cloud.exact
    modifies cloud`state, cloud`failures, cloud`lists
    ensures cloud.Valid() && Tends(old(cloud.state), cloud.state, {}) && cloud.ListsKept()
    ensures ok ==> Holds(cloud.state, Cluster, cluster) && Holds(cloud.state, Vcn, vcn)
    ensures ok ==> AllAvailable(found) && forall n :: NetKnown(cloud.state, n, found)
    ensures ok ==> cloud.failures == old(cloud.failures) && VersionFits(configured, running)
    ensures !ok && VersionFits(configured, running) && AllReady(old(cloud.state)) ==>
              cloud.failures > old(cloud.failures)
              || ((StrangerIn(cloud.lists, |old(cloud.lists)|) || StrangerIn(cloud.lists, |old(cloud.lists)| + 1))
                  && !(cloud.alone && NoStrangers(old(cloud.state))))
  {
    ok, cluster, vcn, found := FindDeployment(cloud);
    if ok {
      ok := CheckVersion(cloud, cluster, vcn, found, configured, running, old(cloud.state));
    }
  }

  // The version that the cluster runs, by a call that may fail.
  method CheckVersion(cloud: Cloud, cluster: Id, ghost vcn: Id, ghost found: map<Net, Record>,
                      configured: Option<string>, running: string, ghost first: State) returns (ok: bool)
    requires cloud.Valid() && Tends(first, cloud.state, {})
    requires Holds(cloud.state, Cluster, cluster) && Holds(cloud.state, Vcn, vcn)
    requires AllAvailable(found) && forall n :: NetKnown(cloud.state, n, found)
    modifies cloud`state, cloud`failures
    ensures cloud.Valid() && Tends(first, cloud.state, {})
    ensures Holds(cloud.state, Cluster, cluster) && Holds(cloud.state, Vcn, vcn)
    ensures forall n :: NetKnown(cloud.state, n, found)
    ensures ok <==> cloud.failures == old(cloud.failures) && VersionFits(configured, running)
    ensures cloud.failures >= old(cloud.failures)
  {
    ghost var s := cloud.state;
    var answer := cloud.Get(cluster);
    TendsTransitive(first, s, cloud.state, {});
    StillHolds(s, cloud.state, {}, Cluster, cluster);
    StillHolds(s, cloud.state, {}, Vcn, vcn);
    forall n ensures NetKnown(cloud.state, n, found) {
      StillKnown(s, cloud.state, {}, n, found);
    }
    return answer.Some? && VersionFits(configured, running);
  }

  // The node pools and the context, on the network that was found.
  method Continue(cloud: Cloud, cluster: Id, vcn: Id, found: map<Net, Record>, sizes: Sizes, ghost first: State) returns (ok: bool)
    requires cloud.Valid() && cloud.exact && Holds(cloud.state, Cluster, cluster) && Holds(cloud.state, Vcn, vcn)
    requires AllAvailable(found) && forall n :: NetKnown(cloud.state, n, found)
    requires Intact(first) && Tends(first, cloud.state, {}) && Tends(first, cloud.state, Pools)
    modifies cloud`state, cloud`failures, cloud`lists, cloud`context
    ensures cloud.Valid() && Tends(first, cloud.state, Pools) && Holds(cloud.state, Vcn, vcn)
    ensures ok ==> Complete(cloud.state, sizes) && cloud.context
    ensures !ok && Network(first) && PoolsFit(first) ==> cloud.failures > old(cloud.failures)
  {
    ghost var s := cloud.state;
    AvailableIsWired(s, vcn, found, map n | n in found :: found[n].id);
    NetworkFrom(s, vcn, map n | n in found :: found[n].id, cluster);
    if Network(first) && PoolsFit(first) {
      PoolsStillFit(first, s);
    }
    ok := PopulateCluster(cloud, vcn, cluster, found[WorkersSubnet].id, sizes);
    TendsTransitive(first, s, cloud.state, Pools);
  }

  lemma PoolsStillFit(s: State, t: State)
    requires Intact(s) && Intact(t) && Tends(s, t, {}) && OneReady(s, Cluster) && PoolsFit(s)
    ensures PoolsFit(t)
  {
    TendsKeepsGone(s, t, {});
    forall p ensures ReadyOrMissing(t, p) {
      assert ReadyOrMissing(s, p);
      if OneReady(s, Pool(p)) {
        StillOneReady(s, t, {}, Pool(p));
      }
    }
  }

  lemma NetworkIsReady(s: State)
    ensures Network(s) ==> AllReady(s)
  {
    if Network(s) {
      forall n ensures HasReady(s, Child(n)) {
        assert OneReady(s, Child(n));
      }
    }
  }

  ghost predicate AllReady(s: State) {
    HasReady(s, Vcn) && HasReady(s, Cluster) && forall n :: HasReady(s, Child(n))
  }

  lemma ReadyIsAvailable(first: State, s: State, found: map<Net, Record>)
    requires AllReady(first) && Tends(first, s, {}) && ReadyFound(s, CreateOrder, found)
    ensures AllAvailable(found)
  {
    forall i | 0 <= i < |CreateOrder| ensures CreateOrder[i] in found && found[CreateOrder[i]].life == Ready {
      StillHasReady(first, s, Child(CreateOrder[i]));
    }
  }

  method FindDeployment(cloud: Cloud) returns (ok: bool, cluster: Id, vcn: Id, found: map<Net, Record>)
    requires cloud.Valid() && cloud.exact
    modifies cloud`state, cloud`failures, cloud`lists
    ensures cloud.Valid() && Tends(old(cloud.state), cloud.state, {}) && cloud.ListsKept()
    ensures ok ==> Holds(cloud.state, Cluster, cluster) && Holds(cloud.state, Vcn, vcn)
    ensures ok ==> AllAvailable(found) && forall n :: NetKnown(cloud.state, n, found)
    ensures ok ==> cloud.failures == old(cloud.failures)
    ensures !ok && AllReady(old(cloud.state)) ==>
              cloud.failures > old(cloud.failures)
              || ((StrangerIn(cloud.lists, |old(cloud.lists)|) || StrangerIn(cloud.lists, |old(cloud.lists)| + 1))
                  && !(cloud.alone && NoStrangers(old(cloud.state))))
  {
    found := map[];
    ok, cluster, vcn := SelectParents(cloud);
    if !ok {
      return;
    }
    ghost var s := cloud.state;
    ok, found := LookupNetwork(cloud, vcn);
    TendsTransitive(old(cloud.state), s, cloud.state, {});
    StillHolds(s, cloud.state, {}, Cluster, cluster);
    StillHolds(s, cloud.state, {}, Vcn, vcn);
    if ok && AllReady(old(cloud.state)) {
      ReadyIsAvailable(old(cloud.state), s, found);
    }
    ok := ok && AllAvailable(found);
  }

  // oke_select_resume_parents
  method SelectParents(cloud: Cloud) returns (ok: bool, cluster: Id, vcn: Id)
    requires cloud.Valid() && cloud.exact
    modifies cloud`state, cloud`failures, cloud`lists
    ensures cloud.Valid() && Tends(old(cloud.state), cloud.state, {}) && cloud.ListsKept()
    ensures ok ==> Holds(cloud.state, Cluster, cluster) && Holds(cloud.state, Vcn, vcn) && cloud.failures == old(cloud.failures)
    ensures !ok && HasReady(old(cloud.state), Cluster) && HasReady(old(cloud.state), Vcn) ==>
              cloud.failures > old(cloud.failures)
              || ((StrangerIn(cloud.lists, |old(cloud.lists)|) || StrangerIn(cloud.lists, |old(cloud.lists)| + 1))
                  && !(cloud.alone && NoStrangers(old(cloud.state))))
  {
    var c := SelectParent(cloud, Cluster);
    if c.None? {
      return false, 0, 0;
    }
    ghost var s := cloud.state;
    var v := SelectParent(cloud, Vcn);
    TendsTransitive(old(cloud.state), s, cloud.state, {});
    StillHolds(s, cloud.state, {}, Cluster, c.value);
    if HasReady(old(cloud.state), Vcn) {
      StillHasReady(old(cloud.state), s, Vcn);
    }
    return v.Some?, c.value, if v.Some? then v.value else 0;
  }

  // --- A deployment's life --------------------------------------------------------------------

  /** From wherever a create stopped, a -d that completes leaves nothing of the deployment live
      and no context, and the create preflight then passes again, unless a list call fails or a
      stranger's resource of the same name is live. */
  method CreateThenDelete(cloud: Cloud, sizes: Sizes, maxWait: nat, interval: nat, attempts: nat)
    returns (deleted: bool, v: Verdict, ghost asked: nat)
    requires cloud.Valid() && cloud.exact && !cloud.context && interval >= 1 && attempts >= 1
    modifies cloud
    ensures cloud.Valid()
    ensures deleted ==> NoneLive(cloud.state) && !cloud.context
    ensures deleted ==> v == Clear || v == ListFailed || (asked < |cloud.answers| && Strangers(cloud.answers[asked]))
  {
    var created := CreateOke(cloud, sizes, attempts);
    ghost var s := cloud.state;
    cloud.Interfere();
    StandingStays(s, cloud.state);
    deleted := DeleteOke(cloud, maxWait, interval, attempts);
    v, asked := Waiting, |cloud.answers|;
    if deleted {
      v := CheckCreateCollisions(cloud, attempts);
    }
  }

  lemma StandingStays(s: State, t: State)
    requires Tends(s, t, {})
    ensures NoneStanding(t, Vcn) ==> NoneStanding(s, Vcn)
  {
    forall id | LiveMine(s, id) && s[id].kind == Vcn && Standing(s[id]) ensures !NoneStanding(t, Vcn) {
      assert Stays(s, t, id, {});
      assert LiveMine(t, id) && t[id].kind == Vcn;
    }
  }

  // --- A context that outlives its deployment -----------------------------------------------------

  // OCI may answer with an empty list exactly if nothing of the name is live: terminal records
  // may have been forgotten.
  lemma EmptyListIsAnAnswerIff(s: State, kind: Kind)
    ensures Listed(s, kind, None, []) <==> forall id :: id in s && Asked(s[id], kind, None) ==> s[id].life == Gone
  {
    assert forall id :: id in s ==> RecordOf(id, s[id]) !in [];
  }

  /** A -d after one that was cut off before it removed the context, when nothing is live any more:
      it completes unless a call fails, and keeps the context exactly if neither of its lists shows
      a tagged record. */
  method DeleteAgain(cloud: Cloud, maxWait: nat, interval: nat, attempts: nat) returns (deleted: bool)
    requires cloud.Valid() && cloud.exact && interval >= 1 && attempts >= 1
    requires NoneLive(cloud.state) && cloud.context
    modifies cloud
    ensures cloud.Valid()
    ensures !deleted ==> cloud.failures > old(cloud.failures)
    ensures deleted ==> |cloud.lists| >= |old(cloud.lists)| + 2
    ensures deleted ==> NoneLive(cloud.state) && (cloud.context <==> !TagShown(cloud.lists, |old(cloud.lists)|))
  {
    deleted := DeleteOke(cloud, maxWait, interval, attempts);
  }
}
