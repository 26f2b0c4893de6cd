/** makeBasicCluster.bash: a create from nothing, a --resume, and what a later -d makes of either,
    wherever they stopped. */
module OkeCreate {
  import opened Options
  import opened OkeState
  import opened OkeCloud
  import opened OkeTeardown

  datatype Sizes = Sizes(system: nat, scylla: nat, application: Option<nat>)

  ghost predicate Holds(s: State, k: Kind, id: Id) {
    LiveMine(s, id) && s[id].kind == k && s[id].life == Ready
  }

  // Exactly one resource of the kind is live, and it is ready.
  ghost predicate OneReady(s: State, k: Kind) {
    exists id :: Holds(s, k, id) && forall x :: LiveMine(s, x) && s[x].kind == k ==> x == id
  }

  ghost predicate Sized(s: State, p: PoolName, size: nat) {
    forall id :: LiveMine(s, id) && s[id].kind == Pool(p) ==> s[id].size == size
  }

  ghost predicate Network(s: State) {
    OneReady(s, Vcn) && OneReady(s, Cluster) && forall n :: OneReady(s, Child(n))
  }

  /** A complete deployment: every resource once, every configured pool once; the pools that a
      resume brings to their size have it. */
  ghost predicate Complete(s: State, sizes: Sizes) {
    && Network(s)
    && OneReady(s, Pool(System)) && Sized(s, System, sizes.system)
    && OneReady(s, Pool(Scylla))
    && (sizes.application.Some? ==> OneReady(s, Pool(Application)) && Sized(s, Application, sizes.application.value))
  }

  lemma HoldsIsOne(s: State, k: Kind, id: Id)
    requires Intact(s) && Holds(s, k, id)
    ensures OneReady(s, k)
  {
  }

  lemma StillHolds(s: State, t: State, ks: set<Kind>, k: Kind, id: Id)
    requires Tends(s, t, ks) && k !in ks && !k.Pool? && Holds(s, k, id)
    ensures Holds(t, k, id)
  {
    assert Stays(s, t, id, ks);
  }

  lemma StillOneReady(s: State, t: State, ks: set<Kind>, k: Kind)
    requires Intact(s) && Intact(t) && Tends(s, t, ks) && Cluster !in ks && k !in ks && OneReady(s, k)
    requires k.Pool? ==> OneReady(s, Cluster)
    ensures OneReady(t, k)
    ensures k.Pool? ==> forall size :: Sized(s, k.pool, size) ==> Sized(t, k.pool, size)
  {
    var id :| Holds(s, k, id);
    assert Stays(s, t, id, ks);
    if k.Pool? {
      assert Rooted(s, id);
      var c :| Holds(s, Cluster, c);
      assert LiveMine(s, s[id].home) && s[id].home == c;
    }
    HoldsIsOne(t, k, id);
  }

  lemma StillNetwork(s: State, t: State, ks: set<Kind>)
    requires Intact(s) && Intact(t) && Tends(s, t, ks) && Network(s)
    requires forall k :: k in ks ==> k.Pool?
    ensures Network(t)
  {
    StillOneReady(s, t, ks, Vcn);
    StillOneReady(s, t, ks, Cluster);
    forall n ensures OneReady(t, Child(n)) {
      StillOneReady(s, t, ks, Child(n));
    }
  }

  // --- Node pools -----------------------------------------------------------------------------

  lemma PoolsOf(s: State, p: PoolName, cluster: Id)
    requires Intact(s) && LiveMine(s, cluster) && s[cluster].kind == Cluster
    ensures forall id :: LiveMine(s, id) && s[id].kind == Pool(p) ==> Asked(s[id], Pool(p), Some(cluster))
    ensures forall id :: id in s && Asked(s[id], Pool(p), Some(cluster)) ==> s[id].mine
  {
    forall id | LiveMine(s, id) && s[id].kind == Pool(p) ensures Asked(s[id], Pool(p), Some(cluster)) {
      assert Rooted(s, id);
    }
    forall id | id in s && !s[id].mine ensures !Asked(s[id], Pool(p), Some(cluster)) {
      assert Detached(s, s[id]);
    }
  }

  // lookup_node_pool_state
  method LookupPool(cloud: Cloud, p: PoolName, cluster: Id) returns (ok: bool, found: Option<Record>)
    requires cloud.Valid() && cloud.exact && Holds(cloud.state, Cluster, cluster)
    modifies cloud`state, cloud`failures, cloud`lists
    ensures cloud.Drifted() && Holds(cloud.state, Cluster, cluster)
    ensures cloud.failures == old(cloud.failures) + if ok then 0 else 1
    ensures ok && found.None? ==> KindGone(cloud.state, Pool(p))
    ensures ok && found.Some? ==>
              LiveMine(cloud.state, found.value.id) && found.value == RecordOf(found.value.id, cloud.state[found.value.id])
              && found.value.kind == Pool(p) && cloud.state[found.value.id].home == cluster
  {
    var listed := cloud.List(Pool(p), Some(cluster));
    StillHolds(old(cloud.state), cloud.state, {}, Cluster, cluster);
    if listed.None? {
      return false, None;
    }
    var matching := LiveRecords(listed.value);
    PoolsOf(cloud.state, p, cluster);
    ListFinds(cloud.state, Pool(p), Some(cluster), listed.value, matching);
    if |matching| > 1 {
      assert false;
    }
    if matching == [] {
      return true, None;
    }
    assert matching[0] in matching;
    return true, Some(matching[0]);
  }

  lemma ClusterReady(s: State, cluster: Id)
    requires Intact(s) && Holds(s, Cluster, cluster)
    ensures OneReady(s, Cluster)
  {
    HoldsIsOne(s, Cluster, cluster);
  }

  // require_active_node_pool
  method RequireActive(cloud: Cloud, p: PoolName, cluster: Id) returns (ok: bool)
    requires cloud.Valid() && cloud.exact && Holds(cloud.state, Cluster, cluster)
    modifies cloud`state, cloud`failures, cloud`lists
    ensures cloud.Drifted() && Holds(cloud.state, Cluster, cluster)
    ensures ok ==> OneReady(cloud.state, Pool(p)) && cloud.failures == old(cloud.failures)
    ensures !ok && OneReady(old(cloud.state), Pool(p)) ==> cloud.failures > old(cloud.failures)
  {
    ClusterReady(cloud.state, cluster);
    var found;
    ok, found := LookupPool(cloud, p, cluster);
    if OneReady(old(cloud.state), Pool(p)) {
      StillOneReady(old(cloud.state), cloud.state, {}, Pool(p));
    }
    if !ok || found.None? || found.value.life != Ready {
      return false;
    }
    HoldsIsOne(cloud.state, Pool(p), found.value.id);
  }

  // reconcile_node_pool_size: only for a pool that is ready
  method ReconcileSize(cloud: Cloud, p: PoolName, id: Id, cluster: Id, size: nat) returns (ok: bool)
    requires cloud.Valid() && cloud.exact && Holds(cloud.state, Cluster, cluster)
    requires Holds(cloud.state, Pool(p), id) && cloud.state[id].home == cluster
    modifies cloud`state, cloud`failures, cloud`lists
    ensures cloud.Valid() && cloud.context == old(cloud.context)
    ensures Tends(old(cloud.state), cloud.state, {Pool(p)})
    ensures ok ==> OneReady(cloud.state, Pool(p)) && Sized(cloud.state, p, size)
    ensures if ok then cloud.failures == old(cloud.failures) else cloud.failures > old(cloud.failures)
  {
    var current := cloud.Size(id);
    assert Stays(old(cloud.state), cloud.state, id, {});
    TendsWider(old(cloud.state), cloud.state, {}, {Pool(p)});
    StillHolds(old(cloud.state), cloud.state, {}, Cluster, cluster);
    if current.None? {
      return false;
    }
    if current.value == size {
      HoldsIsOne(cloud.state, Pool(p), id);
      return true;
    }
    ghost var s := cloud.state;
    ok := ResizePool(cloud, p, id, cluster, size);
    TendsTransitive(old(cloud.state), s, cloud.state, {Pool(p)});
  }

  method ResizePool(cloud: Cloud, p: PoolName, id: Id, cluster: Id, size: nat) returns (ok: bool)
    requires cloud.Valid() && cloud.exact && Holds(cloud.state, Cluster, cluster)
    requires Holds(cloud.state, Pool(p), id) && cloud.state[id].home == cluster
    modifies cloud`state, cloud`failures, cloud`lists
    ensures cloud.Valid() && cloud.context == old(cloud.context)
    ensures Tends(old(cloud.state), cloud.state, {Pool(p)})
    ensures ok ==> OneReady(cloud.state, Pool(p)) && Sized(cloud.state, p, size)
    ensures if ok then cloud.failures == old(cloud.failures) else cloud.failures > old(cloud.failures)
  {
    ok := cloud.Resize(id, size);
    ghost var s := cloud.state;
    StillHolds(old(cloud.state), s, {Pool(p)}, Cluster, cluster);
    if ok {
      HoldsIsOne(s, Pool(p), id);
      ok := Settled(cloud, p, cluster, size);
      TendsWider(s, cloud.state, {}, {Pool(p)});
      TendsTransitive(old(cloud.state), s, cloud.state, {Pool(p)});
    }
  }

  method Settled(cloud: Cloud, p: PoolName, cluster: Id, size: nat) returns (ok: bool)
    requires cloud.Valid() && cloud.exact && Holds(cloud.state, Cluster, cluster)
    requires OneReady(cloud.state, Pool(p)) && Sized(cloud.state, p, size)
    modifies cloud`state, cloud`failures, cloud`lists
    ensures cloud.Drifted() && Holds(cloud.state, Cluster, cluster)
    ensures ok ==> OneReady(cloud.state, Pool(p)) && Sized(cloud.state, p, size)
    ensures if ok then cloud.failures == old(cloud.failures) else cloud.failures > old(cloud.failures)
  {
    ok := RequireActive(cloud, p, cluster);
    forall id | LiveMine(cloud.state, id) && cloud.state[id].kind == Pool(p) ensures cloud.state[id].size == size {
      assert Stays(old(cloud.state), cloud.state, id, {});
    }
  }

  ghost predicate ReadyOrMissing(s: State, p: PoolName) { KindGone(s, Pool(p)) || OneReady(s, Pool(p)) }

  ghost predicate PoolsFit(s: State) { forall p :: ReadyOrMissing(s, p) }

  lemma StillReadyOrMissing(s: State, t: State, p: PoolName, q: PoolName)
    requires Intact(s) && Intact(t) && Tends(s, t, {Pool(p)}) && OneReady(s, Cluster) && p != q
    ensures ReadyOrMissing(s, q) ==> ReadyOrMissing(t, q)
  {
    TendsKeepsGone(s, t, {Pool(p)});
    if OneReady(s, Pool(q)) {
      StillOneReady(s, t, {Pool(p)}, Pool(q));
    }
  }

  /** One pool of a create or a resume: a ready one is reused, and brought to its size if that
      is wanted; one that is there but not ready is never touched; a missing one is created.  If
      it was ready or missing, only a failing call keeps it from being there in the end; if the run
      stops although no call failed, or the pool was ready and is not to be resized, nothing was
      changed. */
  method EnsurePool(cloud: Cloud, p: PoolName, cluster: Id, workers: Id, size: nat, resize: bool) returns (ok: bool)
    requires cloud.Valid() && cloud.exact
    requires Holds(cloud.state, Cluster, cluster) && Holds(cloud.state, Child(WorkersSubnet), workers)
    modifies cloud`state, cloud`failures, cloud`lists
    ensures cloud.Valid() && cloud.context == old(cloud.context)
    ensures Tends(old(cloud.state), cloud.state, {Pool(p)})
    ensures ok ==> OneReady(cloud.state, Pool(p)) && (resize ==> Sized(cloud.state, p, size))
    ensures ok ==> cloud.failures == old(cloud.failures)
    ensures !ok && ReadyOrMissing(old(cloud.state), p) ==> cloud.failures > old(cloud.failures)
    ensures !ok && cloud.failures == old(cloud.failures) ==> Tends(old(cloud.state), cloud.state, {})
    ensures !resize && OneReady(old(cloud.state), Pool(p)) ==> Tends(old(cloud.state), cloud.state, {})
  {
    var found;
    ClusterReady(cloud.state, cluster);
    ok, found := LookupPool(cloud, p, cluster);
    ghost var s := cloud.state;
    TendsWider(old(cloud.state), s, {}, {Pool(p)});
    StillHolds(old(cloud.state), s, {}, Child(WorkersSubnet), workers);
    if !ok {
      return false;
    }
    if OneReady(old(cloud.state), Pool(p)) {
      StillOneReady(old(cloud.state), s, {}, Pool(p));
    }
    if found.Some? {
      if found.value.life != Ready {
        return false;
      }
      HoldsIsOne(s, Pool(p), found.value.id);
      if resize {
        ok := ReconcileSize(cloud, p, found.value.id, cluster, size);
        TendsTransitive(old(cloud.state), s, cloud.state, {Pool(p)});
      }
    } else {
      ok := CreatePool(cloud, p, cluster, workers, size);
      TendsTransitive(old(cloud.state), s, cloud.state, {Pool(p)});
    }
  }

  method CreatePool(cloud: Cloud, p: PoolName, cluster: Id, workers: Id, size: nat) returns (ok: bool)
    requires cloud.Valid() && cloud.exact && KindGone(cloud.state, Pool(p))
    requires Holds(cloud.state, Cluster, cluster) && Holds(cloud.state, Child(WorkersSubnet), workers)
    modifies cloud`state, cloud`failures, cloud`lists
    ensures cloud.Valid() && cloud.context == old(cloud.context)
    ensures Tends(old(cloud.state), cloud.state, {Pool(p)})
    ensures ok ==> OneReady(cloud.state, Pool(p)) && Sized(cloud.state, p, size)
    ensures if ok then cloud.failures == old(cloud.failures) else cloud.failures > old(cloud.failures)
  {
    var id := cloud.Create(Resource(Pool(p), true, true, cluster, {workers}, size, Creating));
    ghost var s := cloud.state;
    if id.None? {
      return false;
    }
    StillHolds(old(cloud.state), s, {Pool(p)}, Cluster, cluster);
    HoldsIsOne(s, Pool(p), id.value);
    ok := Settled(cloud, p, cluster, size);
    TendsWider(s, cloud.state, {}, {Pool(p)});
    TendsTransitive(old(cloud.state), s, cloud.state, {Pool(p)});
  }

  const Pools: set<Kind> := {Pool(System), Pool(Scylla), Pool(Application)}

  // The configured pools in their order; the ScyllaDB pool is never resized.
  method EnsurePools(cloud: Cloud, cluster: Id, workers: Id, sizes: Sizes) returns (ok: bool)
    requires cloud.Valid() && cloud.exact && Network(cloud.state)
    requires Holds(cloud.state, Cluster, cluster) && Holds(cloud.state, Child(WorkersSubnet), workers)
    modifies cloud`state, cloud`failures, cloud`lists
    ensures cloud.Valid() && cloud.context == old(cloud.context) && Network(cloud.state)
    ensures Tends(old(cloud.state), cloud.state, Pools)
    ensures ok ==> Complete(cloud.state, sizes) && cloud.failures == old(cloud.failures)
    ensures !ok && PoolsFit(old(cloud.state)) ==> cloud.failures > old(cloud.failures)
  {
    ok := EnsurePool(cloud, System, cluster, workers, sizes.system, true);
    PoolStep(old(cloud.state), old(cloud.state), cloud.state, System, cluster, workers);
    StillReadyOrMissing(old(cloud.state), cloud.state, System, Scylla);
    StillReadyOrMissing(old(cloud.state), cloud.state, System, Application);
    if ok {
      ghost var s := cloud.state;
      ok := EnsureScylla(cloud, cluster, workers, sizes);
      TendsTransitive(old(cloud.state), s, cloud.state, Pools);
    }
  }

  method EnsureScylla(cloud: Cloud, cluster: Id, workers: Id, sizes: Sizes) returns (ok: bool)
    requires cloud.Valid() && cloud.exact && Network(cloud.state)
    requires OneReady(cloud.state, Pool(System)) && Sized(cloud.state, System, sizes.system)
    requires Holds(cloud.state, Cluster, cluster) && Holds(cloud.state, Child(WorkersSubnet), workers)
    modifies cloud`state, cloud`failures, cloud`lists
    ensures cloud.Valid() && cloud.context == old(cloud.context) && Network(cloud.state)
    ensures Tends(old(cloud.state), cloud.state, Pools)
    ensures ok ==> Complete(cloud.state, sizes) && cloud.failures == old(cloud.failures)
    ensures !ok && ReadyOrMissing(old(cloud.state), Scylla) && ReadyOrMissing(old(cloud.state), Application) ==>
              cloud.failures > old(cloud.failures)
  {
    ok := EnsurePool(cloud, Scylla, cluster, workers, sizes.scylla, false);
    ghost var s := cloud.state;
    PoolStep(old(cloud.state), old(cloud.state), s, Scylla, cluster, workers);
    StillOneReady(old(cloud.state), s, {Pool(Scylla)}, Pool(System));
    StillReadyOrMissing(old(cloud.state), s, Scylla, Application);
    if ok && sizes.application.Some? {
      ok := EnsureApplication(cloud, cluster, workers, sizes);
      TendsTransitive(old(cloud.state), s, cloud.state, Pools);
    }
  }

  method EnsureApplication(cloud: Cloud, cluster: Id, workers: Id, sizes: Sizes) returns (ok: bool)
    requires cloud.Valid() && cloud.exact && Complete(cloud.state, sizes.(application := None)) && sizes.application.Some?
    requires Holds(cloud.state, Cluster, cluster) && Holds(cloud.state, Child(WorkersSubnet), workers)
    modifies cloud`state, cloud`failures, cloud`lists
    ensures cloud.Valid() && cloud.context == old(cloud.context) && Network(cloud.state)
    ensures Tends(old(cloud.state), cloud.state, Pools)
    ensures ok ==> Complete(cloud.state, sizes) && cloud.failures == old(cloud.failures)
    ensures !ok && ReadyOrMissing(old(cloud.state), Application) ==> cloud.failures > old(cloud.failures)
  {
    ok := EnsurePool(cloud, Application, cluster, workers, sizes.application.value, true);
    PoolStep(old(cloud.state), old(cloud.state), cloud.state, Application, cluster, workers);
    StillOneReady(old(cloud.state), cloud.state, {Pool(Application)}, Pool(System));
    StillOneReady(old(cloud.state), cloud.state, {Pool(Application)}, Pool(Scylla));
  }

  lemma PoolStep(r: State, s: State, t: State, p: PoolName, cluster: Id, workers: Id)
    requires Intact(s) && Intact(t) && Network(s) && Tends(s, t, {Pool(p)}) && (r == s || Tends(r, s, Pools))
    requires Holds(s, Cluster, cluster) && Holds(s, Child(WorkersSubnet), workers)
    ensures Network(t) && Holds(t, Cluster, cluster) && Holds(t, Child(WorkersSubnet), workers)
    ensures Tends(r, t, Pools)
  {
    StillNetwork(s, t, {Pool(p)});
    StillHolds(s, t, {Pool(p)}, Cluster, cluster);
    StillHolds(s, t, {Pool(p)}, Child(WorkersSubnet), workers);
    TendsWider(s, t, {Pool(p)}, Pools);
    if r != s {
      TendsTransitive(r, s, t, Pools);
    }
  }
}
