/** makeBasicCluster.bash -d: the deletions in their order, and the check that nothing is left. */
module OkeTeardown {
  import opened Options
  import opened OkeState
  import opened OkeCloud

  method WaitForTerminalGet(cloud: Cloud, id: Id, maxWait: nat, interval: nat) returns (ok: bool)
    requires cloud.Valid() && id in cloud.state && cloud.state[id].mine && interval >= 1
    modifies cloud`state, cloud`sleeps, cloud`failures
    ensures cloud.Valid() && cloud.context == old(cloud.context) && cloud.answers == old(cloud.answers)
    ensures Tends(old(cloud.state), cloud.state, {}) && Shrinks(old(cloud.state), cloud.state)
    ensures ok ==> id in cloud.state && cloud.state[id].life == Gone
    ensures if ok then cloud.failures == old(cloud.failures) else cloud.failures > old(cloud.failures)
    ensures cloud.sleeps - old(cloud.sleeps) <= maxWait / interval
  {
    var attempts := maxWait / interval + 1;
    var attempt := 1;
    while attempt <= attempts
      invariant 1 <= attempt <= attempts + 1
      invariant cloud.Valid() && id in cloud.state && cloud.state[id].mine
      invariant Tends(old(cloud.state), cloud.state, {}) && Shrinks(old(cloud.state), cloud.state)
      invariant cloud.sleeps - old(cloud.sleeps) == if attempt <= attempts then attempt - 1 else attempts - 1
      invariant cloud.failures == old(cloud.failures)
    {
      ghost var s := cloud.state;
      var life := cloud.Get(id);
      TendsTransitive(old(cloud.state), s, cloud.state, {});
      if life.None? {
        return false;
      }
      if life.value == Gone {
        return true;
      }
      if attempt < attempts {
        s := cloud.state;
        cloud.Sleep();
        TendsTransitive(old(cloud.state), s, cloud.state, {});
        assert Same(s, cloud.state, id);
      }
      attempt := attempt + 1;
    }
    cloud.failures := cloud.failures + 1;
    return false;
  }

  // What a run knows of a resource that it found: one that was not being deleted still stands,
  // and one that was ready still is.
  ghost predicate Known(s: State, r: Record) {
    r.id in s && s[r.id].mine && s[r.id].kind == r.kind
    && if r.life == Deleting then s[r.id].life in {Deleting, Gone} else Standing(s[r.id])
  }

  ghost predicate Fresh(s: State, r: Record) {
    Known(s, r) && (r.life == Ready ==> s[r.id].life == Ready)
  }

  // delete_cluster_record and delete_network_record
  method DeleteRecord(cloud: Cloud, r: Record, maxWait: nat, interval: nat) returns (ok: bool)
    requires cloud.Valid() && Known(cloud.state, r) && !r.kind.Pool? && Cleared(cloud.state, Rank(r.kind))
    requires interval >= 1
    modifies cloud`state, cloud`sleeps, cloud`failures
    ensures cloud.Valid() && cloud.context == old(cloud.context) && cloud.answers == old(cloud.answers)
    ensures Tends(old(cloud.state), cloud.state, Touched(r.kind)) && Shrinks(old(cloud.state), cloud.state)
    ensures ok ==> r.id in cloud.state && cloud.state[r.id].life == Gone
    ensures if ok then cloud.failures == old(cloud.failures) else cloud.failures > old(cloud.failures)
  {
    if r.life == Deleting {
      ok := WaitForTerminalGet(cloud, r.id, maxWait, interval);
      TendsWider(old(cloud.state), cloud.state, {}, Touched(r.kind));
    } else {
      ClearedIsUnreferenced(cloud.state, r.id);
      ok := cloud.Delete(r.id);
    }
  }

  // The one live tagged resource of its kind, if there is one, was found.
  ghost predicate AllFound(s: State, kind: Kind, found: seq<Record>) {
    && |found| <= 1
    && (forall r :: r in found ==> Fresh(s, r) && LiveMine(s, r.id) && r.kind == kind)
    && forall id :: LiveMine(s, id) && s[id].kind == kind ==> found != [] && found[0].id == id
  }

  lemma TwoDiffer(rs: seq<Record>)
    requires DistinctIds(rs) && |rs| > 1
    ensures exists a, b :: a in rs && b in rs && a.id != b.id
  {
    assert rs[0] in rs && rs[1] in rs && rs[0].id != rs[1].id;
  }

  lemma ListFinds(s: State, kind: Kind, home: Option<Id>, rs: seq<Record>, found: seq<Record>)
    requires Intact(s) && Listed(s, kind, home, rs) && DistinctIds(rs)
    requires forall id :: LiveMine(s, id) && s[id].kind == kind ==> Asked(s[id], kind, home)
    requires found == Owned(LiveRecords(rs)) || (found == LiveRecords(rs) && forall r :: r in rs ==> r.mine)
    ensures AllFound(s, kind, found)
  {
    FilterDistinct((r: Record) => r.life != Gone, rs);
    FilterDistinct((r: Record) => r.mine, LiveRecords(rs));
    forall r | r in found ensures Fresh(s, r) && LiveMine(s, r.id) && r.kind == kind {
      assert r == RecordOf(r.id, s[r.id]);
    }
    if |found| > 1 {
      TwoDiffer(found);
      assert false;
    }
    forall id | LiveMine(s, id) && s[id].kind == kind ensures found != [] && found[0].id == id {
      assert RecordOf(id, s[id]) in rs;
      assert RecordOf(id, s[id]) in found;
    }
  }

  // If the one resource of its kind that was found is gone, none is live.
  lemma FoundGone(s: State, t: State, kind: Kind, found: seq<Record>)
    requires AllFound(s, kind, found) && Shrinks(s, t)
    requires found != [] ==> found[0].id in t && t[found[0].id].life == Gone
    ensures KindGone(t, kind)
  {
  }

  lemma ParentsNamed(s: State, kind: Kind)
    requires Intact(s) && (kind == Vcn || kind == Cluster)
    ensures forall id :: LiveMine(s, id) && s[id].kind == kind ==> s[id].name
  {
    forall id | LiveMine(s, id) && s[id].kind == kind ensures s[id].name {
      assert Rooted(s, id);
    }
  }

  lemma ClusterGoneClears(s: State)
    requires Intact(s) && KindGone(s, Cluster)
    ensures Cleared(s, 1)
  {
    forall id | LiveMine(s, id) ensures Rank(s[id].kind) >= 1 {
      assert Rooted(s, id);
    }
  }

  // No resource of the kind was there, or it was being deleted.
  ghost predicate NoneStanding(s: State, kind: Kind) {
    forall id :: LiveMine(s, id) && s[id].kind == kind ==> !Standing(s[id])
  }

  // The records of the live tagged clusters or VCNs, and whether any record is tagged.
  method ListOwned(cloud: Cloud, kind: Kind) returns (found: Option<seq<Record>>, any: bool)
    requires cloud.Valid() && cloud.exact && (kind == Vcn || kind == Cluster)
    modifies cloud`state, cloud`failures, cloud`lists
    ensures cloud.Drifted()
    ensures found.Some? ==> AllFound(cloud.state, kind, found.value)
    ensures found.Some? && !any ==> NoneStanding(old(cloud.state), kind)
    ensures cloud.failures == old(cloud.failures) + if found.None? then 1 else 0
    ensures found.Some? ==> |cloud.lists| == |old(cloud.lists)| + 1 && cloud.ListsKept()
    ensures found.Some? ==> (any <==> Owned(cloud.lists[|old(cloud.lists)|]) != [])
  {
    var listed := cloud.List(kind, None);
    if listed.None? {
      return None, false;
    }
    ParentsNamed(cloud.state, kind);
    ListFinds(cloud.state, kind, None, listed.value, Owned(LiveRecords(listed.value)));
    StandingIsListed(old(cloud.state), cloud.state, kind, listed.value);
    return Some(Owned(LiveRecords(listed.value))), Owned(listed.value) != [];
  }

  lemma StandingIsListed(s: State, t: State, kind: Kind, rs: seq<Record>)
    requires Intact(s) && Intact(t) && Tends(s, t, {}) && Listed(t, kind, None, rs) && (kind == Vcn || kind == Cluster)
    ensures Owned(rs) == [] ==> NoneStanding(s, kind)
  {
    forall id | LiveMine(s, id) && s[id].kind == kind && Standing(s[id]) ensures Owned(rs) != [] {
      assert Stays(s, t, id, {});
      ParentsNamed(t, kind);
      assert RecordOf(id, t[id]) in rs;
      assert RecordOf(id, t[id]) in Owned(rs);
    }
  }

  // The deletion of the live tagged clusters, with their node pools.
  method DeleteClusters(cloud: Cloud, found: seq<Record>, maxWait: nat, interval: nat) returns (ok: bool)
    requires cloud.Valid() && AllFound(cloud.state, Cluster, found) && interval >= 1
    modifies cloud`state, cloud`sleeps, cloud`failures
    ensures cloud.Valid() && cloud.context == old(cloud.context) && cloud.answers == old(cloud.answers)
    ensures Tends(old(cloud.state), cloud.state, Touched(Cluster)) && Shrinks(old(cloud.state), cloud.state)
    ensures ok ==> Cleared(cloud.state, 1)
    ensures if ok then cloud.failures == old(cloud.failures) else cloud.failures > old(cloud.failures)
  {
    for i := 0 to |found|
      invariant cloud.Valid() && cloud.failures == old(cloud.failures)
      invariant Tends(old(cloud.state), cloud.state, Touched(Cluster)) && Shrinks(old(cloud.state), cloud.state)
      invariant i == 0 ==> cloud.state == old(cloud.state)
      invariant i > 0 ==> found[0].id in cloud.state && cloud.state[found[0].id].life == Gone
    {
      assert found[i] in found;
      ok := DeleteRecord(cloud, found[i], maxWait, interval);
      if !ok {
        return;
      }
    }
    FoundGone(old(cloud.state), cloud.state, Cluster, found);
    ClusterGoneClears(cloud.state);
    ok := true;
  }

  // --- The network ----------------------------------------------------------------------------

  // Either the one live resource of its kind is known, or there is none.
  ghost predicate NetKnown(s: State, n: Net, found: map<Net, Record>) {
    if n in found then
      Fresh(s, found[n]) && found[n].kind == Child(n)
      && forall id :: LiveMine(s, id) && s[id].kind == Child(n) ==> id == found[n].id
    else KindGone(s, Child(n))
  }

  lemma StillKnown(s: State, t: State, ks: set<Kind>, n: Net, found: map<Net, Record>)
    requires Tends(s, t, ks) && Shrinks(s, t) && Child(n) !in ks && NetKnown(s, n, found)
    ensures NetKnown(t, n, found)
  {
    if n in found {
      assert Stays(s, t, found[n].id, ks);
    } else {
      ShrinksKeeps(s, t);
    }
  }

  ghost predicate StandingVcn(s: State, vcn: Id) {
    vcn in s && s[vcn].mine && s[vcn].kind == Vcn && Standing(s[vcn])
  }

  lemma ChildrenOf(s: State, vcn: Id, n: Net)
    requires Intact(s) && StandingVcn(s, vcn)
    ensures forall id :: LiveMine(s, id) && s[id].kind == Child(n) ==> Asked(s[id], Child(n), Some(vcn))
    ensures forall id :: id in s && Asked(s[id], Child(n), Some(vcn)) ==> s[id].mine
  {
    forall id | LiveMine(s, id) && s[id].kind == Child(n) ensures Asked(s[id], Child(n), Some(vcn)) {
      assert Sound(s, id) && Rooted(s, id);
      assert LiveMine(s, s[id].home) && LiveMine(s, vcn);
    }
    forall id | id in s && !s[id].mine ensures !Asked(s[id], Child(n), Some(vcn)) {
      assert Detached(s, s[id]);
    }
  }

  ghost predicate HasReady(s: State, k: Kind) {
    exists id :: LiveMine(s, id) && s[id].kind == k && s[id].life == Ready
  }

  lemma StillHasReady(s: State, t: State, k: Kind)
    requires Tends(s, t, {}) && !k.Pool? && HasReady(s, k)
    ensures HasReady(t, k)
  {
    var id :| LiveMine(s, id) && s[id].kind == k && s[id].life == Ready;
    assert Stays(s, t, id, {});
  }

  // A ready resource is listed as ready.
  lemma ReadyIsFound(s: State, k: Kind, home: Option<Id>, rs: seq<Record>, found: seq<Record>)
    requires Listed(s, k, home, rs) && AllFound(s, k, found) && (forall r :: r in found ==> r in rs) && HasReady(s, k)
    ensures found != [] && found[0].life == Ready
  {
    var id :| LiveMine(s, id) && s[id].kind == k && s[id].life == Ready;
    assert found[0] in found;
  }

  // lookup_named_network_resource
  method LookupNet(cloud: Cloud, n: Net, vcn: Id) returns (ok: bool, found: Option<Record>)
    requires cloud.Valid() && cloud.exact && StandingVcn(cloud.state, vcn)
    modifies cloud`state, cloud`failures, cloud`lists
    ensures cloud.Valid() && StandingVcn(cloud.state, vcn) && cloud.ListsKept()
    ensures Tends(old(cloud.state), cloud.state, {}) && Shrinks(old(cloud.state), cloud.state)
    ensures ok ==> AllFound(cloud.state, Child(n), if found.None? then [] else [found.value])
    ensures ok && HasReady(old(cloud.state), Child(n)) ==> found.Some? && found.value.life == Ready
    ensures cloud.failures == old(cloud.failures) + if ok then 0 else 1
  {
    var listed := cloud.List(Child(n), Some(vcn));
    assert Stays(old(cloud.state), cloud.state, vcn, {});
    if listed.None? {
      return false, None;
    }
    var matching := LiveRecords(listed.value);
    MatchingFound(cloud.state, n, vcn, listed.value);
    if HasReady(old(cloud.state), Child(n)) {
      StillHasReady(old(cloud.state), cloud.state, Child(n));
    }
    if |matching| > 1 {
      assert false;
    }
    return true, if matching == [] then None else Some(matching[0]);
  }

  lemma MatchingFound(s: State, n: Net, vcn: Id, rs: seq<Record>)
    requires Intact(s) && StandingVcn(s, vcn) && Listed(s, Child(n), Some(vcn), rs) && DistinctIds(rs)
    ensures var found := LiveRecords(rs);
            AllFound(s, Child(n), found) && found == (if found == [] then [] else [found[0]])
    ensures HasReady(s, Child(n)) ==> LiveRecords(rs) != [] && LiveRecords(rs)[0].life == Ready
  {
    ChildrenOf(s, vcn, n);
    ListFinds(s, Child(n), Some(vcn), rs, LiveRecords(rs));
    if HasReady(s, Child(n)) {
      ReadyIsFound(s, Child(n), Some(vcn), rs, LiveRecords(rs));
    }
  }

  ghost predicate AllKnown(s: State, nets: seq<Net>, found: map<Net, Record>) {
    && (forall n :: n in nets ==> NetKnown(s, n, found))
    && forall n :: n in found ==> n in nets
  }

  // Of these, all that were ready at first have been found to be ready.
  ghost predicate ReadyFound(s: State, nets: seq<Net>, found: map<Net, Record>) {
    forall n :: n in nets && HasReady(s, Child(n)) ==> n in found && found[n].life == Ready
  }

  // lookup_network_resources
  method LookupNetwork(cloud: Cloud, vcn: Id) returns (ok: bool, found: map<Net, Record>)
    requires cloud.Valid() && cloud.exact && StandingVcn(cloud.state, vcn)
    modifies cloud`state, cloud`failures, cloud`lists
    ensures cloud.Valid() && StandingVcn(cloud.state, vcn) && cloud.ListsKept()
    ensures Tends(old(cloud.state), cloud.state, {}) && Shrinks(old(cloud.state), cloud.state)
    ensures ok ==> forall n :: NetKnown(cloud.state, n, found)
    ensures ok ==> ReadyFound(old(cloud.state), CreateOrder, found)
    ensures if ok then cloud.failures == old(cloud.failures) else cloud.failures > old(cloud.failures)
  {
    found := map[];
    for i := 0 to |CreateOrder|
      invariant cloud.Valid() && StandingVcn(cloud.state, vcn) && cloud.failures == old(cloud.failures) && cloud.ListsKept()
      invariant Tends(old(cloud.state), cloud.state, {}) && Shrinks(old(cloud.state), cloud.state)
      invariant AllKnown(cloud.state, CreateOrder[..i], found)
      invariant ReadyFound(old(cloud.state), CreateOrder[..i], found)
    {
      ghost var s := cloud.state;
      var n := CreateOrder[i];
      var fine, r := LookupNet(cloud, n, vcn);
      TendsTransitive(old(cloud.state), s, cloud.state, {});
      if !fine {
        return false, found;
      }
      CreatePrefix(i);
      AlsoKnown(s, cloud.state, n, r, found, CreateOrder[..i]);
      AlsoReady(old(cloud.state), s, n, r, found, CreateOrder[..i]);
      if r.Some? {
        found := found[n := r.value];
      }
    }
    assert CreateOrder[..|CreateOrder|] == CreateOrder;
    EveryNet(cloud.state, found);
    ok := true;
  }

  lemma EveryNet(s: State, found: map<Net, Record>)
    requires AllKnown(s, CreateOrder, found)
    ensures forall n :: NetKnown(s, n, found)
  {
    forall n ensures NetKnown(s, n, found) {
      OrdersCover(n);
    }
  }

  lemma AlsoReady(first: State, s: State, n: Net, r: Option<Record>, found: map<Net, Record>, before: seq<Net>)
    requires Tends(first, s, {}) && ReadyFound(first, before, found) && n !in before
    requires HasReady(s, Child(n)) ==> r.Some? && r.value.life == Ready
    ensures ReadyFound(first, before + [n], if r.None? then found else found[n := r.value])
  {
    if HasReady(first, Child(n)) {
      StillHasReady(first, s, Child(n));
    }
  }

  lemma AlsoKnown(s: State, t: State, n: Net, r: Option<Record>, found: map<Net, Record>, before: seq<Net>)
    requires Tends(s, t, {}) && Shrinks(s, t) && AllKnown(s, before, found)
    requires AllFound(t, Child(n), if r.None? then [] else [r.value]) && n !in before
    ensures AllKnown(t, before + [n], if r.None? then found else found[n := r.value])
  {
    var after := if r.None? then found else found[n := r.value];
    assert r.Some? ==> r.value in [r.value];
    forall m | m in before ensures NetKnown(t, m, after) {
      StillKnown(s, t, {}, m, found);
    }
    assert NetKnown(t, n, after);
  }

  lemma ClearedFurther(s: State, n: Net)
    requires Cleared(s, NetRank(n)) && KindGone(s, Child(n))
    ensures Cleared(s, NetRank(n) + 1)
  {
    forall id | LiveMine(s, id) ensures Rank(s[id].kind) >= NetRank(n) + 1 {
      if s[id].kind.Child? {
        OrdersCover(s[id].kind.net);
        OrdersCover(n);
      }
    }
  }

  // The deletion of what was found, in its order.
  method DeleteChildren(cloud: Cloud, vcn: Id, found: map<Net, Record>, maxWait: nat, interval: nat) returns (ok: bool)
    requires cloud.Valid() && interval >= 1 && StandingVcn(cloud.state, vcn)
    requires Cleared(cloud.state, 1) && forall n :: NetKnown(cloud.state, n, found)
    modifies cloud`state, cloud`sleeps, cloud`failures
    ensures cloud.Valid() && cloud.context == old(cloud.context) && cloud.answers == old(cloud.answers)
    ensures Shrinks(old(cloud.state), cloud.state)
    ensures StandingVcn(cloud.state, vcn)
    ensures ok ==> Cleared(cloud.state, 10)
    ensures if ok then cloud.failures == old(cloud.failures) else cloud.failures > old(cloud.failures)
  {
    for i := 0 to |TeardownOrder|
      invariant cloud.Valid() && cloud.failures == old(cloud.failures) && StandingVcn(cloud.state, vcn)
      invariant Shrinks(old(cloud.state), cloud.state) && Cleared(cloud.state, i + 1)
      invariant forall n :: NetRank(n) > i ==> NetKnown(cloud.state, n, found)
    {
      var n := TeardownOrder[i];
      ghost var s := cloud.state;
      assert NetRank(n) == i + 1;
      assert NetKnown(s, n, found);
      if n in found {
        ok := DeleteRecord(cloud, found[n], maxWait, interval);
        assert Stays(s, cloud.state, vcn, {Child(n)});
        forall m | NetRank(m) > i + 1 ensures NetKnown(cloud.state, m, found) {
          StillKnown(s, cloud.state, {Child(n)}, m, found);
        }
        ShrinksKeeps(s, cloud.state);
        if !ok {
          return;
        }
      }
      ClearedFurther(cloud.state, n);
    }
    ok := true;
  }
}
