/** oke-lifecycle.bash: the create preflight, the check after a teardown, and the two ways to
    begin that a run may take.  Lists need not be accurate for the preflight's own promises. */
module OkeLifecycle {
  import opened Options
  import opened OkeState
  import opened OkeCloud
  import opened OkeTeardown

  datatype Verdict = Waiting | Clear | Collision(unowned: bool) | StillDeleting | ListFailed

  // The tagged parents that are live are among the records, and no others are live.
  ghost predicate Seen(s: State, t: State, rs: seq<Record>) {
    && (forall id :: LiveMine(t, id) && (t[id].kind == Vcn || t[id].kind == Cluster) ==>
          exists r :: r in rs && r.life != Gone && r.mine)
    && forall r :: r in rs && r.life != Gone && r.mine ==> LiveMine(s, r.id)
  }

  // One discovery: the clusters and then the VCNs of this name.
  method Discover(cloud: Cloud) returns (r: Option<seq<Record>>)
    requires cloud.Valid()
    modifies cloud
    ensures cloud.Valid() && cloud.context == old(cloud.context) && cloud.sleeps == old(cloud.sleeps)
    ensures Tends(old(cloud.state), cloud.state, {}) && Shrinks(old(cloud.state), cloud.state)
    ensures cloud.answers == if r.None? then old(cloud.answers) else old(cloud.answers) + [r.value]
    ensures cloud.ListsKept()
    ensures r.Some? && cloud.exact ==> Seen(old(cloud.state), cloud.state, r.value)
    ensures cloud.failures == old(cloud.failures) + if r.None? then 1 else 0
  {
    var clusters := cloud.List(Cluster, None);
    if clusters.None? {
      return None;
    }
    ghost var s := cloud.state;
    var vcns := cloud.List(Vcn, None);
    TendsTransitive(old(cloud.state), s, cloud.state, {});
    if vcns.None? {
      return None;
    }
    r := Some(clusters.value + vcns.value);
    cloud.answers := cloud.answers + [r.value];
    if cloud.exact {
      BothListed(old(cloud.state), s, cloud.state, clusters.value, vcns.value);
    }
  }

  lemma BothListed(s: State, m: State, t: State, clusters: seq<Record>, vcns: seq<Record>)
    requires Intact(m) && Intact(t) && Shrinks(s, m) && Shrinks(m, t)
    requires Listed(m, Cluster, None, clusters) && Listed(t, Vcn, None, vcns)
    ensures Seen(s, t, clusters + vcns)
  {
    var rs := clusters + vcns;
    forall id | LiveMine(t, id) && (t[id].kind == Vcn || t[id].kind == Cluster)
      ensures exists r :: r in rs && r.life != Gone && r.mine
    {
      ParentsNamed(m, Cluster);
      ParentsNamed(t, Vcn);
      var r := if t[id].kind == Vcn then RecordOf(id, t[id]) else RecordOf(id, m[id]);
      assert r in rs;
    }
    forall r | r in rs && r.life != Gone && r.mine ensures LiveMine(s, r.id) {
      assert r in clusters || r in vcns;
      assert LiveMine(m, r.id);
    }
  }

  predicate AllDeleting(rs: seq<Record>) {
    LiveRecords(rs) != [] && Nontransitioning(LiveRecords(rs)) == []
  }

  predicate Strangers(rs: seq<Record>) { Unowned(LiveRecords(rs)) != [] }

  // What one discovery leads to, if it is the last one or not.
  function Judge(rs: seq<Record>, last: bool): Verdict {
    var live := LiveRecords(rs);
    if live == [] then Clear
    else if Nontransitioning(live) != [] then Collision(Strangers(rs))
    else if last then StillDeleting
    else Waiting
  }

  lemma JudgedRight(s: State, t: State, waited: seq<seq<Record>>, rs: seq<Record>, attempts: nat)
    requires |waited| < attempts && forall i :: 0 <= i < |waited| ==> AllDeleting(waited[i])
    ensures var v := Judge(rs, |waited| + 1 == attempts);
            if v == Waiting then |waited| + 1 < attempts && AllDeleting(rs) else Justified(waited + [rs], v, attempts)
    ensures Intact(t) && Seen(s, t, rs) && LiveRecords(rs) == [] ==> NoneLive(t)
    ensures Seen(s, t, rs) && NoneLive(s) && LiveRecords(rs) != [] ==> Strangers(rs)
  {
    if Intact(t) && Seen(s, t, rs) && LiveRecords(rs) == [] {
      NothingSeen(s, t, rs);
    }
    if Seen(s, t, rs) && LiveRecords(rs) != [] {
      StrangerSeen(s, t, rs);
    }
  }

  // What the discoveries of one preflight say about its verdict.
  ghost predicate Justified(found: seq<seq<Record>>, v: Verdict, attempts: nat) {
    && |found| <= attempts
    && (forall i :: 0 <= i < |found| - 1 ==> AllDeleting(found[i]))
    && match v
       case Clear => found != [] && LiveRecords(found[|found| - 1]) == []
       case Collision(unowned) =>
         found != [] && Nontransitioning(LiveRecords(found[|found| - 1])) != []
         && (unowned <==> Strangers(found[|found| - 1]))
       case StillDeleting => found != [] && |found| == attempts && AllDeleting(found[|found| - 1])
       case Waiting => false
       case ListFailed => found != [] ==> AllDeleting(found[|found| - 1])
  }

  /** oke_check_create_collisions: whatever the lists answer, it ends within its attempts,
      succeeds only on a last discovery without a live record of that name, and waits only while
      every live one is being deleted. */
  method CheckCreateCollisions(cloud: Cloud, attempts: nat) returns (v: Verdict)
    requires cloud.Valid() && attempts >= 1
    modifies cloud
    ensures cloud.Valid() && cloud.context == old(cloud.context)
    ensures Tends(old(cloud.state), cloud.state, {}) && Shrinks(old(cloud.state), cloud.state)
    ensures |cloud.answers| >= |old(cloud.answers)| && cloud.answers[..|old(cloud.answers)|] == old(cloud.answers)
    ensures Justified(cloud.answers[|old(cloud.answers)|..], v, attempts)
    ensures var found := |cloud.answers| - |old(cloud.answers)|;
            cloud.sleeps == old(cloud.sleeps) + if v == ListFailed then found else found - 1
    ensures v == Clear && cloud.exact ==> NoneLive(cloud.state)
    ensures cloud.exact && NoneLive(old(cloud.state)) ==>
              v == Clear || v == ListFailed
              || Strangers(cloud.answers[|old(cloud.answers)|])
    ensures if v == ListFailed then cloud.failures > old(cloud.failures) else cloud.failures == old(cloud.failures)
  {
    var attempt := 1;
    ghost var waited: seq<seq<Record>> := [];
    while true
      invariant 1 <= attempt <= attempts && |waited| == attempt - 1
      invariant cloud.Valid() && cloud.context == old(cloud.context) && cloud.failures == old(cloud.failures)
      invariant Went(old(cloud.state), cloud.state)
      invariant cloud.answers == old(cloud.answers) + waited
      invariant cloud.sleeps == old(cloud.sleeps) + |waited|
      invariant AllWaited(waited, cloud.exact && NoneLive(old(cloud.state)))
      decreases attempts - attempt
    {
      ghost var s := cloud.state;
      var all := Discover(cloud);
      TendsTransitive(old(cloud.state), s, cloud.state, {});
      AnswersSince(old(cloud.answers), waited, cloud.answers);
      if all.None? {
        return ListFailed;
      }
      JudgedRight(s, cloud.state, waited, all.value, attempts);
      v := Judge(all.value, attempt == attempts);
      if v != Waiting {
        return v;
      }
      s := cloud.state;
      cloud.Sleep();
      TendsTransitive(old(cloud.state), s, cloud.state, {});
      waited := waited + [all.value];
      attempt := attempt + 1;
    }
  }

  ghost predicate Went(s: State, t: State) { Tends(s, t, {}) && Shrinks(s, t) }

  // Every discovery so far found only resources that are being deleted, and the first one, if
  // nothing of this deployment was live, a stranger's.
  ghost predicate AllWaited(waited: seq<seq<Record>>, clean: bool) {
    (forall i :: 0 <= i < |waited| ==> AllDeleting(waited[i])) && (clean && waited != [] ==> Strangers(waited[0]))
  }

  lemma AnswersSince(before: seq<seq<Record>>, waited: seq<seq<Record>>, after: seq<seq<Record>>)
    ensures after == before + waited ==> after[..|before|] == before && after[|before|..] == waited
    ensures |after| == |before| + |waited| + 1 && after[..|after| - 1] == before + waited ==>
              after[..|before|] == before && after[|before|..] == waited + [after[|after| - 1]]
  {
  }

  lemma NothingSeen(s: State, t: State, rs: seq<Record>)
    requires Intact(t) && Seen(s, t, rs) && LiveRecords(rs) == []
    ensures NoneLive(t)
  {
    forall r | r in rs ensures r.life == Gone {
      assert r !in LiveRecords(rs);
    }
    ParentsGone(t);
  }

  lemma StrangerSeen(s: State, t: State, rs: seq<Record>)
    requires Seen(s, t, rs) && LiveRecords(rs) != []
    ensures NoneLive(s) ==> Strangers(rs)
  {
    var r := LiveRecords(rs)[0];
    assert r in LiveRecords(rs);
    assert r.mine ==> LiveMine(s, r.id);
    assert !r.mine ==> r in Unowned(LiveRecords(rs));
  }

  /** oke_verify_no_live_owned_parents */
  method VerifyNoLiveOwnedParents(cloud: Cloud, attempts: nat) returns (ok: bool)
    requires cloud.Valid() && cloud.exact && attempts >= 1
    modifies cloud
    ensures cloud.Valid() && cloud.context == old(cloud.context)
    ensures Tends(old(cloud.state), cloud.state, {}) && Shrinks(old(cloud.state), cloud.state)
    ensures ok ==> NoneLive(cloud.state) && cloud.failures == old(cloud.failures)
    ensures NoneLive(old(cloud.state)) && !ok ==> cloud.failures > old(cloud.failures)
    ensures cloud.sleeps - old(cloud.sleeps) < attempts && cloud.ListsKept()
  {
    var attempt := 1;
    while true
      invariant 1 <= attempt <= attempts && cloud.ListsKept()
      invariant cloud.Valid() && cloud.context == old(cloud.context) && cloud.failures == old(cloud.failures)
      invariant Went(old(cloud.state), cloud.state)
      invariant cloud.sleeps == old(cloud.sleeps) + attempt - 1
      invariant attempt > 1 ==> !NoneLive(old(cloud.state))
      decreases attempts - attempt
    {
      ghost var s := cloud.state;
      var all := Discover(cloud);
      TendsTransitive(old(cloud.state), s, cloud.state, {});
      if all.None? {
        return false;
      }
      var ownedLive := Owned(LiveRecords(all.value));
      OwnedSeen(old(cloud.state), s, cloud.state, all.value);
      if ownedLive == [] {
        return true;
      }
      if attempt == attempts {
        return false;
      }
      s := cloud.state;
      cloud.Sleep();
      TendsTransitive(old(cloud.state), s, cloud.state, {});
      attempt := attempt + 1;
    }
  }

  lemma OwnedSeen(first: State, s: State, t: State, rs: seq<Record>)
    requires Intact(t) && Seen(s, t, rs) && Shrinks(first, s)
    ensures if Owned(LiveRecords(rs)) == [] then NoneLive(t) else !NoneLive(first)
  {
    var ownedLive := Owned(LiveRecords(rs));
    if ownedLive == [] {
      NoOwnedSeen(s, t, rs);
    } else {
      assert ownedLive[0] in ownedLive;
      assert LiveMine(s, ownedLive[0].id);
      assert LiveMine(first, ownedLive[0].id);
    }
  }

  lemma NoOwnedSeen(s: State, t: State, rs: seq<Record>)
    requires Intact(t) && Seen(s, t, rs) && Owned(LiveRecords(rs)) == []
    ensures NoneLive(t)
  {
    forall r | r in rs && r.mine ensures r.life == Gone {
      assert r !in Owned(LiveRecords(rs));
    }
    ParentsGone(t);
  }

  // The deletion of the live tagged VCNs with what is in them.
  method DeleteVcns(cloud: Cloud, found: seq<Record>, maxWait: nat, interval: nat) returns (ok: bool)
    requires cloud.Valid() && cloud.exact && AllFound(cloud.state, Vcn, found) && Cleared(cloud.state, 1) && interval >= 1
    modifies cloud`state, cloud`sleeps, cloud`failures, cloud`lists
    ensures cloud.Valid() && cloud.context == old(cloud.context) && cloud.answers == old(cloud.answers)
    ensures Shrinks(old(cloud.state), cloud.state) && cloud.ListsKept()
    ensures ok ==> NoneLive(cloud.state)
    ensures if ok then cloud.failures == old(cloud.failures) else cloud.failures > old(cloud.failures)
  {
    for i := 0 to |found|
      invariant cloud.Valid() && cloud.failures == old(cloud.failures)
      invariant Shrinks(old(cloud.state), cloud.state) && cloud.ListsKept()
      invariant i == 0 ==> cloud.state == old(cloud.state)
      invariant i > 0 ==> found[0].id in cloud.state && cloud.state[found[0].id].life == Gone
    {
      assert found[i] in found;
      ok := DeleteVcn(cloud, found[i], found, maxWait, interval);
      if !ok {
        return;
      }
    }
    FoundGone(old(cloud.state), cloud.state, Vcn, found);
    ShrinksKeeps(old(cloud.state), cloud.state);
    NoClusterLeft(cloud.state);
    ParentsGone(cloud.state);
    ok := true;
  }

  lemma NoClusterLeft(s: State)
    requires Cleared(s, 1)
    ensures KindGone(s, Cluster)
  {
  }

  method DeleteVcn(cloud: Cloud, r: Record, ghost found: seq<Record>, maxWait: nat, interval: nat) returns (ok: bool)
    requires cloud.Valid() && cloud.exact && AllFound(cloud.state, Vcn, found) && r in found
    requires Cleared(cloud.state, 1) && interval >= 1
    modifies cloud`state, cloud`sleeps, cloud`failures, cloud`lists
    ensures cloud.Valid() && cloud.context == old(cloud.context) && cloud.answers == old(cloud.answers)
    ensures Shrinks(old(cloud.state), cloud.state) && cloud.ListsKept()
    ensures ok ==> r.id in cloud.state && cloud.state[r.id].life == Gone
    ensures if ok then cloud.failures == old(cloud.failures) else cloud.failures > old(cloud.failures)
  {
    if r.life != Deleting {
      var fine, children := LookupNetwork(cloud, r.id);
      if !fine {
        return false;
      }
      ShrinksKeeps(old(cloud.state), cloud.state);
      fine := DeleteChildren(cloud, r.id, children, maxWait, interval);
      if !fine {
        return false;
      }
    } else {
      GoingVcnIsEmpty(cloud.state, r, found);
    }
    ok := DeleteRecord(cloud, r, maxWait, interval);
  }

  // A VCN that is being deleted has nothing live in it.
  lemma GoingVcnIsEmpty(s: State, r: Record, found: seq<Record>)
    requires Intact(s) && AllFound(s, Vcn, found) && r in found && Cleared(s, 1)
    ensures Standing(s[r.id]) || Cleared(s, 10)
  {
    forall id | LiveMine(s, id) && s[id].kind != Vcn ensures Standing(s[r.id]) {
      assert Sound(s, id) && Rooted(s, id);
      assert LiveMine(s, s[id].home) && s[s[id].home].kind == Vcn;
      assert found[0] in found;
    }
  }

  // One of the two lists, of clusters and of VCNs, shows a tagged record.
  predicate TagShown(lists: seq<seq<Record>>, n: nat)
    requires n + 2 <= |lists|
  {
    Owned(lists[n]) != [] || Owned(lists[n + 1]) != []
  }

  /** -d: every deletion is asked for when nothing live refers to the resource (the precondition
      of Cloud.Delete); a completed run leaves nothing of the deployment live, and the kubeconfig
      context only if there was no tagged parent to begin with; the context is cleared exactly if
      one of its two lists shows a tagged record, terminal or not; it stops early only if a call
      fails or a wait is given up. */
  method DeleteOke(cloud: Cloud, maxWait: nat, interval: nat, attempts: nat) returns (ok: bool)
    requires cloud.Valid() && cloud.exact && interval >= 1 && attempts >= 1
    modifies cloud
    ensures cloud.Valid() && Shrinks(old(cloud.state), cloud.state)
    ensures ok ==> NoneLive(cloud.state)
    ensures ok && cloud.context ==> NoneStanding(old(cloud.state), Cluster) && NoneStanding(old(cloud.state), Vcn)
    ensures ok ==> |cloud.lists| >= |old(cloud.lists)| + 2 && cloud.ListsKept()
    ensures ok ==> (cloud.context <==> old(cloud.context) && !TagShown(cloud.lists, |old(cloud.lists)|))
    ensures cloud.context ==> old(cloud.context)
    ensures if ok then cloud.failures == old(cloud.failures) else cloud.failures > old(cloud.failures)
  {
    var anyCluster, anyVcn;
    ok, anyCluster := RemoveClusters(cloud, maxWait, interval);
    if !ok {
      return false;
    }
    ghost var s := cloud.state;
    StandingVcnLasts(old(cloud.state), s);
    ok, anyVcn := RemoveVcns(cloud, maxWait, interval);
    if !ok {
      return false;
    }
    if anyCluster || anyVcn {
      cloud.context := false;
    }
    ok := VerifyNoLiveOwnedParents(cloud, attempts);
  }

  method RemoveClusters(cloud: Cloud, maxWait: nat, interval: nat) returns (ok: bool, any: bool)
    requires cloud.Valid() && cloud.exact && interval >= 1
    modifies cloud`state, cloud`sleeps, cloud`failures, cloud`lists
    ensures cloud.Valid() && Tends(old(cloud.state), cloud.state, Touched(Cluster)) && Shrinks(old(cloud.state), cloud.state)
    ensures ok ==> Cleared(cloud.state, 1) && (!any ==> NoneStanding(old(cloud.state), Cluster))
    ensures ok ==> |cloud.lists| == |old(cloud.lists)| + 1 && cloud.ListsKept()
    ensures ok ==> (any <==> Owned(cloud.lists[|old(cloud.lists)|]) != [])
    ensures if ok then cloud.failures == old(cloud.failures) else cloud.failures > old(cloud.failures)
  {
    var clusters;
    clusters, any := ListOwned(cloud, Cluster);
    TendsWider(old(cloud.state), cloud.state, {}, Touched(Cluster));
    if clusters.None? {
      return false, any;
    }
    ghost var s := cloud.state;
    ok := DeleteClusters(cloud, clusters.value, maxWait, interval);
    TendsTransitive(old(cloud.state), s, cloud.state, Touched(Cluster));
  }

  method RemoveVcns(cloud: Cloud, maxWait: nat, interval: nat) returns (ok: bool, any: bool)
    requires cloud.Valid() && cloud.exact && Cleared(cloud.state, 1) && interval >= 1
    modifies cloud`state, cloud`sleeps, cloud`failures, cloud`lists
    ensures cloud.Valid() && Shrinks(old(cloud.state), cloud.state)
    ensures ok ==> NoneLive(cloud.state) && (!any ==> NoneStanding(old(cloud.state), Vcn))
    ensures ok ==> |cloud.lists| > |old(cloud.lists)| && cloud.ListsKept()
    ensures ok ==> (any <==> Owned(cloud.lists[|old(cloud.lists)|]) != [])
    ensures if ok then cloud.failures == old(cloud.failures) else cloud.failures > old(cloud.failures)
  {
    var vcns;
    vcns, any := ListOwned(cloud, Vcn);
    if vcns.None? {
      return false, any;
    }
    ShrinksKeeps(old(cloud.state), cloud.state);
    ok := DeleteVcns(cloud, vcns.value, maxWait, interval);
  }

  lemma StandingVcnLasts(s: State, t: State)
    requires Tends(s, t, Touched(Cluster))
    ensures NoneStanding(t, Vcn) ==> NoneStanding(s, Vcn)
  {
    forall id | LiveMine(s, id) && s[id].kind == Vcn && Standing(s[id]) ensures !NoneStanding(t, Vcn) {
      assert Stays(s, t, id, Touched(Cluster));
      assert LiveMine(t, id) && t[id].kind == Vcn;
    }
  }
}
