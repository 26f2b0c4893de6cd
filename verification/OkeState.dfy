/** The OCI resources that makeBasicCluster.bash creates, what refers to what, and what may
    happen to them while nobody asks for anything. */
module OkeState {
  type Id = nat

  // The named network resources, in the order in which -d deletes them.
  datatype Net = LbSubnet | WorkersSubnet | CpSubnet | PublicSl | PrivateSl | PrivateRt | PublicRt | Nat | Igw

  datatype PoolName = System | Scylla | Application

  datatype Kind = Pool(pool: PoolName) | Cluster | Child(net: Net) | Vcn

  // Gone stands for DELETED, TERMINATED and for what OCI no longer finds.
  datatype Life = Creating | Ready | Failed | Deleting | Gone

  // `mine`: tagged as this deployment's, or created below such a parent.  `home` is the VCN of
  // a network resource or a cluster and the cluster of a node pool.
  datatype Resource = Resource(kind: Kind, name: bool, mine: bool, home: Id, refs: set<Id>, size: nat, life: Life)

  type State = map<Id, Resource>

  const TeardownOrder: seq<Net> :=
    [LbSubnet, WorkersSubnet, CpSubnet, PublicSl, PrivateSl, PrivateRt, PublicRt, Nat, Igw]
  const CreateOrder: seq<Net> :=
    [Igw, Nat, PublicRt, PrivateRt, PublicSl, PrivateSl, CpSubnet, WorkersSubnet, LbSubnet]

  // What the create command of a network resource names besides the VCN.
  function Needs(net: Net): set<Net> {
    match net
    case PublicRt => {Igw}
    case PrivateRt => {Nat}
    case CpSubnet => {PublicRt, PublicSl}
    case WorkersSubnet => {PrivateRt, PrivateSl}
    case LbSubnet => {PublicRt, PublicSl}
    case _ => {}
  }

  function NetRank(net: Net): nat {
    match net
    case LbSubnet => 1
    case WorkersSubnet => 2
    case CpSubnet => 3
    case PublicSl => 4
    case PrivateSl => 5
    case PrivateRt => 6
    case PublicRt => 7
    case Nat => 8
    case Igw => 9
  }

  // A resource refers to resources of higher rank only.
  function Rank(k: Kind): nat {
    match k
    case Pool(_) => 0
    case Cluster => 0
    case Child(net) => NetRank(net)
    case Vcn => 10
  }

  lemma OrdersCover(net: Net)
    ensures TeardownOrder[NetRank(net) - 1] == net
    ensures net in CreateOrder
    ensures forall n :: n in Needs(net) ==> NetRank(net) < NetRank(n)
  {
    assert CreateOrder[0] == Igw && CreateOrder[1] == Nat && CreateOrder[2] == PublicRt && CreateOrder[3] == PrivateRt;
    assert CreateOrder[4] == PublicSl && CreateOrder[5] == PrivateSl && CreateOrder[6] == CpSubnet;
    assert CreateOrder[7] == WorkersSubnet && CreateOrder[8] == LbSubnet;
  }

  function CreatePlace(net: Net): (k: nat)
    ensures k < |CreateOrder| && CreateOrder[k] == net
  {
    match net
    case Igw => 0
    case Nat => 1
    case PublicRt => 2
    case PrivateRt => 3
    case PublicSl => 4
    case PrivateSl => 5
    case CpSubnet => 6
    case WorkersSubnet => 7
    case LbSubnet => 8
  }

  lemma CreatePrefix(i: nat)
    requires i < |CreateOrder|
    ensures CreateOrder[..i + 1] == CreateOrder[..i] + [CreateOrder[i]]
    ensures CreateOrder[i] !in CreateOrder[..i]
  {
    forall j | 0 <= j < |CreateOrder| ensures CreatePlace(CreateOrder[j]) == j {
    }
    forall j | 0 <= j < i ensures CreateOrder[..i][j] != CreateOrder[i] {
      assert CreatePlace(CreateOrder[j]) == j && CreatePlace(CreateOrder[i]) == i;
    }
  }

  predicate Standing(r: Resource) { r.life == Creating || r.life == Ready || r.life == Failed }

  predicate Live(s: State, id: Id) { id in s && s[id].life != Gone }

  predicate LiveMine(s: State, id: Id) { Live(s, id) && s[id].mine }

  // Whatever a live resource of this deployment refers to is there and is not being deleted.
  predicate Sound(s: State, id: Id)
    requires id in s
  {
    forall x :: x in s[id].refs ==>
      x in s && s[x].mine && Standing(s[x]) && Rank(s[id].kind) < Rank(s[x].kind)
  }

  predicate Rooted(s: State, id: Id)
    requires id in s
  {
    var r := s[id];
    match r.kind
    case Vcn => r.name
    case Cluster => r.name && r.home in r.refs && r.home in s && s[r.home].kind == Vcn
    case Child(_) => r.name && r.home in r.refs && r.home in s && s[r.home].kind == Vcn
    case Pool(_) => r.name && LiveMine(s, r.home) && s[r.home].kind == Cluster
  }

  ghost predicate AllSound(s: State) {
    forall id :: LiveMine(s, id) ==> Sound(s, id) && Rooted(s, id)
  }

  ghost predicate OneOfEach(s: State) {
    forall a, b :: LiveMine(s, a) && LiveMine(s, b) && s[a].kind == s[b].kind ==> a == b
  }

  predicate Detached(s: State, r: Resource) {
    && !(r.home in s && s[r.home].mine)
    && forall x :: x in r.refs ==> !(x in s && s[x].mine)
  }

  // Nothing else refers to what is this deployment's.
  predicate Apart(s: State) {
    forall id :: id in s && !s[id].mine ==> Detached(s, s[id])
  }

  /** The invariant of every run: no live resource refers to one that is gone or going, every
      resource hangs below a tagged VCN or cluster, and there is at most one of each kind. */
  ghost predicate Intact(s: State) { AllSound(s) && OneOfEach(s) && Apart(s) }

  // --- What may happen by itself --------------------------------------------------------------

  predicate LifeMoves(before: Life, after: Life) {
    after == before
    || (before == Creating && (after == Ready || after == Failed))
    || (before == Failed && after == Ready)
    || (before == Deleting && after == Gone)
  }

  // Node pools go with their cluster.
  predicate Moves(s: State, t: State, id: Id)
    requires id in s && id in t
  {
    && t[id] == s[id].(life := t[id].life)
    && (LifeMoves(s[id].life, t[id].life)
        || (s[id].kind.Pool? && s[id].life != Gone && t[id].life in {Deleting, Gone}
            && s[id].home in s && s[s[id].home].life in {Deleting, Gone}))
    && (s[id].kind.Pool? && t[id].life != Gone ==> s[id].home in t && t[s[id].home].life != Gone)
  }

  predicate Drifts(s: State, t: State) {
    && (forall id :: id in s ==> id in t)
    && (forall id :: id in s && s[id].mine ==> Moves(s, t, id))
    && (forall id :: id in t && !(id in s && s[id].mine) ==> !t[id].mine)
    && Apart(t)
  }

  lemma DriftKeepsIntact(s: State, t: State)
    requires Intact(s) && Drifts(s, t)
    ensures Intact(t)
  {
    forall id | LiveMine(t, id) ensures Sound(t, id) && Rooted(t, id) {
      assert LiveMine(s, id) && Moves(s, t, id);
      assert Sound(s, id) && Rooted(s, id);
      forall x | x in t[id].refs
        ensures x in t && t[x].mine && Standing(t[x]) && Rank(t[id].kind) < Rank(t[x].kind)
      {
        assert Moves(s, t, x);
      }
      if s[id].kind.Pool? {
        assert Moves(s, t, s[id].home);
      } else if !s[id].kind.Vcn? {
        assert Moves(s, t, s[id].home);
      }
    }
    forall a, b | LiveMine(t, a) && LiveMine(t, b) && t[a].kind == t[b].kind ensures a == b {
      assert LiveMine(s, a) && LiveMine(s, b) && Moves(s, t, a) && Moves(s, t, b);
    }
  }


  // --- Deleting -----------------------------------------------------------------------------

  /** Nothing live refers to the resource. */
  ghost predicate Unreferenced(s: State, id: Id) {
    forall a :: Live(s, a) ==> id !in s[a].refs
  }

  // The server deletes one resource, or starts to; deleting a cluster takes its pools along.
  ghost predicate Deletes(s: State, t: State, id: Id)
    requires id in s
  {
    && t.Keys == s.Keys
    && t[id] == s[id].(life := t[id].life) && t[id].life in {s[id].life, Deleting, Gone}
    && (s[id].life == Gone ==> t[id].life == Gone)
    && forall x :: x in s && x != id ==> Spared(s, t, x, id)
  }

  ghost predicate Spared(s: State, t: State, x: Id, id: Id)
    requires x in s && x in t && id in t
  {
    if s[x].kind.Pool? && s[x].home == id then
      t[x] == s[x].(life := t[x].life) && (t[x].life == s[x].life || t[x].life in {Deleting, Gone})
      && (t[id].life == Gone ==> t[x].life == Gone) && (s[x].life == Gone ==> t[x].life == Gone)
    else t[x] == s[x]
  }

  lemma DeleteKeepsSound(s: State, t: State, id: Id, a: Id)
    requires Intact(s) && LiveMine(s, id) && Unreferenced(s, id) && Deletes(s, t, id) && LiveMine(t, a)
    ensures LiveMine(s, a) && t[a].kind == s[a].kind && Sound(t, a) && Rooted(t, a)
  {
    assert a != id ==> Spared(s, t, a, id);
    assert LiveMine(s, a) && Sound(s, a) && Rooted(s, a);
    forall x | x in t[a].refs
      ensures x in t && t[x].mine && Standing(t[x]) && Rank(t[a].kind) < Rank(t[x].kind)
    {
      assert x != id && Spared(s, t, x, id);
    }
    if !s[a].kind.Vcn? && s[a].home != id {
      assert Spared(s, t, s[a].home, id);
    }
  }

  lemma DeleteKeepsIntact(s: State, t: State, id: Id)
    requires Intact(s) && LiveMine(s, id) && Unreferenced(s, id) && Deletes(s, t, id)
    ensures Intact(t)
  {
    forall a | LiveMine(t, a) ensures LiveMine(s, a) && t[a].kind == s[a].kind && Sound(t, a) && Rooted(t, a) {
      DeleteKeepsSound(s, t, id, a);
    }
    forall a | a in t && !t[a].mine ensures Detached(t, t[a]) {
      assert a != id ==> Spared(s, t, a, id);
      forall x | x in t[a].refs || x == t[a].home ensures !(x in t && t[x].mine) {
        assert x in t && x != id ==> Spared(s, t, x, id);
      }
    }
  }

  /** What makes the order of -d safe: once everything of lower rank is gone, nothing refers to
      the resource. */
  lemma ClearedIsUnreferenced(s: State, id: Id)
    requires Intact(s) && id in s && s[id].mine && Cleared(s, Rank(s[id].kind))
    ensures Unreferenced(s, id)
  {
    forall a | Live(s, a) ensures id !in s[a].refs {
      if s[a].mine {
        assert LiveMine(s, a);
        assert Sound(s, a);
      }
    }
  }

  // Of this deployment nothing below the rank is live.
  ghost predicate Cleared(s: State, rank: nat) {
    forall id :: LiveMine(s, id) ==> Rank(s[id].kind) >= rank
  }

  ghost predicate NoneLive(s: State) {
    forall id :: !LiveMine(s, id)
  }

  // Nobody else has a live VCN or cluster of this name.
  predicate NoStrangers(s: State) {
    forall id :: id in s && (s[id].kind == Vcn || s[id].kind == Cluster) && s[id].name && !s[id].mine ==> s[id].life == Gone
  }

  ghost predicate KindGone(s: State, k: Kind) {
    forall id :: LiveMine(s, id) ==> s[id].kind != k
  }

  /** Without a live VCN and a live cluster, nothing of the deployment is live. */
  lemma ParentsGone(s: State)
    requires Intact(s) && KindGone(s, Vcn) && KindGone(s, Cluster)
    ensures NoneLive(s)
  {
    forall id | LiveMine(s, id) ensures false {
      assert Sound(s, id) && Rooted(s, id);
      if s[id].kind.Pool? || s[id].kind.Child? {
        assert LiveMine(s, s[id].home);
      }
    }
  }

  // --- Creating -----------------------------------------------------------------------------

  // The create command of a resource may name these.
  ghost predicate MayCreate(s: State, r: Resource) {
    && r.mine && r.name && r.life != Gone && r.life != Deleting && KindGone(s, r.kind)
    && (forall x :: x in r.refs ==> x in s && s[x].mine && Standing(s[x]) && Rank(r.kind) < Rank(s[x].kind))
    && match r.kind
       case Vcn => r.refs == {}
       case Pool(_) => LiveMine(s, r.home) && s[r.home].kind == Cluster && Standing(s[r.home])
       case _ => r.home in r.refs && r.home in s && s[r.home].kind == Vcn
  }

  lemma CreateKeepsIntact(s: State, id: Id, r: Resource)
    requires Intact(s) && id !in s && MayCreate(s, r)
    requires forall a :: a in s && !s[a].mine ==> id !in s[a].refs && id != s[a].home
    ensures Intact(s[id := r])
  {
    var t := s[id := r];
    forall a | LiveMine(t, a) ensures Sound(t, a) && Rooted(t, a) {
      if a != id {
        assert LiveMine(s, a) && Sound(s, a) && Rooted(s, a);
      }
    }
    forall a, b | LiveMine(t, a) && LiveMine(t, b) && t[a].kind == t[b].kind ensures a == b {
      if a != id && b != id {
        assert LiveMine(s, a) && LiveMine(s, b);
      } else if a != id {
        assert LiveMine(s, a);
      } else if b != id {
        assert LiveMine(s, b);
      }
    }
  }

  // --- What a call, or several, may change ----------------------------------------------------

  // A pool lasts as long as its cluster is not touched.
  predicate Firm(s: State, id: Id, ks: set<Kind>)
    requires id in s
  {
    s[id].kind.Pool? ==>
      Cluster !in ks && s[id].home in s && s[s[id].home].mine && s[s[id].home].kind == Cluster && Standing(s[s[id].home])
  }

  predicate Same(s: State, t: State, id: Id)
    requires id in s
  {
    id in t && t[id] == s[id].(life := t[id].life, size := t[id].size)
  }

  predicate Stays(s: State, t: State, id: Id, ks: set<Kind>)
    requires id in s
  {
    && Same(s, t, id) && t[id].size == s[id].size
    && (s[id].life == Gone ==> t[id].life == Gone)
    && (s[id].life == Deleting ==> t[id].life in {Deleting, Gone})
    && (Standing(s[id]) && Firm(s, id, ks) ==> Standing(t[id]) && (s[id].life == Ready ==> t[id].life == Ready))
  }

  /** Only resources of the given kinds are created, changed or deleted; the others take their
      own course. */
  ghost predicate Tends(s: State, t: State, ks: set<Kind>) {
    && (forall id :: id in s && s[id].mine ==> Same(s, t, id))
    && (forall id :: id in s && s[id].mine && s[id].kind !in ks ==> Stays(s, t, id, ks))
    && (forall id :: LiveMine(t, id) && t[id].kind !in ks ==> LiveMine(s, id))
  }

  // Nothing of this deployment comes to life.
  ghost predicate Shrinks(s: State, t: State) {
    forall id :: LiveMine(t, id) ==> LiveMine(s, id) && t[id].kind == s[id].kind
  }

  lemma NoDrift(s: State)
    requires Intact(s)
    ensures Drifts(s, s)
  {
    forall id | id in s && s[id].mine ensures Moves(s, s, id) {
      if LiveMine(s, id) {
        assert Sound(s, id) && Rooted(s, id);
      }
    }
  }

  lemma DriftTends(s: State, t: State)
    requires Intact(s) && Drifts(s, t)
    ensures Tends(s, t, {}) && Shrinks(s, t)
  {
    forall id | id in s && s[id].mine ensures Stays(s, t, id, {}) {
      assert Moves(s, t, id);
    }
    forall id | LiveMine(t, id) ensures LiveMine(s, id) && t[id].kind == s[id].kind {
      assert Moves(s, t, id);
    }
  }

  lemma DeleteTends(s: State, t: State, id: Id, ks: set<Kind>)
    requires LiveMine(s, id) && Deletes(s, t, id) && s[id].kind in ks
    requires s[id].kind == Cluster ==> forall p :: Pool(p) in ks
    requires Intact(s)
    ensures Tends(s, t, ks) && Shrinks(s, t)
  {
    forall x | x in s && s[x].mine ensures Same(s, t, x) && (s[x].kind !in ks ==> Stays(s, t, x, ks)) {
      if x != id {
        assert Spared(s, t, x, id);
        if s[x].kind.Pool? && s[x].home == id && LiveMine(s, x) {
          assert Rooted(s, x);
        }
      }
    }
    forall x | LiveMine(t, x) ensures LiveMine(s, x) && t[x].kind == s[x].kind {
      if x != id {
        assert Spared(s, t, x, id);
      }
    }
  }

  lemma CreateTends(s: State, id: Id, r: Resource, ks: set<Kind>)
    requires id !in s && r.kind in ks
    ensures Tends(s, s[id := r], ks)
  {
  }

  lemma TendsTransitive(s: State, t: State, u: State, ks: set<Kind>)
    requires Tends(s, t, ks) && Tends(t, u, ks)
    ensures Tends(s, u, ks)
    ensures Shrinks(s, t) && Shrinks(t, u) ==> Shrinks(s, u)
  {
    forall id | id in s && s[id].mine ensures Same(s, u, id) && (s[id].kind !in ks ==> Stays(s, u, id, ks)) {
      assert Same(s, t, id) && Same(t, u, id);
      if s[id].kind !in ks {
        assert Stays(s, t, id, ks) && Stays(t, u, id, ks);
        if Standing(s[id]) && Firm(s, id, ks) && s[id].kind.Pool? {
          assert Stays(s, t, s[id].home, ks);
        }
      }
    }
    forall id | LiveMine(u, id) && u[id].kind !in ks ensures LiveMine(s, id) {
      assert LiveMine(t, id);
      assert Same(t, u, id);
    }
  }

  lemma TendsWider(s: State, t: State, js: set<Kind>, ks: set<Kind>)
    requires Tends(s, t, js) && js <= ks
    ensures Tends(s, t, ks)
  {
    forall id | id in s && s[id].mine && s[id].kind !in ks ensures Stays(s, t, id, ks) {
      assert Stays(s, t, id, js);
    }
  }

  lemma ShrinksKeeps(s: State, t: State)
    requires Shrinks(s, t)
    ensures forall k {:trigger KindGone(t, k)} :: KindGone(s, k) ==> KindGone(t, k)
    ensures forall n {:trigger Cleared(t, n)} :: Cleared(s, n) ==> Cleared(t, n)
  {
  }

  lemma TendsKeepsGone(s: State, t: State, ks: set<Kind>)
    requires Tends(s, t, ks)
    ensures forall k {:trigger KindGone(t, k)} :: k !in ks && KindGone(s, k) ==> KindGone(t, k)
  {
    forall id | LiveMine(t, id) && t[id].kind !in ks ensures LiveMine(s, id) && s[id].kind == t[id].kind {
      assert Same(s, t, id);
    }
  }

  lemma DriftKeepsUnreferenced(s: State, t: State, id: Id)
    requires Intact(s) && Drifts(s, t) && id in s && s[id].mine && Unreferenced(s, id)
    ensures Unreferenced(t, id)
  {
    assert Moves(s, t, id);
    forall a | Live(t, a) ensures id !in t[a].refs {
      if t[a].mine {
        assert Moves(s, t, a);
        assert Live(s, a);
      }
    }
  }
}
