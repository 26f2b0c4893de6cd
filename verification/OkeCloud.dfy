/** The OCI calls of makeBasicCluster.bash and oke-lifecycle.bash.  Before every answer any
    resource may move on by itself, and every call may fail, carried out or not. */
module OkeCloud {
  import opened Options
  import opened OkeState

  datatype Record = Record(id: Id, kind: Kind, life: Life, mine: bool)

  function RecordOf(id: Id, r: Resource): Record { Record(id, r.kind, r.life, r.mine) }

  predicate Asked(r: Resource, kind: Kind, home: Option<Id>) {
    r.kind == kind && r.name && (home.Some? ==> r.home == home.value)
  }

  // Every live resource that was asked for, and possibly some that are gone.
  predicate Listed(s: State, kind: Kind, home: Option<Id>, rs: seq<Record>) {
    && (forall id :: id in s && s[id].life != Gone && Asked(s[id], kind, home) ==> RecordOf(id, s[id]) in rs)
    && (forall r :: r in rs ==> r.id in s && r == RecordOf(r.id, s[r.id]) && Asked(s[r.id], kind, home))
    && (forall i, j :: 0 <= i < j < |rs| ==> rs[i].id != rs[j].id)
  }

  // --- The record filters ---------------------------------------------------------------------

  function Filter(p: Record -> bool, rs: seq<Record>): (r: seq<Record>)
    ensures forall x :: x in r <==> x in rs && p(x)
    ensures |r| <= |rs|
  {
    if rs == [] then []
    else (if p(rs[0]) then [rs[0]] else []) + Filter(p, rs[1..])
  }

  function LiveRecords(rs: seq<Record>): seq<Record> { Filter((r: Record) => r.life != Gone, rs) }

  function Nontransitioning(rs: seq<Record>): seq<Record> { Filter((r: Record) => r.life != Deleting, rs) }

  function Owned(rs: seq<Record>): seq<Record> { Filter((r: Record) => r.mine, rs) }

  function Unowned(rs: seq<Record>): seq<Record> { Filter((r: Record) => !r.mine, rs) }

  predicate DistinctIds(rs: seq<Record>) {
    forall i, j :: 0 <= i < j < |rs| ==> rs[i].id != rs[j].id
  }

  lemma {:induction false} FilterDistinct(p: Record -> bool, rs: seq<Record>)
    requires DistinctIds(rs)
    ensures DistinctIds(Filter(p, rs))
  {
    if rs != [] {
      FilterDistinct(p, rs[1..]);
      var rest := Filter(p, rs[1..]);
      forall i | 0 <= i < |rest| ensures rest[i].id != rs[0].id {
        assert rest[i] in rs[1..];
      }
    }
  }

  // --- The calls ------------------------------------------------------------------------------

  class Cloud {
    var state: State
    var context: bool  // the kubeconfig context of this deployment
    const exact: bool  // whether lists show every live resource
    const alone: bool  // whether nobody else brings resources of this name to life
    ghost var answers: seq<seq<Record>>  // what the discoveries found, and how often they waited
    ghost var sleeps: nat
    ghost var lists: seq<seq<Record>>  // every answer of a list call
    ghost var failures: nat  // how many calls have failed, and how many waits were given up

    ghost predicate Valid()
      reads this
    {
      Intact(state)
    }

    constructor (state: State, exact: bool, alone: bool)
      requires Intact(state)
      ensures this.state == state && !context && this.exact == exact && this.alone == alone && Valid()
    {
      this.state, context, this.exact, this.alone := state, false, exact, alone;
      answers, sleeps, failures, lists := [], 0, 0, [];
    }

    // What no call but a create, an update or a delete goes beyond.
    twostate predicate Drifted()
      reads this
    {
      && Valid() && context == old(context) && answers == old(answers) && sleeps == old(sleeps)
      && Tends(old(state), state, {}) && Shrinks(old(state), state)
      && (alone && NoStrangers(old(state)) ==> NoStrangers(state))
    }

    // No list answer was forgotten.
    twostate predicate ListsKept()
      reads this
    {
      |old(lists)| <= |lists| && lists[..|old(lists)|] == old(lists)
    }

    method Interfere()
      requires Valid()
      modifies this`state
      ensures Drifted() && Drifts(old(state), state)
    {
      var t: State := *;
      if Drifts(state, t) && (alone && NoStrangers(state) ==> NoStrangers(t)) {
        DriftKeepsIntact(state, t);
        DriftTends(state, t);
        state := t;
      } else {
        NoDrift(state);
        DriftTends(state, state);
      }
    }

    method Sleep()
      requires Valid()
      modifies this`state, this`sleeps
      ensures failures == old(failures)
      ensures Valid() && context == old(context) && answers == old(answers) && sleeps == old(sleeps) + 1
      ensures Tends(old(state), state, {}) && Shrinks(old(state), state)
    {
      Interfere();
      sleeps := sleeps + 1;
    }

    // A list call; None if it fails.
    method List(kind: Kind, home: Option<Id>) returns (r: Option<seq<Record>>)
      requires Valid()
      modifies this`state, this`failures, this`lists
      ensures Drifted() && failures == old(failures) + if r.None? then 1 else 0
      ensures lists == if r.None? then old(lists) else old(lists) + [r.value]
      ensures r.Some? && exact ==> Listed(state, kind, home, r.value)
      ensures r.Some? && exact ==> DistinctIds(r.value)
    {
      Interfere();
      var rs: seq<Record> := *;
      var failed: bool := *;
      if failed || (exact && !Listed(state, kind, home, rs)) {
        failures := failures + 1;
        return None;
      }
      lists := lists + [rs];
      return Some(rs);
    }

    // The state of one resource: Gone if it is not found any more, None if the call fails.
    method Get(id: Id) returns (r: Option<Life>)
      requires Valid() && id in state && state[id].mine
      modifies this`state, this`failures
      ensures Drifted() && failures == old(failures) + if r.None? then 1 else 0
      ensures r.Some? ==> id in state && r.value == state[id].life
    {
      Interfere();
      assert Same(old(state), state, id);
      var failed: bool := *;
      if failed {
        failures := failures + 1;
        return None;
      }
      return Some(state[id].life);
    }

    // A delete command that waits.  It may only be given for a resource of this deployment
    // that nothing refers to.
    method Delete(id: Id) returns (ok: bool)
      requires Valid() && LiveMine(state, id) && Standing(state[id]) && !state[id].kind.Pool?
      requires Unreferenced(state, id)
      modifies this`state, this`failures
      ensures Valid() && context == old(context) && failures == old(failures) + if ok then 0 else 1
      ensures Tends(old(state), state, Touched(old(state[id].kind))) && Shrinks(old(state), state)
      ensures ok ==> id in state && state[id].life == Gone
    {
      Interfere();
      ghost var before := state;
      var life: Life := *;
      assert Stays(old(state), state, id, {});
      if life != Gone && life != Deleting {
        life := state[id].life;
      }
      state := AfterDelete(state, id, life);
      DeleteOutcome(old(state), before, state, id);
      var failed: bool := *;
      ok := !failed && life == Gone;
      failures := failures + if ok then 0 else 1;
    }

    // A create command that waits until the resource is ready; None if it fails, whether or
    // not it created something.
    method Create(r: Resource) returns (id: Option<Id>)
      requires Valid() && MayCreate(state, r) && r.life == Creating
      modifies this`state, this`failures
      ensures Valid() && context == old(context) && failures == old(failures) + if id.None? then 1 else 0
      ensures Tends(old(state), state, {r.kind})
      ensures id.Some? ==> id.value in state && state[id.value] == r.(life := Ready)
    {
      Interfere();
      ghost var before := state;
      StillMayCreate(old(state), state, r);
      TendsWider(old(state), state, {}, {r.kind});
      var taken: bool := *;
      var failed: bool := *;
      var life: Life := *;
      var new_id: Id := *;
      if !taken || new_id in state || life == Gone || life == Deleting
         || exists a :: a in state && !state[a].mine && (new_id in state[a].refs || new_id == state[a].home)
      {
        failures := failures + 1;
        return None;
      }
      CreateKeepsIntact(state, new_id, r.(life := life));
      CreateTends(state, new_id, r.(life := life), {r.kind});
      state := state[new_id := r.(life := life)];
      TendsTransitive(old(state), before, state, {r.kind});
      id := if failed || life != Ready then None else Some(new_id);
      failures := failures + if id.None? then 1 else 0;
    }

    // The resize of a node pool.
    method Resize(id: Id, size: nat) returns (ok: bool)
      requires Valid() && LiveMine(state, id) && state[id].life == Ready
      requires state[id].kind.Pool? && state[id].home in state && Standing(state[state[id].home])
      modifies this`state, this`failures
      ensures Valid() && context == old(context) && failures == old(failures) + if ok then 0 else 1
      ensures Tends(old(state), state, {old(state[id].kind)})
      ensures forall x :: LiveMine(state, x) && state[x].kind == old(state[id].kind) ==> x == id
      ensures LiveMine(state, id) && state[id].kind == old(state[id].kind) && state[id].home == old(state[id].home)
      ensures ok ==> state[id].size == size && state[id].life == Ready
    {
      Interfere();
      ghost var before := state;
      assert Rooted(old(state), id);
      assert Stays(old(state), state, id, {});
      ok := Resized(id, size);
      ResizeOutcome(old(state), before, state, id);
    }

    // What the command makes of the pool: it may fail before or after the size is set.
    method Resized(id: Id, size: nat) returns (ok: bool)
      requires id in state
      modifies this`state, this`failures
      ensures failures == old(failures) + if ok then 0 else 1
      ensures id in state && state[id].life != Gone && state[id].life != Deleting
      ensures state == old(state)[id := old(state[id]).(size := state[id].size, life := state[id].life)]
      ensures ok ==> state[id].size == size && state[id].life == Ready
    {
      var done: bool := *;
      var failed: bool := *;
      var life: Life := *;
      if life == Gone || life == Deleting {
        life := Failed;
      }
      state := state[id := state[id].(size := if done then size else state[id].size, life := life)];
      ok := done && !failed && life == Ready;
      failures := failures + if ok then 0 else 1;
    }

    // node-pool get: the size; None if the call fails.
    method Size(id: Id) returns (r: Option<nat>)
      requires Valid() && id in state && state[id].mine
      modifies this`state, this`failures
      ensures Drifted() && failures == old(failures) + if r.None? then 1 else 0
      ensures r.Some? ==> id in state && r.value == state[id].size
    {
      Interfere();
      assert Same(old(state), state, id);
      var failed: bool := *;
      if failed {
        failures := failures + 1;
        return None;
      }
      return Some(state[id].size);
    }
  }

  // What a delete may change: deleting a cluster takes the node pools along.
  function Touched(k: Kind): set<Kind> {
    if k == Cluster then {Cluster, Pool(System), Pool(Scylla), Pool(Application)} else {k}
  }

  function AfterDelete(s: State, id: Id, life: Life): State
    requires id in s
  {
    map x | x in s ::
      if x == id then s[x].(life := life)
      else if life == Gone && s[x].kind.Pool? && s[x].home == id then s[x].(life := Gone)
      else s[x]
  }

  lemma AfterDeleteDeletes(s: State, id: Id, life: Life)
    requires LiveMine(s, id) && life in {s[id].life, Deleting, Gone}
    ensures Deletes(s, AfterDelete(s, id, life), id)
  {
    var t := AfterDelete(s, id, life);
    assert t.Keys == s.Keys;
    forall x | x in s && x != id ensures Spared(s, t, x, id) {
    }
  }

  lemma DeleteStep(t: State, u: State, id: Id)
    requires Intact(t) && LiveMine(t, id) && Unreferenced(t, id)
    requires id in u && u[id].life in {t[id].life, Deleting, Gone} && u == AfterDelete(t, id, u[id].life)
    ensures Intact(u) && Tends(t, u, Touched(t[id].kind)) && Shrinks(t, u)
  {
    AfterDeleteDeletes(t, id, u[id].life);
    DeleteKeepsIntact(t, u, id);
    if t[id].kind == Cluster {
      forall p ensures Pool(p) in Touched(Cluster) {
        match p case System => case Scylla => case Application =>
      }
    }
    DeleteTends(t, u, id, Touched(t[id].kind));
  }

  lemma DeleteOutcome(s: State, t: State, u: State, id: Id)
    requires Intact(s) && Intact(t) && Drifts(s, t) && Tends(s, t, {}) && Shrinks(s, t)
    requires LiveMine(s, id) && Unreferenced(s, id) && LiveMine(t, id) && t[id].kind == s[id].kind
    requires id in u && u[id].life in {t[id].life, Deleting, Gone} && u == AfterDelete(t, id, u[id].life)
    ensures Intact(u) && Tends(s, u, Touched(s[id].kind)) && Shrinks(s, u)
  {
    DriftKeepsUnreferenced(s, t, id);
    DeleteStep(t, u, id);
    TendsWider(s, t, {}, Touched(s[id].kind));
    TendsTransitive(s, t, u, Touched(s[id].kind));
  }

  lemma StillMayCreate(s: State, t: State, r: Resource)
    requires Intact(s) && MayCreate(s, r) && Tends(s, t, {}) && Shrinks(s, t)
    ensures MayCreate(t, r)
  {
    ShrinksKeeps(s, t);
    forall x | x in r.refs ensures x in t && t[x].mine && Standing(t[x]) && Rank(r.kind) < Rank(t[x].kind) {
      assert Stays(s, t, x, {});
      assert !s[x].kind.Pool?;
    }
    if r.kind.Pool? {
      assert Stays(s, t, r.home, {});
    } else if !r.kind.Vcn? {
      assert Stays(s, t, r.home, {});
    }
  }

  lemma ResizeKeeps(s: State, t: State, id: Id)
    requires Intact(s) && LiveMine(s, id) && s[id].kind.Pool?
    requires id in t && t[id].life != Gone && t == s[id := s[id].(size := t[id].size, life := t[id].life)]
    ensures Intact(t) && Tends(s, t, {s[id].kind})
    ensures forall x :: LiveMine(t, x) && t[x].kind == t[id].kind ==> x == id
  {
    forall a | LiveMine(t, a) ensures Sound(t, a) && Rooted(t, a) && LiveMine(s, a) && s[a].kind == t[a].kind {
      assert LiveMine(s, a) && Sound(s, a) && Rooted(s, a);
      assert id !in t[a].refs;
    }
    forall a | a in t && !t[a].mine ensures Detached(t, t[a]) {
      assert Detached(s, s[a]);
    }
  }

  lemma ResizeOutcome(s: State, t: State, u: State, id: Id)
    requires Intact(t) && Tends(s, t, {}) && LiveMine(s, id) && LiveMine(t, id) && t[id].kind == s[id].kind && s[id].kind.Pool?
    requires id in u && u[id].life != Gone && u == t[id := t[id].(size := u[id].size, life := u[id].life)]
    ensures Intact(u) && Tends(s, u, {s[id].kind})
    ensures forall x :: LiveMine(u, x) && u[x].kind == u[id].kind ==> x == id
  {
    ResizeKeeps(t, u, id);
    TendsWider(s, t, {}, {s[id].kind});
    TendsTransitive(s, t, u, {s[id].kind});
  }
}
