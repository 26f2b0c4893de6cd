/** cleanup_userid_mt.py: the token ranges, and workers that each delete all but the newest row
    of every UserID they come across, while others do the same and rows are inserted. */
module Cleanup {
  import opened Options
  import opened Arithmetic

  const MIN_TOKEN: int := -0x8000_0000_0000_0000
  const MAX_TOKEN: int := 0x7FFF_FFFF_FFFF_FFFF

  // The k-th range for a width.
  function RangeAt(k: int, step: int): (int, int) {
    (MIN_TOKEN + k * (step + 1), Min(MIN_TOKEN + k * (step + 1) + step, MAX_TOKEN))
  }

  /** get_token_ranges */
  method TokenRanges(step: int) returns (ranges: seq<(int, int)>)
    requires step >= 0
    ensures forall k :: 0 <= k < |ranges| ==> ranges[k] == RangeAt(k, step) && ranges[k].0 <= MAX_TOKEN
    ensures RangeAt(|ranges|, step).0 > MAX_TOKEN
  {
    ranges := [];
    var start := MIN_TOKEN;
    while start <= MAX_TOKEN
      invariant start == RangeAt(|ranges|, step).0 || (start == MAX_TOKEN + 1 && RangeAt(|ranges|, step).0 > MAX_TOKEN)
      invariant forall k :: 0 <= k < |ranges| ==> ranges[k] == RangeAt(k, step) && ranges[k].0 <= MAX_TOKEN
      decreases MAX_TOKEN + 1 - start
    {
      NextRange(|ranges|, step);
      var end := Min(start + step, MAX_TOKEN);
      ranges := ranges + [(start, end)];
      start := end + 1;
    }
  }

  lemma NextRange(k: int, step: int)
    ensures RangeAt(k + 1, step).0 == RangeAt(k, step).0 + step + 1
  {
    assert (k + 1) * (step + 1) == k * (step + 1) + (step + 1);
  }

  predicate Within(t: int, r: (int, int)) { r.0 <= t <= r.1 }

  // TOKEN > start AND TOKEN <= end
  predicate Queried(t: int, r: (int, int)) { r.0 < t <= r.1 }

  lemma PlaceOf(t: int, k: int, step: int)
    requires step >= 0 && MIN_TOKEN <= t <= MAX_TOKEN
    ensures Within(t, RangeAt(k, step)) <==> k == (t - MIN_TOKEN) / (step + 1)
    ensures Queried(t, RangeAt(k, step)) <==>
            k == (t - MIN_TOKEN) / (step + 1) && (t - MIN_TOKEN) % (step + 1) != 0
  {
    var w := step + 1;
    var (q, r) := ((t - MIN_TOKEN) / w, (t - MIN_TOKEN) % w);
    assert t - MIN_TOKEN == w * q + r;
    assert (k - q) * w == k * w - q * w;
    if k != q {
      AtLeast(k - q, w);
    }
  }

  /** The closed ranges hold every token exactly once; the queries, which leave out where a range
      starts, ask for a token exactly if it is not the start of a range. */
  lemma RangesTile(ranges: seq<(int, int)>, step: int, t: int)
    requires step >= 0 && MIN_TOKEN <= t <= MAX_TOKEN
    requires forall k :: 0 <= k < |ranges| ==> ranges[k] == RangeAt(k, step)
    requires RangeAt(|ranges|, step).0 > MAX_TOKEN
    ensures exists k :: 0 <= k < |ranges| && Within(t, ranges[k])
    ensures forall i, j :: 0 <= i < |ranges| && 0 <= j < |ranges| && Within(t, ranges[i]) && Within(t, ranges[j]) ==> i == j
    ensures (exists k :: 0 <= k < |ranges| && Queried(t, ranges[k])) <==>
            forall j :: 0 <= j < |ranges| ==> ranges[j].0 != t
  {
    var k := (t - MIN_TOKEN) / (step + 1);
    PlaceIsThere(t, k, |ranges|, step);
    assert Within(t, ranges[k]);
    forall j | 0 <= j < |ranges|
      ensures Within(t, ranges[j]) <==> j == k
      ensures ranges[j].0 == t ==> Within(t, ranges[j])
      ensures Queried(t, ranges[j]) <==> Within(t, ranges[j]) && ranges[j].0 != t
    {
      PlaceOf(t, j, step);
    }
  }

  lemma PlaceIsThere(t: int, k: int, n: nat, step: int)
    requires step >= 0 && MIN_TOKEN <= t <= MAX_TOKEN && k == (t - MIN_TOKEN) / (step + 1)
    requires RangeAt(n, step).0 > MAX_TOKEN
    ensures 0 <= k < n && Within(t, RangeAt(k, step))
  {
    PlaceOf(t, k, step);
    if k >= n {
      Beyond(k, n, step);
    }
  }

  lemma Beyond(k: int, n: int, step: int)
    requires k >= n && step >= 0
    ensures RangeAt(k, step).0 >= RangeAt(n, step).0
  {
    assert k * (step + 1) >= n * (step + 1);
  }

  /** A negative width never gets to a later start. */
  lemma StartAdvancesIff(start: int, step: int)
    requires start <= MAX_TOKEN
    ensures Min(start + step, MAX_TOKEN) + 1 > start <==> step >= 0
  {
  }

  // --- Rows ---------------------------------------------------------------------------------

  type User = nat
  type Rows = set<(User, int)>  // UserID and LastUpdated

  ghost predicate Newest(rows: Rows, u: User, n: int) {
    (u, n) in rows && forall t :: (u, t) in rows ==> t <= n
  }

  function Below(rows: Rows, u: User, n: int): Rows { set r | r in rows && !(r.0 == u && r.1 < n) }

  lemma Fewer<T>(a: set<T>, b: set<T>, x: T)
    requires x in b && a <= b - {x}
    ensures |a| < |b|
  {
    Subset(a, b - {x});
  }

  lemma {:induction false} Subset<T>(a: set<T>, b: set<T>)
    requires a <= b
    ensures |a| <= |b|
  {
    if a != {} {
      var x :| x in a;
      Subset(a - {x}, b - {x});
    }
  }

  lemma NewestExists(rows: Rows, u: User, t: int)
    requires (u, t) in rows
    ensures exists n :: n >= t && Newest(rows, u, n)
  {
    NewestFrom(rows, u, t, |set x | x in rows && x.0 == u && x.1 > t|);
  }

  lemma {:induction false} NewestFrom(rows: Rows, u: User, t: int, size: nat)
    requires (u, t) in rows && size == |set x | x in rows && x.0 == u && x.1 > t|
    ensures exists n :: n >= t && Newest(rows, u, n)
    decreases size
  {
    var later := set x | x in rows && x.0 == u && x.1 > t;
    if later == {} {
      assert Newest(rows, u, t) by {
        forall x | (u, x) in rows ensures x <= t {
          assert (u, x) !in later;
        }
      }
    } else {
      var r :| r in later;
      var less := set x | x in rows && x.0 == u && x.1 > r.1;
      Fewer(less, later, r);
      NewestFrom(rows, u, r.1, |less|);
      var n :| n >= r.1 && Newest(rows, u, n);
    }
  }

  // --- Interleavings --------------------------------------------------------------------------

  type Worker = nat

  // What each worker has read and is about to delete below.
  datatype State = State(rows: Rows, plans: map<Worker, (User, int)>)

  // A worker reads the maximum of a user, deletes below it, or gives up; a row is inserted.
  datatype Step = Insert(user: User, time: int) | Plan(worker: Worker, user: User, max: int) | Delete(worker: Worker) | GiveUp(worker: Worker)

  ghost predicate Enabled(s: State, step: Step) {
    match step
    case Insert(_, _) => true
    case Plan(w, u, n) => Newest(s.rows, u, n) && n != 0
    case Delete(w) => w in s.plans
    case GiveUp(w) => w in s.plans
  }

  function After(s: State, step: Step): State {
    match step
    case Insert(u, t) => s.(rows := s.rows + {(u, t)})
    case Plan(w, u, n) => s.(plans := s.plans[w := (u, n)])
    case Delete(w) =>
      if w in s.plans then State(Below(s.rows, s.plans[w].0, s.plans[w].1), s.plans - {w}) else s
    case GiveUp(w) => s.(plans := s.plans - {w})
  }

  ghost predicate Run(s: State, steps: seq<Step>)
    decreases |steps|
  {
    steps == [] || (Enabled(s, steps[0]) && Run(After(s, steps[0]), steps[1..]))
  }

  function End(s: State, steps: seq<Step>): State
    decreases |steps|
  {
    if steps == [] then s else End(After(s, steps[0]), steps[1..])
  }

  // The user has a row at least as new.
  ghost predicate Covered(rows: Rows, u: User, n: int) { exists m :: m >= n && (u, m) in rows }

  // No worker is about to delete beyond a row that is there.
  ghost predicate Safe(s: State) {
    forall w :: w in s.plans ==> Covered(s.rows, s.plans[w].0, s.plans[w].1)
  }

  // Every user that had rows still has one at least as new.
  ghost predicate Kept(before: Rows, after: Rows) {
    forall u, n :: (u, n) in before ==> Covered(after, u, n)
  }

  lemma StillCovered(a: Rows, b: Rows, u: User, n: int)
    requires Kept(a, b) && Covered(a, u, n)
    ensures Covered(b, u, n)
  {
    var m :| m >= n && (u, m) in a;
    assert Covered(b, u, m);
  }

  lemma GrownIsKept(a: Rows, b: Rows)
    requires a <= b
    ensures Kept(a, b)
  {
    forall u, n | (u, n) in a ensures Covered(b, u, n) {
      assert (u, n) in b;
    }
  }

  lemma BelowIsKept(rows: Rows, u: User, n: int)
    requires Covered(rows, u, n)
    ensures Kept(rows, Below(rows, u, n))
  {
    var k :| k >= n && (u, k) in rows;
    assert (u, k) in Below(rows, u, n);
    forall v, x | (v, x) in rows ensures Covered(Below(rows, u, n), v, x) {
      assert (v, x) in Below(rows, u, n) || (v == u && k >= x);
    }
  }

  lemma StepKeeps(s: State, step: Step)
    requires Safe(s) && Enabled(s, step)
    ensures Safe(After(s, step)) && Kept(s.rows, After(s, step).rows)
  {
    var t := After(s, step);
    if step.Delete? {
      BelowIsKept(s.rows, s.plans[step.worker].0, s.plans[step.worker].1);
    } else {
      GrownIsKept(s.rows, t.rows);
    }
    forall w | w in t.plans ensures Covered(t.rows, t.plans[w].0, t.plans[w].1) {
      if w in s.plans && t.plans[w] == s.plans[w] {
        StillCovered(s.rows, t.rows, s.plans[w].0, s.plans[w].1);
      } else {
        assert (t.plans[w].0, t.plans[w].1) in t.rows;
      }
    }
  }

  lemma KeptThen(a: Rows, b: Rows, c: Rows)
    requires Kept(a, b) && Kept(b, c)
    ensures Kept(a, c)
  {
    forall u, n | (u, n) in a ensures Covered(c, u, n) {
      StillCovered(b, c, u, n);
    }
  }

  /** In every interleaving of workers and inserts, at every point the newest row of each user
      is one that was there before or a newer one: it is never deleted. */
  lemma {:induction false} NewestSurvives(s: State, steps: seq<Step>)
    requires Safe(s) && Run(s, steps)
    ensures Safe(End(s, steps)) && Kept(s.rows, End(s, steps).rows)
    decreases |steps|
  {
    if steps != [] {
      StepKeeps(s, steps[0]);
      NewestSurvives(After(s, steps[0]), steps[1..]);
      KeptThen(s.rows, After(s, steps[0]).rows, End(s, steps).rows);
    }
  }

  /** The newest row itself stays until a newer one is inserted. */
  lemma NewestIsNotDeleted(s: State, step: Step, u: User, n: int)
    requires Safe(s) && Enabled(s, step) && Newest(s.rows, u, n)
    ensures (u, n) in After(s, step).rows
    ensures Newest(After(s, step).rows, u, n) || (step.Insert? && step.user == u && step.time > n)
  {
    if step.Delete? {
      assert Covered(s.rows, s.plans[step.worker].0, s.plans[step.worker].1);
    }
  }

  // The users whose rows some worker deleted.
  function Visited(s: State, steps: seq<Step>): set<User>
    decreases |steps|
  {
    if steps == [] then {}
    else (if steps[0].Delete? && steps[0].worker in s.plans then {s.plans[steps[0].worker].0} else {})
         + Visited(After(s, steps[0]), steps[1..])
  }

  // All rows, but of the given users only the newest.
  ghost predicate CleanedOf(before: Rows, after: Rows, users: set<User>) {
    forall u, n :: (u, n) in after <==> (u, n) in before && (u in users ==> Newest(before, u, n))
  }

  ghost predicate PlansNewest(s: State) {
    forall w :: w in s.plans ==> Newest(s.rows, s.plans[w].0, s.plans[w].1)
  }

  /** Without inserts the outcome does not depend on the interleaving: each visited user is left
      with exactly its newest row, and nothing else is deleted. */
  lemma {:induction false} Confluent(s: State, steps: seq<Step>)
    requires PlansNewest(s) && Run(s, steps) && forall i :: 0 <= i < |steps| ==> !steps[i].Insert?
    ensures CleanedOf(s.rows, End(s, steps).rows, Visited(s, steps))
    decreases |steps|
  {
    if steps != [] {
      var t := After(s, steps[0]);
      QuietStep(s, steps[0]);
      Confluent(t, steps[1..]);
      var first := if steps[0].Delete? then {s.plans[steps[0].worker].0} else {};
      CleanedThen(s.rows, t.rows, End(s, steps).rows, first, Visited(t, steps[1..]));
    }
  }

  lemma QuietStep(s: State, step: Step)
    requires PlansNewest(s) && Enabled(s, step) && !step.Insert?
    ensures PlansNewest(After(s, step))
    ensures CleanedOf(s.rows, After(s, step).rows, if step.Delete? then {s.plans[step.worker].0} else {})
  {
  }

  lemma CleanedThen(a: Rows, b: Rows, c: Rows, x: set<User>, y: set<User>)
    requires CleanedOf(a, b, x) && CleanedOf(b, c, y)
    ensures CleanedOf(a, c, x + y)
  {
    forall u, n ensures (u, n) in c <==> (u, n) in a && (u in x + y ==> Newest(a, u, n)) {
      if (u, n) in a && Newest(a, u, n) {
        assert Newest(b, u, n);
      }
      if (u, n) in b && Newest(b, u, n) {
        NewestExists(a, u, n);
        var m :| m >= n && Newest(a, u, m);
        assert (u, m) in b;
      }
    }
  }

  // --- One worker -----------------------------------------------------------------------------

  // What others may do to the table meanwhile: a step of some worker, or an insert.
  ghost predicate Others(before: Rows, after: Rows, quiet: bool) {
    && Kept(before, after)
    && (quiet ==> after <= before && NewestStay(before, after))
  }

  ghost predicate NewestStay(before: Rows, after: Rows) {
    forall u, n :: Newest(before, u, n) ==> Newest(after, u, n)
  }

  lemma OthersThen(a: Rows, b: Rows, c: Rows, quiet: bool)
    requires Others(a, b, quiet) && Others(b, c, quiet)
    ensures Others(a, c, quiet)
  {
    KeptThen(a, b, c);
  }

  lemma BelowIsOthers(rows: Rows, u: User, n: int, quiet: bool)
    requires Covered(rows, u, n)
    ensures Others(rows, Below(rows, u, n), quiet)
  {
    BelowIsKept(rows, u, n);
    var k :| k >= n && (u, k) in rows;
    forall v, x | Newest(rows, v, x) ensures Newest(Below(rows, u, n), v, x) {
      assert v == u ==> k <= x;
    }
  }

  predicate Greatest(rows: Rows, u: User, best: (User, int)) {
    best in rows && best.0 == u && forall x :: x in rows && x.0 == u ==> x.1 <= best.1
  }

  lemma GreatestExists(rows: Rows, u: User, r: (User, int))
    requires r in rows && r.0 == u
    ensures exists best :: Greatest(rows, u, best)
  {
    assert r == (u, r.1);
    NewestExists(rows, u, r.1);
    var n :| n >= r.1 && Newest(rows, u, n);
    forall x | x in rows && x.0 == u ensures x.1 <= n {
      assert (u, x.1) == x;
      assert (u, x.1) in rows;
    }
    assert Greatest(rows, u, (u, n));
  }

  class Table {
    var rows: Rows
    const quiet: bool  // nothing is inserted while the workers run

    constructor (rows: Rows, quiet: bool)
      ensures this.rows == rows && this.quiet == quiet
    {
      this.rows, this.quiet := rows, quiet;
    }

    // An insert, or a deletion below something that some worker has read before.
    method OtherStep()
      modifies this
      ensures Others(old(rows), rows, quiet)
    {
      var u: User := *;
      var time: int := *;
      if exists r :: r in rows && r.0 == u && r.1 >= time {
        var r :| r in rows && r.0 == u && r.1 >= time;
        assert (u, r.1) == r;
        BelowIsOthers(rows, u, time, quiet);
        rows := Below(rows, u, time);
      } else if !quiet {
        GrownIsKept(rows, rows + {(u, time)});
        rows := rows + {(u, time)};
      } else {
        GrownIsKept(rows, rows);
      }
    }

    method Interfere()
      modifies this
      ensures Others(old(rows), rows, quiet)
    {
      GrownIsKept(rows, rows);
      var n :| 0 <= n;
      while n > 0
        invariant Others(old(rows), rows, quiet)
      {
        ghost var before := rows;
        OtherStep();
        OthersThen(old(rows), before, rows, quiet);
        n := n - 1;
      }
    }

    // SELECT MAX("LastUpdated")
    method Max(u: User) returns (n: Option<int>)
      modifies this
      ensures Others(old(rows), rows, quiet)
      ensures n.Some? ==> Newest(rows, u, n.value)
      ensures n.None? ==> forall t :: (u, t) !in rows
    {
      Interfere();
      if !exists r :: r in rows && r.0 == u {
        forall t ensures (u, t) !in rows {
          assert (u, t).0 == u;
        }
        return None;
      }
      ghost var r :| r in rows && r.0 == u;
      GreatestExists(rows, u, r);
      var best :| best in rows && Greatest(rows, u, best);
      assert best == (u, best.1);
      forall t | (u, t) in rows ensures t <= best.1 {
        assert (u, t).0 == u;
      }
      return Some(best.1);
    }

    // DELETE ... WHERE "LastUpdated" < n
    method DeleteBelow(u: User, n: int)
      requires Covered(rows, u, n)
      modifies this
      ensures Others(old(rows), rows, quiet)
      ensures forall t :: (u, t) in rows ==> t >= n
    {
      Interfere();
      StillCovered(old(rows), rows, u, n);
      BelowIsOthers(rows, u, n, quiet);
      OthersThen(old(rows), rows, Below(rows, u, n), quiet);
      rows := Below(rows, u, n);
    }
  }

  // Exactly the newest row of the user is left.
  ghost predicate OnlyNewest(rows: Rows, u: User) {
    forall t :: (u, t) in rows ==> Newest(rows, u, t)
  }

  lemma StillOnlyNewest(a: Rows, b: Rows, u: User)
    requires b <= a && NewestStay(a, b) && OnlyNewest(a, u)
    ensures OnlyNewest(b, u)
  {
  }

  ghost predicate AllOnlyNewest(rows: Rows, users: set<User>) { forall u :: u in users ==> OnlyNewest(rows, u) }

  lemma OneMoreUser(a: Rows, b: Rows, done: set<User>, u: User, n: int)
    requires b <= a && NewestStay(a, b) && AllOnlyNewest(a, done)
    ensures AllOnlyNewest(b, done)
    ensures Newest(a, u, n) && (forall t :: (u, t) in b ==> t >= n) ==> AllOnlyNewest(b, done + {u})
  {
    forall v | v in done ensures OnlyNewest(b, v) {
      StillOnlyNewest(a, b, v);
    }
  }

  // The maximum of the user's rows is null or zero.
  ghost predicate Falsy(rows: Rows, u: User) { forall n :: Newest(rows, u, n) ==> n == 0 }

  // Of the first rows each was deleted for, or failed, or has nothing to delete for.
  ghost predicate AllTaken(rows: Rows, users: seq<User>, n: int, fails: int -> bool, done: set<User>) {
    forall i :: 0 <= i < n && i < |users| && !fails(i) ==> users[i] in done || Falsy(rows, users[i])
  }

  lemma OneTaken(first: Rows, before: Rows, users: seq<User>, i: nat, fails: int -> bool, done: set<User>, deleted: bool)
    requires i < |users| && AllTaken(first, users, i, fails, done) && NewestStay(first, before)
    requires !fails(i) && !deleted ==> Falsy(before, users[i])
    ensures AllTaken(first, users, i + 1, fails, if deleted then done + {users[i]} else done)
  {
  }

  // One row of the query: its user is cleaned, unless a statement fails or the maximum is falsy.
  method CleanUser(table: Table, u: User, failed: bool, ghost done: set<User>) returns (deleted: bool)
    modifies table
    ensures deleted ==> !failed
    ensures table.quiet && !failed && !deleted ==> Falsy(old(table.rows), u)
    ensures Others(old(table.rows), table.rows, table.quiet)
    ensures table.quiet && AllOnlyNewest(old(table.rows), done) ==>
              AllOnlyNewest(table.rows, if deleted then done + {u} else done)
  {
    var max := table.Max(u);
    ghost var read := table.rows;
    if table.quiet && AllOnlyNewest(old(table.rows), done) {
      OneMoreUser(old(table.rows), read, done, u, 0);
    }
    if failed || max.None? || max.value == 0 {
      return false;
    }
    assert Covered(read, u, max.value);
    table.DeleteBelow(u, max.value);
    OthersThen(old(table.rows), read, table.rows, table.quiet);
    if table.quiet && AllOnlyNewest(old(table.rows), done) {
      OneMoreUser(read, table.rows, done, u, max.value);
    }
    return true;
  }

  /** cleanup_range over the rows that its query returned, repeated users included: no user loses
      its newest row, and if nothing is inserted every user whose maximum is not zero is left with
      exactly that one, unless all statements for it fail. */
  method CleanupRange(table: Table, users: seq<User>, fails: int -> bool) returns (totalDeleted: nat, done: set<User>)
    modifies table
    ensures table.quiet ==> AllTaken(old(table.rows), users, |users|, fails, done)
    ensures Others(old(table.rows), table.rows, table.quiet)
    ensures table.quiet ==> AllOnlyNewest(table.rows, done)
    ensures forall u :: u in done ==> u in users
    ensures totalDeleted <= |users|
  {
    totalDeleted, done := 0, {};
    GrownIsKept(table.rows, table.rows);
    for i := 0 to |users|
      invariant Others(old(table.rows), table.rows, table.quiet)
      invariant table.quiet ==> AllOnlyNewest(table.rows, done)
      invariant forall u :: u in done ==> u in users
      invariant totalDeleted <= i
      invariant table.quiet ==> AllTaken(old(table.rows), users, i, fails, done)
    {
      ghost var before := table.rows;
      var deleted := CleanUser(table, users[i], fails(i), done);
      OthersThen(old(table.rows), before, table.rows, table.quiet);
      if table.quiet {
        OneTaken(old(table.rows), before, users, i, fails, done, deleted);
      }
      if deleted {
        totalDeleted, done := totalDeleted + 1, done + {users[i]};
      }
    }
  }
}
