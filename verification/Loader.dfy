/** The division of the rows among workers and batches in 64-bit arithmetic: run and
    WorkerTask.call of ScyllaLoader.java. */
module Loader {
  import opened Writers
  import opened Sequences
  import opened Arithmetic
  import opened Split

  // The options --row_count, --workers, --offset and --batch_size.
  datatype Job = Job(count: Long, workers: int, offset: Long, batchSize: int) {
    predicate Valid() { 1 <= workers < 0x8000_0000 && 1 <= batchSize < 0x8000_0000 }
  }

  const MODULUS: int := 0x1_0000_0000_0000_0000

  // Java's division of longs, for a positive divisor.
  function Quotient(a: int, b: int): int
    requires b > 0
  {
    if a >= 0 then a / b else -(-a / b)
  }

  // (rowCount + effectiveWorkers - 1L) / effectiveWorkers without wrapping around.
  function Span(count: int, workers: int): int
    requires workers > 0
  {
    Quotient(count + workers - 1, workers)
  }

  lemma SpanReaches(count: int, workers: int)
    requires workers > 0
    ensures count > 0 ==> Span(count, workers) > 0 && count <= workers * Span(count, workers) <= count + workers - 1
    ensures count <= 0 ==> Span(count, workers) <= 0 && workers * Span(count, workers) >= count
  {
    var n := count + workers - 1;
    if n >= 0 {
      assert n == workers * (n / workers) + n % workers;
      if count <= 0 {
        SmallQuotient(n, workers);
      }
    } else {
      assert -n == workers * (-n / workers) + (-n) % workers;
      assert workers * -(-n / workers) == -(workers * (-n / workers));
    }
  }

  lemma SmallQuotient(n: int, d: int)
    requires 0 <= n < d
    ensures n / d == 0
  {
  }

  // The same in longs.
  function LongSpan(count: Long, workers: int): int
    requires workers > 0
  {
    Quotient(Wrap(Wrap(count + workers) - 1), workers)
  }

  function StartId(w: int, span: int, offset: Long): Long { Wrap(Wrap(Wrap(w * span) + offset) + 1) }

  function EndId(w: int, span: int, count: Long, offset: Long): Long {
    Min(Wrap(Wrap((w + 1) * span) + offset), Wrap(count + offset))
  }

  datatype Range = Range(first: int, last: int) {
    predicate Has(id: int) { first <= id <= last }
  }

  // The range of each worker.
  function RangesOf(workers: nat, span: int, count: Long, offset: Long): (rs: seq<Range>)
    ensures |rs| == workers
  {
    seq(workers, w => Range(StartId(w, span, offset), EndId(w, span, count, offset)))
  }

  function Ranges(j: Job): (rs: seq<Range>)
    requires j.Valid()
    ensures |rs| == j.workers
  {
    RangesOf(j.workers, LongSpan(j.count, j.workers), j.count, j.offset)
  }

  // What the first n workers are given, one after the other.
  function Given(rs: seq<Range>, n: nat): seq<int>
    requires n <= |rs|
  {
    if n == 0 then [] else Given(rs, n - 1) + Ids(rs[n - 1].first, rs[n - 1].last)
  }

  lemma {:induction false} GivenHas(rs: seq<Range>, n: nat, id: int)
    requires n <= |rs|
    ensures id in Given(rs, n) <==> exists w :: 0 <= w < n && rs[w].Has(id)
  {
    if n > 0 {
      GivenHas(rs, n - 1, id);
      assert id in Ids(rs[n - 1].first, rs[n - 1].last) <==> rs[n - 1].Has(id);
    }
  }

  lemma NotGiven(rs: seq<Range>, w: nat, id: int, first: int, last: int)
    requires w < |rs| && rs[w].Has(id) && !(first <= id <= last)
    ensures Given(rs, |rs|) != Ids(first, last)
  {
    GivenHas(rs, |rs|, id);
    assert id !in Ids(first, last);
  }

  lemma NotReached(rs: seq<Range>, id: int, first: int, last: int)
    requires first <= id <= last && forall w :: 0 <= w < |rs| ==> !rs[w].Has(id)
    ensures Given(rs, |rs|) != Ids(first, last)
  {
    GivenHas(rs, |rs|, id);
    assert id in Ids(first, last);
  }

  // All workers but the first are without an id.
  lemma {:induction false} FirstTakesAll(rs: seq<Range>, n: nat)
    requires 1 <= n <= |rs| && forall w :: 1 <= w < |rs| ==> rs[w].first > rs[w].last
    ensures Given(rs, n) == Ids(rs[0].first, rs[0].last)
  {
    if n == 1 {
      assert Given(rs, 0) == [];
      Nothing(Ids(rs[0].first, rs[0].last));
    } else {
      FirstTakesAll(rs, n - 1);
      assert Ids(rs[n - 1].first, rs[n - 1].last) == [];
      Nothing(Given(rs, n - 1));
    }
  }

  // The workers are given what the exact sums say.
  lemma {:induction false} GivenIsVisited(rs: seq<Range>, n: nat, span: int, count: int, offset: int)
    requires n <= |rs|
    requires forall w :: 0 <= w < |rs| ==>
               Ids(rs[w].first, rs[w].last) == Ids(WorkerFirst(w, span) + offset, WorkerLast(w, span, count) + offset)
    ensures Given(rs, n) == Shifted(Visited(n, span, count), offset)
  {
    if n > 0 {
      GivenIsVisited(rs, n - 1, span, count, offset);
      ShiftedStep(n - 1, span, count, offset);
    }
  }

  // --- Wrapping around ------------------------------------------------------------------------

  // A sum of two longs that leaves their range comes back at the other end.
  function Turn(x: int): int {
    if x > MAX_LONG then x - MODULUS else if x < MIN_LONG then x + MODULUS else x
  }

  lemma WrapTurns(x: int)
    requires 2 * MIN_LONG <= x <= 2 * MAX_LONG + 1
    ensures Wrap(x) == Turn(x)
  {
  }

  lemma WrapOnce(a: int, b: int)
    ensures Wrap(Wrap(a) + b) == Wrap(a + b)
  {
    var k := (a - MIN_LONG) / MODULUS;
    var v := Wrap(a) + b - MIN_LONG;
    Division(a + b - MIN_LONG, MODULUS, v / MODULUS + k, v % MODULUS);
  }

  lemma RangeTurns(w: int, span: int, count: Long, offset: Long)
    requires MIN_LONG <= w * span <= MAX_LONG && MIN_LONG <= (w + 1) * span <= MAX_LONG
    ensures StartId(w, span, offset) == Turn(w * span + offset + 1)
    ensures EndId(w, span, count, offset) == Min(Turn((w + 1) * span + offset), Turn(count + offset))
  {
    WrapOnce(w * span + offset, 1);
    WrapTurns(w * span + offset + 1);
    WrapTurns((w + 1) * span + offset);
    WrapTurns(count + offset);
  }

  // The range of the worker whose ids begin after p.
  function TurnedRange(p: int, span: int, count: int, offset: int): Range {
    Range(Turn(p + offset + 1), Min(Turn(p + span + offset), Turn(count + offset)))
  }

  predicate Turned(rs: seq<Range>, span: int, count: int, offset: int) {
    forall w :: 0 <= w < |rs| ==> rs[w] == TurnedRange(w * span, span, count, offset)
  }

  lemma RangesTurn(workers: nat, span: int, count: Long, offset: Long)
    requires MIN_LONG <= workers * span <= MAX_LONG
    ensures Turned(RangesOf(workers, span, count, offset), span, count, offset)
  {
    var rs := RangesOf(workers, span, count, offset);
    forall w | 0 <= w < workers ensures rs[w] == TurnedRange(w * span, span, count, offset) {
      Between(w, workers, span);
      Between(w + 1, workers, span);
      RangeTurns(w, span, count, offset);
      NextProduct(w, span);
    }
  }

  lemma NextProduct(w: int, span: int)
    ensures (w + 1) * span == w * span + span
  {
  }

  /** The span is the exact quotient unless the sum overflows; then it is negative. */
  lemma SpanExactIff(count: Long, workers: int)
    requires 1 <= workers < 0x8000_0000
    ensures LongSpan(count, workers) == Span(count, workers) <==> count + workers - 1 <= MAX_LONG
    ensures count + workers - 1 > MAX_LONG ==>
              LongSpan(count, workers) == Quotient(count + workers - 1 - MODULUS, workers) < 0
  {
    WrapOnce(count + workers, -1);
    if count + workers - 1 > MAX_LONG {
      WrapTurns(count + workers - 1);
      NegativeSpan(count + workers - 1 - MODULUS, workers);
      SpanReaches(count, workers);
    }
  }

  lemma NegativeSpan(n: int, workers: int)
    requires n < 0 && workers > 0
    ensures Quotient(n, workers) <= 0 && n <= workers * Quotient(n, workers) <= n + workers - 1
    ensures n <= -workers ==> Quotient(n, workers) < 0
  {
    assert -n == workers * (-n / workers) + (-n) % workers;
    assert workers * -(-n / workers) == -(workers * (-n / workers));
    if n <= -workers {
      Positive(workers, -n / workers);
    }
  }

  lemma Positive(a: int, b: int)
    requires a > 0 && a * b > 0
    ensures b > 0
  {
  }

  // Where the workers up to `workers` begin and end, before the offset is added.
  lemma Between(w: int, workers: int, span: int)
    requires 0 <= w <= workers
    ensures if span >= 0 then 0 <= w * span <= workers * span else workers * span <= w * span <= 0
  {
    if span >= 0 {
      assert 0 <= w * span <= workers * span;
    } else {
      assert workers * span <= w * span <= 0;
    }
  }

  // --- When the split is exact ----------------------------------------------------------------

  // The end of the last worker with an id, before the offset is added: the first multiple of the
  // span that reaches the count.
  function Reach(count: int, span: int): int { if span <= 0 then 0 else Span(count, span) * span }

  lemma ReachIsLeast(k: nat, span: int, count: int)
    requires span > 0 && count >= 0
    ensures count <= Reach(count, span)
    ensures k * span >= count ==> k * span >= Reach(count, span)
  {
    var n := Span(count, span);
    SpanReaches(count, span);
    if k < n {
      AtMost(k, n - 1, span);
      assert (n - 1) * span == n * span - span;
    } else {
      AtMost(n, k, span);
    }
  }

  // No sum that decides where a worker begins or ends leaves the range of a long; or, by
  // accident, the span overflowed and the first worker is given everything.
  predicate Fits(count: Long, workers: int, offset: Long)
    requires workers > 0
  {
    FitsWith(LongSpan(count, workers), count, workers, offset)
  }

  predicate FitsWith(span: int, count: int, workers: int, offset: int) {
    if count + workers - 1 > MAX_LONG then span + offset + 1 < MIN_LONG
    else if count < 0 then offset < MAX_LONG && workers * span + offset >= MIN_LONG
    else Reach(count, span) + offset <= MAX_LONG && (workers - 1) * span + offset < MAX_LONG
  }

  ghost predicate Exact(rs: seq<Range>, count: int, offset: int) {
    Given(rs, |rs|) == Ids(offset + 1, offset + count)
  }

  // --- Counts that are not negative -----------------------------------------------------------

  lemma UpExact(rs: seq<Range>, span: int, count: Long, offset: Long)
    requires Turned(rs, span, count, offset) && 0 <= span && 0 <= count <= |rs| * span <= MAX_LONG
    requires Reach(count, span) + offset <= MAX_LONG && (|rs| - 1) * span + offset < MAX_LONG
    ensures Exact(rs, count, offset)
  {
    var workers := |rs|;
    forall w | 0 <= w < workers
      ensures Ids(rs[w].first, rs[w].last) == Ids(WorkerFirst(w, span) + offset, WorkerLast(w, span, count) + offset)
    {
      SameUp(w, workers, span, count, offset);
    }
    GivenIsVisited(rs, workers, span, count, offset);
    WorkersTile(workers, span, count);
    ShiftedIds(1, count, offset);
    if span == 0 {
      assert workers * span == 0;
    }
  }

  lemma SameUp(w: nat, workers: int, span: int, count: Long, offset: Long)
    requires w < workers && 0 <= span && 0 <= count <= workers * span <= MAX_LONG
    requires Reach(count, span) + offset <= MAX_LONG && (workers - 1) * span + offset < MAX_LONG
    ensures var r := TurnedRange(w * span, span, count, offset);
            Ids(r.first, r.last) == Ids(WorkerFirst(w, span) + offset, WorkerLast(w, span, count) + offset)
  {
    Between(w, workers, span);
    NextProduct(w, span);
    Times(w + 1, workers, span);
    Times(w, workers - 1, span);
    if span == 0 {
      assert w * span == 0 && workers * span == 0;
    } else {
      ReachIsLeast(0, span, count);
      if w * span < count {
        EndsInReach(w, span, count);
      }
    }
  }

  lemma Times(a: int, b: int, span: int)
    requires a <= b && span >= 0
    ensures a * span <= b * span
  {
  }

  lemma EndsInReach(w: nat, span: int, count: int)
    requires span > 0 && w * span < count
    ensures (w + 1) * span <= Reach(count, span)
  {
    var n := Span(count, span);
    SpanReaches(count, span);
    if n <= w {
      Times(n, w, span);
    } else {
      Times(w + 1, n, span);
    }
  }

  lemma UpBroken(rs: seq<Range>, span: int, count: Long, offset: Long)
    requires |rs| > 0 && Turned(rs, span, count, offset) && 0 <= span && 0 <= count <= |rs| * span <= MAX_LONG
    requires Reach(count, span) + offset > MAX_LONG || (|rs| - 1) * span + offset >= MAX_LONG
    ensures !Exact(rs, count, offset)
  {
    if Reach(count, span) + offset > MAX_LONG && count > 0 {
      forall w | 0 <= w < |rs| ensures !rs[w].Has(offset + count) {
        Between(w, |rs|, span);
        Times(w + 1, |rs|, span);
        EndsBefore(w, span, count, offset);
      }
      NotReached(rs, offset + count, offset + 1, offset + count);
    } else {
      LastGoesRound(rs, span, count, offset);
    }
  }

  // If the worker that should end the range wraps around, nobody gets that far.
  lemma EndsBefore(w: nat, span: int, count: Long, offset: Long)
    requires 0 < span && 0 < count && 0 <= w * span && (w + 1) * span <= MAX_LONG && Reach(count, span) + offset > MAX_LONG
    ensures !TurnedRange(w * span, span, count, offset).Has(offset + count)
  {
    NextProduct(w, span);
    ReachIsLeast(w + 1, span, count);
  }

  // The last worker begins beyond the range of a long, that is, at the other end of it.
  lemma LastGoesRound(rs: seq<Range>, span: int, count: Long, offset: Long)
    requires |rs| > 0 && Turned(rs, span, count, offset) && 0 <= span && 0 <= count <= |rs| * span <= MAX_LONG
    requires count == 0 || Reach(count, span) + offset <= MAX_LONG
    requires (|rs| - 1) * span + offset >= MAX_LONG
    ensures !Exact(rs, count, offset)
  {
    var w := |rs| - 1;
    var p := w * span;
    NextProduct(w, span);
    Between(w, |rs|, span);
    if count > 0 {
      ReachIsLeast(0, span, count);
    }
    assert rs[w] == TurnedRange(p, span, count, offset);
    NotGiven(rs, w, p + offset + 1 - MODULUS, offset + 1, offset + count);
  }

  // --- Negative counts, and counts at which the span overflows ----------------------------------

  lemma DownExact(rs: seq<Range>, span: int, count: Long, offset: Long)
    requires |rs| > 0 && Turned(rs, span, count, offset) && span <= 0
    requires MIN_LONG <= |rs| * span && offset < MAX_LONG && |rs| * span + offset >= MIN_LONG
    ensures Given(rs, |rs|) == []
  {
    forall w | 0 <= w < |rs| ensures rs[w].first > rs[w].last {
      Between(w, |rs|, span);
      Between(w + 1, |rs|, span);
      NextProduct(w, span);
    }
    FirstTakesAll(rs, |rs|);
  }

  // The first worker whose end wraps around.
  lemma {:induction false} FirstBelow(k: nat, span: int, offset: Long) returns (w: nat)
    requires k * span + offset < MIN_LONG
    ensures w < k && w * span + offset >= MIN_LONG && w * span + span + offset < MIN_LONG
  {
    if k == 0 {
      assert false;
    } else {
      NextProduct(k - 1, span);
      if (k - 1) * span + offset >= MIN_LONG {
        w := k - 1;
      } else {
        w := FirstBelow(k - 1, span, offset);
      }
    }
  }

  lemma DownBroken(rs: seq<Range>, span: int, count: Long, offset: Long)
    requires |rs| > 0 && Turned(rs, span, count, offset) && span <= 0 && count < 0 && MIN_LONG <= count <= |rs| * span
    requires offset == MAX_LONG || |rs| * span + offset < MIN_LONG
    ensures !Exact(rs, count, offset)
  {
    if offset == MAX_LONG {
      Between(1, |rs|, span);
      assert rs[0] == TurnedRange(0 * span, span, count, offset);
      NotGiven(rs, 0, MIN_LONG, offset + 1, offset + count);
    } else {
      var w := FirstBelow(|rs|, span, offset);
      Between(w, |rs|, span);
      Between(w + 1, |rs|, span);
      NextProduct(w, span);
      NotGiven(rs, w, w * span + offset + 1, offset + 1, offset + count);
    }
  }

  // The first worker is given everything and the others nothing.
  lemma OverflowExact(rs: seq<Range>, span: int, count: Long, offset: Long)
    requires |rs| > 0 && Turned(rs, span, count, offset) && MIN_LONG <= |rs| * span && 2 * span >= MIN_LONG
    requires span < 0 < count && span + offset + 1 < MIN_LONG
    ensures Exact(rs, count, offset)
  {
    forall w | 1 <= w < |rs| ensures rs[w].first > rs[w].last {
      Between(w, |rs|, span);
      Falling(w, span);
    }
    assert rs[0] == TurnedRange(0 * span, span, count, offset);
    FirstTakesAll(rs, |rs|);
  }

  lemma Falling(w: nat, span: int)
    requires w >= 1 && span <= 0
    ensures w * span <= span
  {
  }

  lemma OverflowBroken(rs: seq<Range>, span: int, count: Long, offset: Long)
    requires |rs| >= 2 && Turned(rs, span, count, offset) && MIN_LONG <= |rs| * span && 2 * span >= MIN_LONG
    requires span < 0 < count && span + offset + 1 >= MIN_LONG && offset + count <= MAX_LONG
    ensures !Exact(rs, count, offset)
  {
    if span + offset + 1 == MIN_LONG {
      assert rs[1] == TurnedRange(1 * span, span, count, offset);
      NotGiven(rs, 1, MIN_LONG, offset + 1, offset + count);
    } else {
      NobodyBegins(rs, span, count, offset);
    }
  }

  lemma BeyondTheEnd(rs: seq<Range>, span: int, count: Long, offset: Long)
    requires Turned(rs, span, count, offset) && count > 0 && offset + count > MAX_LONG
    ensures !Exact(rs, count, offset)
  {
    NotReached(rs, offset + count, offset + 1, offset + count);
  }

  // The first worker is without an id, and no other begins where it should.
  lemma NobodyBegins(rs: seq<Range>, span: int, count: Long, offset: Long)
    requires |rs| >= 2 && Turned(rs, span, count, offset) && MIN_LONG <= |rs| * span
    requires span < 0 < count && offset + count <= MAX_LONG && span + offset >= MIN_LONG
    ensures !Exact(rs, count, offset)
  {
    if w :| 0 <= w < |rs| && rs[w].Has(offset + 1) {
      if w == 0 {
        FirstIsIdle(span, count, offset);
      }
      Between(w, |rs|, span);
      Falling(w, span);
      BeginsElsewhere(w * span, span, count, offset);
      NotGiven(rs, w, rs[w].first, offset + 1, offset + count);
    } else {
      NotReached(rs, offset + 1, offset + 1, offset + count);
    }
  }

  lemma FirstIsIdle(span: int, count: int, offset: Long)
    requires span < 0 && span + offset >= MIN_LONG
    ensures !TurnedRange(0 * span, span, count, offset).Has(offset + 1)
  {
    assert 0 * span == 0;
  }

  lemma BeginsElsewhere(p: int, span: int, count: int, offset: Long)
    requires MIN_LONG <= p <= span < 0 && TurnedRange(p, span, count, offset).Has(offset + 1)
    ensures TurnedRange(p, span, count, offset).first <= offset
    ensures TurnedRange(p, span, count, offset).Has(TurnedRange(p, span, count, offset).first)
  {
  }

  lemma OverflowIff(rs: seq<Range>, span: int, count: Long, offset: Long)
    requires |rs| >= 2 && Turned(rs, span, count, offset) && MIN_LONG <= |rs| * span && 2 * span >= MIN_LONG && span < 0 < count
    ensures Exact(rs, count, offset) <==> span + offset + 1 < MIN_LONG
  {
    if span + offset + 1 < MIN_LONG {
      OverflowExact(rs, span, count, offset);
    } else if offset + count > MAX_LONG {
      BeyondTheEnd(rs, span, count, offset);
    } else {
      OverflowBroken(rs, span, count, offset);
    }
  }

  lemma DownIff(rs: seq<Range>, span: int, count: Long, offset: Long)
    requires |rs| > 0 && Turned(rs, span, count, offset) && span <= 0 && count < 0 && MIN_LONG <= count <= |rs| * span
    ensures Exact(rs, count, offset) <==> offset < MAX_LONG && |rs| * span + offset >= MIN_LONG
  {
    if offset < MAX_LONG && |rs| * span + offset >= MIN_LONG {
      DownExact(rs, span, count, offset);
    } else {
      DownBroken(rs, span, count, offset);
    }
  }

  lemma UpIff(rs: seq<Range>, span: int, count: Long, offset: Long)
    requires |rs| > 0 && Turned(rs, span, count, offset) && 0 <= span && 0 <= count <= |rs| * span <= MAX_LONG
    ensures Exact(rs, count, offset) <==> Reach(count, span) + offset <= MAX_LONG && (|rs| - 1) * span + offset < MAX_LONG
  {
    if Reach(count, span) + offset <= MAX_LONG && (|rs| - 1) * span + offset < MAX_LONG {
      UpExact(rs, span, count, offset);
    } else {
      UpBroken(rs, span, count, offset);
    }
  }

  // What is known of the span.
  predicate SpanOf(span: int, count: int, workers: int) {
    if count + workers - 1 > MAX_LONG then
      workers >= 2 && span < 0 < count && 2 * span >= MIN_LONG && MIN_LONG <= workers * span
    else if count < 0 then span <= 0 && count <= workers * span
    else 0 <= span && count <= workers * span <= MAX_LONG
  }

  lemma SpanIsKnown(count: Long, workers: int)
    requires 1 <= workers < 0x8000_0000
    ensures SpanOf(LongSpan(count, workers), count, workers)
    ensures MIN_LONG <= workers * LongSpan(count, workers) <= MAX_LONG
  {
    SpanExactIff(count, workers);
    SpanReaches(count, workers);
    if count + workers - 1 > MAX_LONG {
      NegativeSpan(count + workers - 1 - MODULUS, workers);
      Between(2, workers, LongSpan(count, workers));
    } else if count == 0 {
      SmallQuotient(workers - 1, workers);
    }
  }

  lemma ExactIff(rs: seq<Range>, span: int, count: Long, offset: Long)
    requires |rs| > 0 && Turned(rs, span, count, offset) && SpanOf(span, count, |rs|)
    ensures Exact(rs, count, offset) <==> FitsWith(span, count, |rs|, offset)
  {
    if count + |rs| - 1 > MAX_LONG {
      OverflowIff(rs, span, count, offset);
    } else if count < 0 {
      DownIff(rs, span, count, offset);
    } else {
      UpIff(rs, span, count, offset);
    }
  }

  /** The workers visit every id from offset + 1 to offset + count once and in order exactly if the
      sums fit: for any count, number of workers and offset. */
  lemma LoadIsExactIff(count: Long, workers: int, offset: Long)
    requires 1 <= workers < 0x8000_0000
    ensures Given(RangesOf(workers, LongSpan(count, workers), count, offset), workers) == Ids(offset + 1, offset + count)
            <==> Fits(count, workers, offset)
  {
    var span := LongSpan(count, workers);
    SpanIsKnown(count, workers);
    RangesTurn(workers, span, count, offset);
    ExactIff(RangesOf(workers, span, count, offset), span, count, offset);
  }

  /** With an offset that is not negative, an overflow of the span leaves every worker without
      an id. */
  lemma OverflowLoadsNothing(count: Long, workers: int, offset: Long)
    requires 1 <= workers < 0x8000_0000 && count + workers - 1 > MAX_LONG && 0 <= offset < MAX_LONG
    ensures Given(RangesOf(workers, LongSpan(count, workers), count, offset), workers) == []
  {
    var span := LongSpan(count, workers);
    SpanExactIff(count, workers);
    NegativeSpan(count + workers - 1 - MODULUS, workers);
    RangesTurn(workers, span, count, offset);
    DownExact(RangesOf(workers, span, count, offset), span, count, offset);
  }

  // --- The batches of a worker ----------------------------------------------------------------

  // The first id of the last batch.
  function LastStart(first: int, last: int, batchSize: int): (i: int)
    requires batchSize >= 1
    ensures i <= last < i + batchSize
  {
    last - (last - first) % batchSize
  }

  /** The loop over the batches leaves the range after its last batch exactly if the sum after
      that batch fits; otherwise it goes on at the other end of the longs. */
  lemma LoopEndsIff(first: Long, last: Long, batchSize: int)
    requires first <= last && 1 <= batchSize < 0x8000_0000
    ensures Wrap(LastStart(first, last, batchSize) + batchSize) > last
            <==> LastStart(first, last, batchSize) + batchSize <= MAX_LONG
  {
    WrapTurns(LastStart(first, last, batchSize) + batchSize);
  }

  // The same last batch is reached from each batch before it.
  lemma NextBatch(i: int, last: int, batchSize: int)
    requires batchSize >= 1 && i <= last
    ensures i <= LastStart(i, last, batchSize) == LastStart(i + batchSize, last, batchSize)
  {
    var x := last - i;
    Division(x - batchSize, batchSize, x / batchSize - 1, x % batchSize);
    assert x == x / batchSize * batchSize + x % batchSize;
    NotNegative(x, batchSize);
  }

  lemma NotNegative(x: nat, d: int)
    requires d > 0
    ensures x % d <= x
  {
  }

  // How many of the rows fail.
  function Failed(ids: seq<int>, fails: int -> bool): (n: nat)
    ensures n <= |ids|
  {
    if ids == [] then 0 else (if fails(ids[0]) then 1 else 0) + Failed(ids[1..], fails)
  }

  lemma {:induction false} FailedAdds(a: seq<int>, b: seq<int>, fails: int -> bool)
    ensures Failed(a + b, fails) == Failed(a, fails) + Failed(b, fails)
  {
    if a == [] {
      Nothing(b);
    } else {
      FailedAdds(a[1..], b, fails);
      Uncons(a, b);
    }
  }

  // A batch, by its first id, loses the session.
  predicate Aborts(first: int, last: int, batchSize: int, loses: int -> bool)
    requires batchSize >= 1
    decreases last - first + 1
  {
    first <= last && (loses(first) || Aborts(first + batchSize, last, batchSize, loses))
  }

  // The last id that a worker comes to.
  function LastDone(first: int, last: int, batchSize: int, loses: int -> bool): (r: int)
    requires batchSize >= 1
    ensures first <= last ==> first - 1 <= r <= last
    ensures !Aborts(first, last, batchSize, loses) ==> r == last
    decreases last - first + 1
  {
    if first > last then last
    else if loses(first) then first - 1
    else if first + batchSize > last then last
    else LastDone(first + batchSize, last, batchSize, loses)
  }

  // What a worker counts as failed: after an exception its whole range.
  function FailedOf(first: int, last: int, batchSize: int, fails: int -> bool, loses: int -> bool): int
    requires batchSize >= 1
  {
    if Aborts(first, last, batchSize, loses) then last - first + 1 else Failed(Ids(first, last), fails)
  }

  method Batch(i: Long, endId: Long, batchSize: int) returns (rows: seq<int>, next: Long)
    requires 1 <= batchSize && i + batchSize <= MAX_LONG
    ensures rows == Ids(i, Min(i + batchSize - 1, endId)) && next == i + batchSize
  {
    var batchEnd := Min(Wrap(Wrap(i + batchSize) - 1), endId);
    rows := Ids(i, batchEnd);
    next := Wrap(i + batchSize);
  }

  /** WorkerTask.call.  `loses` and `fails` say which batches meet an exception and which rows are
      not written. */
  method Worker(startId: Long, endId: Long, batchSize: int, fails: int -> bool, loses: int -> bool)
    returns (visited: seq<int>, total: int, failed: int)
    requires 1 <= batchSize < 0x8000_0000 && startId <= endId
    requires LastStart(startId, endId, batchSize) + batchSize <= MAX_LONG
    ensures visited == Ids(startId, LastDone(startId, endId, batchSize, loses)) && total == |visited|
    ensures failed == FailedOf(startId, endId, batchSize, fails, loses)
  {
    visited, total, failed := [], 0, 0;
    var i: Long := startId;
    while i <= endId
      invariant startId <= i
      invariant visited == Ids(startId, Min(i - 1, endId)) && total == |visited| && failed == Failed(visited, fails)
      invariant Aborts(startId, endId, batchSize, loses) == Aborts(i, endId, batchSize, loses)
      invariant LastDone(startId, endId, batchSize, loses) == LastDone(i, endId, batchSize, loses)
      invariant LastStart(startId, endId, batchSize) == LastStart(i, endId, batchSize)
      decreases endId - i + 1
    {
      if loses(i) {
        return visited, total, endId - startId + 1;
      }
      NextBatch(i, endId, batchSize);
      var batchRows, next := Batch(i, endId, batchSize);
      var failedInBatch := Failed(batchRows, fails);
      IdsJoin(startId, i - 1, Min(i + batchSize - 1, endId));
      FailedAdds(visited, batchRows, fails);
      visited := visited + batchRows;
      total, failed := total + |batchRows|, failed + failedInBatch;
      i := next;
    }
  }

  // --- The load -------------------------------------------------------------------------------

  // The loop over the batches does not run past the last long.
  predicate LoopEnds(r: Range, batchSize: int)
    requires batchSize >= 1
  {
    r.first <= r.last ==> LastStart(r.first, r.last, batchSize) + batchSize <= MAX_LONG
  }

  function Done(r: Range, batchSize: int, loses: int -> bool): seq<int>
    requires batchSize >= 1
  {
    Ids(r.first, LastDone(r.first, r.last, batchSize, loses))
  }

  // What the first n workers come to, and what they count as failed.
  function AllDone(rs: seq<Range>, n: nat, batchSize: int, loses: int -> bool): seq<int>
    requires n <= |rs| && batchSize >= 1
  {
    if n == 0 then [] else AllDone(rs, n - 1, batchSize, loses) + Done(rs[n - 1], batchSize, loses)
  }

  function AllFailed(rs: seq<Range>, n: nat, batchSize: int, fails: int -> bool, loses: int -> bool): int
    requires n <= |rs| && batchSize >= 1
  {
    if n == 0 then 0
    else AllFailed(rs, n - 1, batchSize, fails, loses)
         + FailedOf(rs[n - 1].first, rs[n - 1].last, batchSize, fails, loses)
  }

  // None of the first n workers meets an exception.
  predicate Quiet(rs: seq<Range>, n: nat, batchSize: int, loses: int -> bool)
    requires n <= |rs| && batchSize >= 1
  {
    n == 0 || (Quiet(rs, n - 1, batchSize, loses) && !Aborts(rs[n - 1].first, rs[n - 1].last, batchSize, loses))
  }

  // A worker that meets an exception had not written a row.
  predicate WroteNothing(r: Range, batchSize: int, fails: int -> bool, loses: int -> bool)
    requires batchSize >= 1
  {
    Aborts(r.first, r.last, batchSize, loses) ==>
      Failed(Done(r, batchSize, loses), fails) == |Done(r, batchSize, loses)|
  }

  predicate NoneWrote(rs: seq<Range>, n: nat, batchSize: int, fails: int -> bool, loses: int -> bool)
    requires n <= |rs| && batchSize >= 1
  {
    n == 0 || (NoneWrote(rs, n - 1, batchSize, fails, loses) && WroteNothing(rs[n - 1], batchSize, fails, loses))
  }

  lemma {:induction false} QuietLoad(rs: seq<Range>, n: nat, batchSize: int, fails: int -> bool, loses: int -> bool)
    requires n <= |rs| && batchSize >= 1 && Quiet(rs, n, batchSize, loses)
    ensures AllDone(rs, n, batchSize, loses) == Given(rs, n)
    ensures AllFailed(rs, n, batchSize, fails, loses) == Failed(Given(rs, n), fails)
  {
    if n > 0 {
      QuietLoad(rs, n - 1, batchSize, fails, loses);
      FailedAdds(Given(rs, n - 1), Ids(rs[n - 1].first, rs[n - 1].last), fails);
    }
  }

  // What was given and not written.
  function Unwritten(given: seq<int>, done: seq<int>, fails: int -> bool): int { |given| - |done| + Failed(done, fails) }

  // At least what was not written counts as failed, and nothing else exactly if `exact`.
  predicate CountsAll(failed: int, unwritten: int, exact: bool) {
    failed >= unwritten && (failed == unwritten <==> exact)
  }

  lemma OneHidesNothing(r: Range, batchSize: int, fails: int -> bool, loses: int -> bool)
    requires batchSize >= 1
    ensures CountsAll(FailedOf(r.first, r.last, batchSize, fails, loses),
                  Unwritten(Ids(r.first, r.last), Done(r, batchSize, loses), fails),
                  WroteNothing(r, batchSize, fails, loses))
  {
    if Aborts(r.first, r.last, batchSize, loses) {
      assert r.first <= r.last;
    }
  }

  lemma UnwrittenAdds(a: seq<int>, b: seq<int>, done: seq<int>, more: seq<int>, fails: int -> bool)
    ensures Unwritten(a + b, done + more, fails) == Unwritten(a, done, fails) + Unwritten(b, more, fails)
  {
    FailedAdds(done, more, fails);
  }

  /** Each row that was given to a worker and not written counts as failed; nothing else does,
      exactly if no worker had written a row before it met an exception. */
  lemma {:induction false} NoFailureIsHidden(rs: seq<Range>, n: nat, batchSize: int, fails: int -> bool, loses: int -> bool)
    requires n <= |rs| && batchSize >= 1
    ensures CountsAll(AllFailed(rs, n, batchSize, fails, loses),
                  Unwritten(Given(rs, n), AllDone(rs, n, batchSize, loses), fails),
                  NoneWrote(rs, n, batchSize, fails, loses))
  {
    if n > 0 {
      var r := rs[n - 1];
      NoFailureIsHidden(rs, n - 1, batchSize, fails, loses);
      OneHidesNothing(r, batchSize, fails, loses);
      UnwrittenAdds(Given(rs, n - 1), Ids(r.first, r.last),
                    AllDone(rs, n - 1, batchSize, loses), Done(r, batchSize, loses), fails);
    }
  }

  /** run: what the workers come to and the totals, whatever fails.  If none meets an exception and
      the sums fit, that is every id from offset + 1 to offset + rowCount once. */
  method Load(j: Job, fails: int -> bool, loses: int -> bool)
    returns (visited: seq<int>, totalRows: int, totalFailed: int)
    requires j.Valid() && forall r :: r in Ranges(j) ==> LoopEnds(r, j.batchSize)
    ensures visited == AllDone(Ranges(j), j.workers, j.batchSize, loses) && totalRows == |visited|
    ensures totalFailed == AllFailed(Ranges(j), j.workers, j.batchSize, fails, loses)
    ensures Quiet(Ranges(j), j.workers, j.batchSize, loses) && Fits(j.count, j.workers, j.offset) ==>
              visited == Ids(j.offset + 1, j.offset + j.count) && Once(visited) && totalFailed == Failed(visited, fails)
  {
    var rs := Plan(j);
    visited, totalRows, totalFailed := RunWorkers(rs, j.batchSize, fails, loses);
    LoadMeets(j, fails, loses);
  }

  method Plan(j: Job) returns (rs: seq<Range>)
    requires j.Valid()
    ensures rs == Ranges(j)
  {
    var span := Quotient(Wrap(Wrap(j.count + j.workers) - 1), j.workers);
    rs := [];
    for w := 0 to j.workers
      invariant rs == Ranges(j)[..w]
    {
      PlanStep(j, w);
      rs := rs + [Range(StartId(w, span, j.offset), EndId(w, span, j.count, j.offset))];
    }
  }

  lemma PlanStep(j: Job, w: nat)
    requires j.Valid() && w < j.workers
    ensures var span := LongSpan(j.count, j.workers);
            Ranges(j)[..w + 1] == Ranges(j)[..w] + [Range(StartId(w, span, j.offset), EndId(w, span, j.count, j.offset))]
  {
    Prefix(Ranges(j), w);
  }

  // A worker without an id is not started.
  method RunWorkers(rs: seq<Range>, batchSize: int, fails: int -> bool, loses: int -> bool)
    returns (visited: seq<int>, totalRows: int, totalFailed: int)
    requires 1 <= batchSize < 0x8000_0000
    requires forall r :: r in rs ==> MIN_LONG <= r.first && r.last <= MAX_LONG && LoopEnds(r, batchSize)
    ensures visited == AllDone(rs, |rs|, batchSize, loses) && totalRows == |visited|
    ensures totalFailed == AllFailed(rs, |rs|, batchSize, fails, loses)
  {
    visited, totalRows, totalFailed := [], 0, 0;
    for w := 0 to |rs|
      invariant visited == AllDone(rs, w, batchSize, loses) && totalRows == |visited|
      invariant totalFailed == AllFailed(rs, w, batchSize, fails, loses)
    {
      var r := rs[w];
      if r.first > r.last {
        NothingToDo(r, batchSize, fails, loses);
        Nothing(visited);
        continue;
      }
      var ids, total, failed := Worker(r.first, r.last, batchSize, fails, loses);
      visited, totalRows, totalFailed := visited + ids, totalRows + total, totalFailed + failed;
    }
  }

  lemma NothingToDo(r: Range, batchSize: int, fails: int -> bool, loses: int -> bool)
    requires batchSize >= 1 && r.first > r.last
    ensures Done(r, batchSize, loses) == [] && FailedOf(r.first, r.last, batchSize, fails, loses) == 0
  {
  }

  lemma LoadMeets(j: Job, fails: int -> bool, loses: int -> bool)
    requires j.Valid()
    ensures Quiet(Ranges(j), j.workers, j.batchSize, loses) && Fits(j.count, j.workers, j.offset) ==>
              var visited := AllDone(Ranges(j), j.workers, j.batchSize, loses);
              visited == Ids(j.offset + 1, j.offset + j.count) && Once(visited)
              && AllFailed(Ranges(j), j.workers, j.batchSize, fails, loses) == Failed(visited, fails)
  {
    LoadIsExactIff(j.count, j.workers, j.offset);
    QuietMeets(Ranges(j), j.batchSize, fails, loses, j.offset + 1, j.offset + j.count);
  }

  lemma QuietMeets(rs: seq<Range>, batchSize: int, fails: int -> bool, loses: int -> bool, first: int, last: int)
    requires batchSize >= 1
    ensures Quiet(rs, |rs|, batchSize, loses) && Given(rs, |rs|) == Ids(first, last) ==>
              var visited := AllDone(rs, |rs|, batchSize, loses);
              visited == Ids(first, last) && Once(visited) && AllFailed(rs, |rs|, batchSize, fails, loses) == Failed(visited, fails)
  {
    if Quiet(rs, |rs|, batchSize, loses) {
      QuietLoad(rs, |rs|, batchSize, fails, loses);
      IdsOnce(first, last);
    }
  }
}
