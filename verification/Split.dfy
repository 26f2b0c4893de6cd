/** The division of the ids among workers and batches: insert_data_parallel and chunked_ids of
    loader.py, and the keys that query.py asks for. */
module Split {
  import opened Sequences
  import opened Arithmetic

  function Ids(first: int, last: int): (ids: seq<int>)
    ensures forall k {:trigger k in ids} :: k in ids <==> first <= k <= last
    ensures |ids| == if first > last then 0 else last - first + 1
    decreases last - first + 1
  {
    if first > last then [] else [first] + Ids(first + 1, last)
  }

  lemma {:induction false} IdsJoin(first: int, middle: int, last: int)
    requires first - 1 <= middle <= last
    ensures Ids(first, middle) + Ids(middle + 1, last) == Ids(first, last)
    decreases middle - first + 1
  {
    if first <= middle {
      IdsJoin(first + 1, middle, last);
      Assoc([first], Ids(first + 1, middle), Ids(middle + 1, last));
    } else {
      Nothing(Ids(first, last));
    }
  }

  // Every id once.
  ghost predicate Once(ids: seq<int>) { forall i, j :: 0 <= i < j < |ids| ==> ids[i] != ids[j] }

  lemma {:induction false} IdsOnce(first: int, last: int)
    ensures Once(Ids(first, last))
    decreases last - first + 1
  {
    if first <= last {
      IdsOnce(first + 1, last);
      var rest := Ids(first + 1, last);
      forall j | 0 <= j < |rest| ensures rest[j] != first {
        assert rest[j] in rest;
      }
    }
  }

  // --- Workers ------------------------------------------------------------------------------

  function WorkerFirst(w: int, span: int): int { w * span + 1 }

  function WorkerLast(w: int, span: int, count: int): int { Min((w + 1) * span, count) }

  // What the first `workers` workers visit, one after the other.
  function Visited(workers: nat, span: int, count: int): seq<int> {
    if workers == 0 then []
    else Visited(workers - 1, span, count) + Ids(WorkerFirst(workers - 1, span), WorkerLast(workers - 1, span, count))
  }

  lemma {:induction false} WorkersTile(workers: nat, span: int, count: int)
    ensures Visited(workers, span, count) == Ids(1, if span <= 0 then 0 else Min(workers * span, count))
  {
    if workers > 0 {
      var w := workers - 1;
      WorkersTile(w, span, count);
      assert (w + 1) * span == w * span + span;
      if 0 < span && w * span <= count {
        assert w * span >= 0;
        IdsJoin(1, w * span, Min(workers * span, count));
      }
    }
  }

  /** The workers visit 1 to `count`, each id once and in order, exactly if their spans reach
      that far. */
  lemma SplitIsExactIff(workers: nat, span: int, count: nat)
    ensures Visited(workers, span, count) == Ids(1, count) <==> count == 0 || workers * span >= count
  {
    WorkersTile(workers, span, count);
    if span <= 0 {
      assert workers * span <= 0;
    } else {
      assert workers * span >= 0;
    }
    var visited := Visited(workers, span, count);
    assert |visited| == if span <= 0 then 0 else Min(workers * span, count);
    assert |Ids(1, count)| == count;
  }

  function Shifted(ids: seq<int>, offset: int): (r: seq<int>)
    ensures |r| == |ids|
  {
    seq(|ids|, i requires 0 <= i < |ids| => ids[i] + offset)
  }

  lemma {:induction false} ShiftedIds(first: int, last: int, offset: int)
    ensures Shifted(Ids(first, last), offset) == Ids(first + offset, last + offset)
    decreases last - first + 1
  {
    if first <= last {
      ShiftedIds(first + 1, last, offset);
      assert Shifted(Ids(first, last), offset) == [first + offset] + Shifted(Ids(first + 1, last), offset);
    }
  }

  lemma ShiftedStep(w: nat, span: int, count: int, offset: int)
    ensures Shifted(Visited(w + 1, span, count), offset) ==
            Shifted(Visited(w, span, count), offset)
            + Ids(WorkerFirst(w, span) + offset, WorkerLast(w, span, count) + offset)
  {
    ShiftedIds(WorkerFirst(w, span), WorkerLast(w, span, count), offset);
    ShiftedAdds(Visited(w, span, count), Ids(WorkerFirst(w, span), WorkerLast(w, span, count)), offset);
  }

  lemma ShiftedAdds(a: seq<int>, b: seq<int>, offset: int)
    ensures Shifted(a + b, offset) == Shifted(a, offset) + Shifted(b, offset)
  {
  }

  // --- Python -------------------------------------------------------------------------------

  /** chunked_ids: the chunks, one after the other, are the whole range. */
  method ChunkedIds(startId: int, endId: int, batchSize: int) returns (chunks: seq<(int, int)>)
    requires batchSize >= 1
    ensures Flattened(chunks) == Ids(startId, endId)
    ensures forall k :: 0 <= k < |chunks| ==> chunks[k].0 <= chunks[k].1 < chunks[k].0 + batchSize
  {
    chunks := [];
    var i := startId;
    while i <= endId
      invariant startId <= i && (i <= endId + 1 || i == startId)
      invariant Flattened(chunks) == Ids(startId, i - 1)
      invariant forall k :: 0 <= k < |chunks| ==> chunks[k].0 <= chunks[k].1 < chunks[k].0 + batchSize
      decreases endId - i + 1
    {
      var j := Min(i + batchSize - 1, endId);
      IdsJoin(startId, i - 1, j);
      FlattenedSnoc(chunks, (i, j));
      chunks := chunks + [(i, j)];
      i := j + 1;
    }
  }

  function Flattened(chunks: seq<(int, int)>): seq<int> {
    if chunks == [] then [] else Ids(chunks[0].0, chunks[0].1) + Flattened(chunks[1..])
  }

  lemma {:induction false} FlattenedSnoc(chunks: seq<(int, int)>, c: (int, int))
    ensures Flattened(chunks + [c]) == Flattened(chunks) + Ids(c.0, c.1)
  {
    var all := chunks + [c];
    if chunks == [] {
      assert all[1..] == [] && all[0] == c;
      assert Flattened([]) == [] && Ids(c.0, c.1) + [] == Ids(c.0, c.1);
    } else {
      FlattenedSnoc(chunks[1..], c);
      assert all[0] == chunks[0] && all[1..] == chunks[1..] + [c];
      Assoc(Ids(chunks[0].0, chunks[0].1), Flattened(chunks[1..]), Ids(c.0, c.1));
    }
  }

  /** A batch size below one never gets past the first chunk. */
  lemma ChunksAdvanceIff(i: int, endId: int, batchSize: int)
    requires i <= endId
    ensures Min(i + batchSize - 1, endId) + 1 > i <==> batchSize >= 1
  {
  }

  /** insert_data_parallel: what its workers insert, one after the other, for any span. */
  method InsertParallel(rowCount: int, procs: nat, span: int, batchSize: int, offset: int) returns (inserted: seq<int>)
    requires batchSize >= 1
    ensures inserted == Shifted(Visited(procs, span, rowCount), offset)
  {
    inserted := [];
    for w := 0 to procs
      invariant inserted == Shifted(Visited(w, span, rowCount), offset)
    {
      var startId := w * span + 1;
      var endId := Min((w + 1) * span, rowCount);
      ShiftedStep(w, span, rowCount, offset);
      if startId > endId {
        continue;
      }
      var ids := InsertRange(startId, endId, batchSize, offset);
      inserted := inserted + ids;
    }
  }

  // _worker_insert_range
  method InsertRange(startId: int, endId: int, batchSize: int, offset: int) returns (inserted: seq<int>)
    requires batchSize >= 1
    ensures inserted == Ids(startId + offset, endId + offset)
  {
    var chunks := ChunkedIds(startId, endId, batchSize);
    inserted := [];
    for i := 0 to |chunks|
      invariant inserted == Shifted(Flattened(chunks[..i]), offset)
    {
      var batch := Ids(chunks[i].0 + offset, chunks[i].1 + offset);
      ShiftedIds(chunks[i].0, chunks[i].1, offset);
      FlattenedSnoc(chunks[..i], chunks[i]);
      assert chunks[..i + 1] == chunks[..i] + [chunks[i]];
      ShiftedAdds(Flattened(chunks[..i]), Ids(chunks[i].0, chunks[i].1), offset);
      inserted := inserted + batch;
    }
    assert chunks[..|chunks|] == chunks;
    ShiftedIds(startId, endId, offset);
  }

  // Python's %, whose result has the sign of the divisor.
  function PythonMod(a: int, b: int): (r: int)
    requires b != 0
    ensures if b > 0 then 0 <= r < b else b < r <= 0
  {
    if b > 0 then a % b else -((-a) % (-b))
  }

  // The primary key of a row that generate_row makes, and the one that execute_query asks for.
  function InsertKey(id: int, buckets: int): (int, int)
    requires buckets != 0
  {
    var bucket := PythonMod(id, buckets);
    (if bucket < 0 then bucket + buckets else bucket, id)
  }

  function QueryKey(id: int, buckets: int): (int, int)
    requires buckets != 0
  {
    (PythonMod(id, buckets), id)
  }

  // The keys of all rows that a load inserts.
  function InsertedKeys(workers: nat, span: int, count: int, offset: int, buckets: int): set<(int, int)>
    requires buckets != 0
  {
    set id | id in Visited(workers, span, count) :: InsertKey(id + offset, buckets)
  }

  /** A key that query.py may draw was inserted exactly if the split reached its id and the
      number of buckets does not turn its bucket negative. */
  lemma QueriedWasInsertedIff(workers: nat, span: int, count: nat, offset: int, buckets: int, drawn: int)
    requires buckets != 0 && 1 <= drawn <= count
    ensures QueryKey(offset + drawn, buckets) in InsertedKeys(workers, span, count, offset, buckets)
            <==> drawn <= workers * span && PythonMod(offset + drawn, buckets) >= 0
  {
    WorkersTile(workers, span, count);
    if span <= 0 {
      assert workers * span <= 0;
    }
    var ids := Visited(workers, span, count);
    assert drawn in ids <==> drawn <= workers * span;
    forall id | id in ids && InsertKey(id + offset, buckets) == QueryKey(offset + drawn, buckets) ensures id == drawn {
    }
    if drawn in ids && PythonMod(offset + drawn, buckets) >= 0 {
      assert InsertKey(drawn + offset, buckets) == QueryKey(offset + drawn, buckets);
    }
  }

  /** With a positive number of buckets and spans that reach far enough, every query finds its
      row. */
  lemma EveryQueryFinds(workers: nat, span: int, count: nat, offset: int, buckets: int, drawn: int)
    requires buckets > 0 && workers * span >= count && 1 <= drawn <= count
    ensures QueryKey(offset + drawn, buckets) in InsertedKeys(workers, span, count, offset, buckets)
  {
    QueriedWasInsertedIff(workers, span, count, offset, buckets, drawn);
  }
}
