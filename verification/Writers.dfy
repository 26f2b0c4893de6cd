/** CqlWriter.java and DynamoDbWriter.java: a timestamped insert and a conditional put, and the
    table that either leaves behind, whatever order the items arrive in. */
module Writers {
  import opened Text

  type Key = nat
  type Attrs = map<Bytes, Bytes>

  const MIN_LONG: int := -0x8000_0000_0000_0000
  const MAX_LONG: int := 0x7FFF_FFFF_FFFF_FFFF

  type Long = v: int | MIN_LONG <= v <= MAX_LONG

  // The timestamp attribute: a number has its value, and the long its text may parse as.
  datatype Stamp = Missing | Decimal(value: real) | Millis(long: Long)

  // An item: its partition key if it has one, whether that key can be bound in CQL, its timestamp,
  // whether its attributes can be serialized, and their serialized form.
  datatype Item = NoKey | Item(key: Key, keyBinds: bool, stamp: Stamp, serializes: bool, attrs: Attrs)

  function Wrap(x: int): (r: Long)
    ensures MIN_LONG <= x <= MAX_LONG ==> r == x
  {
    (x - MIN_LONG) % 0x1_0000_0000_0000_0000 + MIN_LONG
  }

  // lastUpdatedMillis * 1000L
  function Micros(millis: Long): Long { Wrap(millis * 1000) }

  // The largest number of milliseconds that fits as microseconds.
  const SAFE: int := 9_223_372_036_854_775

  /** Microseconds are 1000 times the milliseconds exactly within the safe range. */
  lemma MicrosExactIff(millis: Long)
    ensures Micros(millis) == millis * 1000 <==> -SAFE <= millis <= SAFE
  {
  }

  /** There, newer items have timestamps that are newer by at least a thousand. */
  lemma MicrosMonotone(a: Long, b: Long)
    requires -SAFE <= a < b <= SAFE
    ensures Micros(a) + 1000 <= Micros(b)
  {
    MicrosExactIff(a);
    MicrosExactIff(b);
  }

  /** Just below it, an ancient timestamp becomes the newest of all. */
  lemma MicrosWrapAround()
    ensures Micros(-SAFE - 1) > Micros(SAFE)
  {
  }

  // --- The CQL table ---------------------------------------------------------------------------

  // A row of a table with a map column: writing the whole map deletes what is older than the
  // write, and sets every cell with the write's timestamp.
  datatype Cell = Cell(time: int, value: Bytes)
  datatype Row = Row(dead: int, cells: map<Bytes, Cell>)
  type Rows = map<Key, Row>

  predicate Less(a: Bytes, b: Bytes) {
    if a == [] then b != [] else b != [] && (a[0] < b[0] || (a[0] == b[0] && Less(a[1..], b[1..])))
  }

  // The cell that survives: the newer one, and of two with one timestamp that of larger value.
  function Newer(a: Cell, b: Cell): Cell {
    if a.time != b.time then (if a.time > b.time then a else b)
    else if Less(a.value, b.value) then b else a
  }

  function Inserted(row: Row, time: int, attrs: Attrs): Row {
    Row(if row.dead > time - 1 then row.dead else time - 1,
        map n | n in row.cells.Keys + attrs.Keys ::
          if n !in attrs then row.cells[n]
          else if n !in row.cells then Cell(time, attrs[n])
          else Newer(row.cells[n], Cell(time, attrs[n])))
  }

  function InsertedAt(rows: Rows, key: Key, time: int, attrs: Attrs): Rows {
    rows[key := Inserted(if key in rows then rows[key] else Row(time - 1, map[]), time, attrs)]
  }

  // What a reader sees.
  function Visible(row: Row): Attrs {
    map n | n in row.cells && row.cells[n].time > row.dead :: row.cells[n].value
  }

  class CqlTable {
    var rows: Rows

    constructor ()
      ensures rows == map[]
    {
      rows := map[];
    }

    /** CqlWriter.write; false stands for an exception, which leaves the table as it was. */
    method Write(item: Item, now: Long) returns (ok: bool)
      modifies this
      ensures ok <==> CqlAccepts(item, now)
      ensures rows == if CqlAccepts(item, now)
                      then InsertedAt(old(rows), item.key, Micros(item.stamp.long), item.attrs) else old(rows)
    {
      if item.NoKey? { return false; }
      if !item.keyBinds { return false; }
      if item.stamp.Missing? { return false; }
      if !item.stamp.Millis? { return false; }
      var lastUpdatedMillis := item.stamp.long;
      if lastUpdatedMillis > now { return false; }
      if !item.serializes { return false; }
      var timestampMicros := Micros(lastUpdatedMillis);
      rows := InsertedAt(rows, item.key, timestampMicros, item.attrs);
      return true;
    }
  }

  predicate CqlAccepts(item: Item, now: Long) {
    item.Item? && item.keyBinds && item.serializes && item.stamp.Millis? && item.stamp.long <= now
  }

  // --- The DynamoDB table ----------------------------------------------------------------------

  type Items = map<Key, Item>

  function StampValue(s: Stamp): real
    requires !s.Missing?
  {
    match s case Decimal(x) => x case Millis(m) => m as real
  }

  // attribute_not_exists(#k) OR attribute_not_exists(#l) OR #l < :new_val
  predicate PutCondition(items: Items, item: Item)
    requires item.Item? && !item.stamp.Missing?
  {
    item.key !in items || items[item.key] == NoKey || items[item.key].stamp.Missing?
    || StampValue(items[item.key].stamp) < StampValue(item.stamp)
  }

  function Put(items: Items, item: Item): Items {
    if item.Item? && !item.stamp.Missing? && PutCondition(items, item) then items[item.key := item] else items
  }

  class DynamoTable {
    var items: Items

    constructor ()
      ensures items == map[]
    {
      items := map[];
    }

    /** DynamoDbWriter.write: a failed condition is no error; false stands for an exception. */
    method Write(item: Item) returns (ok: bool)
      modifies this
      ensures items == Put(old(items), item)
      ensures ok <==> item.Item? && !item.stamp.Missing?
    {
      if item.NoKey? || item.stamp.Missing? { return false; }
      if PutCondition(items, item) {
        items := items[item.key := item];
      }
      return true;
    }
  }

  // --- Last write wins -------------------------------------------------------------------------

  // A complete item, with a past timestamp that fits as microseconds.
  predicate Complete(item: Item) {
    item.Item? && item.keyBinds && item.serializes && item.stamp.Millis? && -SAFE <= item.stamp.long <= SAFE
  }

  ghost predicate AllComplete(arrivals: seq<Item>) {
    forall i :: 0 <= i < |arrivals| ==> Complete(arrivals[i])
  }

  // Items of one key have different timestamps.
  ghost predicate Distinct(arrivals: seq<Item>) {
    forall i, j :: 0 <= i < j < |arrivals| ==> Differ(arrivals[i], arrivals[j])
  }

  predicate Differ(a: Item, b: Item) {
    Complete(a) && Complete(b) && a.key == b.key ==> a.stamp.long != b.stamp.long
  }

  function CqlAfter(arrivals: seq<Item>): Rows {
    if arrivals == [] then map[]
    else
      var last := arrivals[|arrivals| - 1];
      var rows := CqlAfter(arrivals[..|arrivals| - 1]);
      if last.Item? && last.stamp.Millis? then InsertedAt(rows, last.key, Micros(last.stamp.long), last.attrs) else rows
  }

  function DynamoAfter(arrivals: seq<Item>): Items {
    if arrivals == [] then map[] else Put(DynamoAfter(arrivals[..|arrivals| - 1]), arrivals[|arrivals| - 1])
  }

  // Every item written through both writers.
  method WriteAll(arrivals: seq<Item>, now: Long) returns (cql: CqlTable, dynamo: DynamoTable)
    requires AllComplete(arrivals) && forall i :: 0 <= i < |arrivals| ==> arrivals[i].stamp.long <= now
    ensures cql.rows == CqlAfter(arrivals) && dynamo.items == DynamoAfter(arrivals)
  {
    cql := new CqlTable();
    dynamo := new DynamoTable();
    for i := 0 to |arrivals|
      invariant fresh(cql) && fresh(dynamo)
      invariant cql.rows == CqlAfter(arrivals[..i]) && dynamo.items == DynamoAfter(arrivals[..i])
    {
      var arrived := arrivals[..i + 1];
      assert arrived[..|arrived| - 1] == arrivals[..i];
      var _ := cql.Write(arrivals[i], now);
      var _ := dynamo.Write(arrivals[i]);
    }
    assert arrivals[..|arrivals|] == arrivals;
  }

  // The item with the greatest timestamp of its key.
  ghost predicate Newest(arrivals: seq<Item>, item: Item) {
    && item in arrivals && Complete(item)
    && forall other :: other in arrivals && Complete(other) && other.key == item.key ==>
         other == item || other.stamp.long < item.stamp.long
  }

  ghost predicate RowIs(row: Row, time: int, attrs: Attrs) {
    && row.dead == time - 1
    && (forall n :: n in attrs ==> n in row.cells && row.cells[n] == Cell(time, attrs[n]))
    && forall n :: n in row.cells && n !in attrs ==> row.cells[n].time < time
  }

  lemma RowShows(row: Row, time: int, attrs: Attrs)
    requires RowIs(row, time, attrs)
    ensures Visible(row) == attrs
  {
  }

  lemma InsertNewer(row: Row, time: int, attrs: Attrs, later: int, more: Attrs)
    requires RowIs(row, time, attrs) && later > time
    ensures RowIs(Inserted(row, later, more), later, more)
  {
  }

  lemma InsertOlder(row: Row, time: int, attrs: Attrs, earlier: int, more: Attrs)
    requires RowIs(row, time, attrs) && earlier < time
    ensures RowIs(Inserted(row, earlier, more), time, attrs)
  {
  }

  lemma InsertFirst(time: int, attrs: Attrs)
    ensures RowIs(Inserted(Row(time - 1, map[]), time, attrs), time, attrs)
  {
  }

  ghost predicate Holds(arrivals: seq<Item>, key: Key, item: Item) {
    && Newest(arrivals, item) && item.key == key
    && key in CqlAfter(arrivals) && RowIs(CqlAfter(arrivals)[key], Micros(item.stamp.long), item.attrs)
    && key in DynamoAfter(arrivals) && DynamoAfter(arrivals)[key] == item
  }

  ghost predicate Absent(arrivals: seq<Item>, key: Key) {
    && key !in CqlAfter(arrivals) && key !in DynamoAfter(arrivals)
    && forall item :: item in arrivals && item.Item? ==> item.key != key
  }

  lemma {:induction false} BothHoldNewest(arrivals: seq<Item>, key: Key)
    requires AllComplete(arrivals) && Distinct(arrivals)
    ensures Absent(arrivals, key) || exists item :: Holds(arrivals, key, item)
  {
    if arrivals != [] {
      var n := |arrivals| - 1;
      var (before, last) := (arrivals[..n], arrivals[n]);
      BothHoldNewest(before, key);
      assert arrivals == before + [last];
      if Absent(before, key) {
        FirstOfKey(before, last, key);
      } else {
        var item :| Holds(before, key, item);
        assert Complete(last);
        var i :| 0 <= i < |before| && before[i] == item;
        assert arrivals[i] == item;
        assert last.key == key ==> item.stamp.long != last.stamp.long;
        NextOfKey(before, last, key, item);
      }
    }
  }

  // One more arrival, on either table.
  lemma OneMore(before: seq<Item>, last: Item)
    requires Complete(last)
    ensures CqlAfter(before + [last]) == InsertedAt(CqlAfter(before), last.key, Micros(last.stamp.long), last.attrs)
    ensures DynamoAfter(before + [last]) == Put(DynamoAfter(before), last)
  {
    var all := before + [last];
    assert all[..|all| - 1] == before && all[|all| - 1] == last;
  }

  lemma FirstOfKey(before: seq<Item>, last: Item, key: Key)
    requires Absent(before, key) && Complete(last)
    ensures if last.key == key then Holds(before + [last], key, last) else Absent(before + [last], key)
  {
    OneMore(before, last);
    if last.key == key {
      InsertFirst(Micros(last.stamp.long), last.attrs);
      assert Newest(before + [last], last);
    }
  }

  lemma NextOfKey(before: seq<Item>, last: Item, key: Key, item: Item)
    requires Holds(before, key, item) && Complete(last)
    requires last.key == key ==> item.stamp.long != last.stamp.long
    ensures exists newest :: Holds(before + [last], key, newest)
  {
    var all := before + [last];
    OneMore(before, last);
    if last.key != key {
      assert Newest(all, item);
      assert Holds(all, key, item);
    } else {
      var row := CqlAfter(before)[key];
      var (old_time, new_time) := (Micros(item.stamp.long), Micros(last.stamp.long));
      if item.stamp.long < last.stamp.long {
        MicrosMonotone(item.stamp.long, last.stamp.long);
        InsertNewer(row, old_time, item.attrs, new_time, last.attrs);
        assert Newest(all, last);
        assert Holds(all, key, last);
      } else {
        MicrosMonotone(last.stamp.long, item.stamp.long);
        InsertOlder(row, old_time, item.attrs, new_time, last.attrs);
        assert Newest(all, item);
        assert Holds(all, key, item);
      }
    }
  }

  /** Whatever the order of arrival, both tables have a key exactly if an item of that key
      arrived, and both then hold the item of the greatest timestamp. */
  lemma LastWriteWins(arrivals: seq<Item>, item: Item)
    requires AllComplete(arrivals) && Distinct(arrivals)
    requires Newest(arrivals, item)
    ensures item.key in CqlAfter(arrivals) && Visible(CqlAfter(arrivals)[item.key]) == item.attrs
    ensures item.key in DynamoAfter(arrivals) && DynamoAfter(arrivals)[item.key] == item
  {
    BothHoldNewest(arrivals, item.key);
    var kept :| Holds(arrivals, item.key, kept);
    assert kept == item;
    RowShows(CqlAfter(arrivals)[item.key], Micros(item.stamp.long), item.attrs);
  }

  // What readers of the CQL table see.
  function Seen(rows: Rows): map<Key, Attrs> { map k | k in rows :: Visible(rows[k]) }

  /** Any two orders of the same items give the same two tables, and the tables agree. */
  lemma OrderDoesNotMatter(a: seq<Item>, b: seq<Item>)
    requires AllComplete(a) && Distinct(a) && AllComplete(b) && Distinct(b)
    requires multiset(a) == multiset(b)
    ensures Seen(CqlAfter(a)) == Seen(CqlAfter(b)) && DynamoAfter(a) == DynamoAfter(b)
    ensures Seen(CqlAfter(a)) == map k | k in DynamoAfter(a) && DynamoAfter(a)[k].Item? :: DynamoAfter(a)[k].attrs
  {
    forall x ensures x in a <==> x in b {
      assert x in multiset(a) <==> x in multiset(b);
    }
    forall k: Key ensures Agree(a, b, k) {
      SameKey(a, b, k);
    }
    var (ca, cb, da, db) := (CqlAfter(a), CqlAfter(b), DynamoAfter(a), DynamoAfter(b));
    forall k: Key ensures (k in ca <==> k in cb) && (k in da <==> k in ca) && (k in db <==> k in cb) {
      assert Agree(a, b, k);
    }
    forall k | k in ca
      ensures Visible(ca[k]) == Visible(cb[k]) && da[k] == db[k] && da[k].Item? && da[k].attrs == Visible(ca[k])
    {
      assert Agree(a, b, k);
    }
  }

  ghost predicate Agree(a: seq<Item>, b: seq<Item>, k: Key) {
    && (k in CqlAfter(a) <==> k in CqlAfter(b))
    && (k in DynamoAfter(a) <==> k in CqlAfter(a))
    && (k in DynamoAfter(b) <==> k in CqlAfter(b))
    && (k in CqlAfter(a) ==>
          Visible(CqlAfter(a)[k]) == Visible(CqlAfter(b)[k]) && DynamoAfter(a)[k] == DynamoAfter(b)[k]
          && DynamoAfter(a)[k].Item? && DynamoAfter(a)[k].attrs == Visible(CqlAfter(a)[k]))
  }

  lemma SameKey(a: seq<Item>, b: seq<Item>, k: Key)
    requires AllComplete(a) && Distinct(a) && AllComplete(b) && Distinct(b)
    requires forall x :: x in a <==> x in b
    ensures Agree(a, b, k)
  {
    BothHoldNewest(a, k);
    BothHoldNewest(b, k);
    if !Absent(a, k) {
      var item :| Holds(a, k, item);
      assert Newest(b, item);
      LastWriteWins(a, item);
      LastWriteWins(b, item);
    }
  }

  // --- Outside the conditions --------------------------------------------------------------------

  /** Two items of one key and one timestamp: DynamoDB keeps the one that came first, CQL mixes
      their attributes. */
  lemma TiesDiffer()
    ensures exists a: Item, b: Item ::
              Complete(a) && Complete(b) && a.key == b.key && a.stamp == b.stamp
              && DynamoAfter([a, b]) != DynamoAfter([b, a])
              && a.key in CqlAfter([a, b])
              && Visible(CqlAfter([a, b])[a.key]) != a.attrs && Visible(CqlAfter([a, b])[a.key]) != b.attrs
  {
    var a := Item(0, true, Millis(0), true, map[[1] := [1]]);
    var b := Item(0, true, Millis(0), true, map[[2] := [2]]);
    AfterTwo(a, b);
    AfterTwo(b, a);
    var row := CqlAfter([a, b])[0];
    BothShow(row);
    assert [2] !in a.attrs && [1] !in b.attrs;
  }

  lemma BothShow(row: Row)
    requires row == Inserted(Inserted(Row(Micros(0) - 1, map[]), Micros(0), map[[1] := [1]]), Micros(0), map[[2] := [2]])
    ensures [1] in Visible(row) && [2] in Visible(row)
  {
    assert Micros(0) == 0;
    assert row.cells[[1]] == Cell(0, [1]) && row.cells[[2]] == Cell(0, [2]) && row.dead == -1;
  }

  lemma AfterTwo(a: Item, b: Item)
    requires Complete(a) && Complete(b) && a.key == b.key && a.stamp == b.stamp
    ensures DynamoAfter([a, b]) == map[a.key := a]
    ensures CqlAfter([a, b]) ==
            InsertedAt(InsertedAt(map[], a.key, Micros(a.stamp.long), a.attrs), a.key, Micros(b.stamp.long), b.attrs)
  {
    var (one, two) := ([a], [a, b]);
    assert two[..|two| - 1] == one && one[..|one| - 1] == [];
    assert DynamoAfter(one) == map[a.key := a];
    assert CqlAfter(one) == InsertedAt(map[], a.key, Micros(a.stamp.long), a.attrs);
  }
}
