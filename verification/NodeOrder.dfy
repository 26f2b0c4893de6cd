/** The order in which convert_to_tablets.py visits the nodes, and why it must not change
    between the runs of one migration. */
module NodeOrder {
  import opened Options
  import opened Cluster
  import opened UpgradeOrder

  // What discover_nodes knows of a node when it sorts.
  datatype Info = Info(dc: string, rack: string, pod: Option<string>, hostId: HostId)

  // String comparison, then comparison of the key tuples, as Python's sorted() does it.
  predicate StringBefore(a: string, b: string) {
    b != [] && (a == [] || a[0] < b[0] || (a[0] == b[0] && StringBefore(a[1..], b[1..])))
  }

  function Key(n: Info): seq<string> {
    [n.dc, n.rack, match n.pod { case Some(p) => p case None => "" }]
  }

  predicate KeyBefore(a: seq<string>, b: seq<string>) {
    b != [] && (a == [] || StringBefore(a[0], b[0]) || (a[0] == b[0] && KeyBefore(a[1..], b[1..])))
  }

  // UUIDs of one length compare like the numbers they spell.
  predicate Before(a: Info, b: Info) {
    KeyBefore(Key(a), Key(b)) || (Key(a) == Key(b) && a.hostId < b.hostId)
  }

  lemma {:induction false} StringOrder(a: string, b: string, c: string)
    ensures StringBefore(a, b) && StringBefore(b, c) ==> StringBefore(a, c)
    ensures !(StringBefore(a, b) && StringBefore(b, a))
    ensures a == b || StringBefore(a, b) || StringBefore(b, a)
    ensures !StringBefore(a, a)
  {
    if a != [] {
      StringOrder(a[1..], if b != [] then b[1..] else [], if c != [] then c[1..] else []);
      assert a == [a[0]] + a[1..] && (b != [] ==> b == [b[0]] + b[1..]);
    }
  }

  lemma {:induction false} KeyOrder(a: seq<string>, b: seq<string>, c: seq<string>)
    ensures KeyBefore(a, b) && KeyBefore(b, c) ==> KeyBefore(a, c)
    ensures !(KeyBefore(a, b) && KeyBefore(b, a))
    ensures a == b || KeyBefore(a, b) || KeyBefore(b, a)
    ensures !KeyBefore(a, a)
  {
    if a != [] {
      StringOrder(a[0], if b != [] then b[0] else [], if c != [] then c[0] else []);
      KeyOrder(a[1..], if b != [] then b[1..] else [], if c != [] then c[1..] else []);
      assert a == [a[0]] + a[1..] && (b != [] ==> b == [b[0]] + b[1..]);
    }
  }

  lemma InfoOrder(a: Info, b: Info, c: Info)
    ensures Before(a, b) && Before(b, c) ==> Before(a, c)
    ensures !(Before(a, b) && Before(b, a)) && !Before(a, a)
    ensures a.hostId == b.hostId || Before(a, b) || Before(b, a)
  {
    KeyOrder(Key(a), Key(b), Key(c));
    KeyOrder(Key(b), Key(c), Key(a));
  }

  ghost predicate Ordered(s: seq<Info>) {
    forall i, j :: 0 <= i < j < |s| ==> Before(s[i], s[j])
  }

  predicate DistinctHosts(s: seq<Info>) {
    forall i, j :: 0 <= i < j < |s| ==> s[i].hostId != s[j].hostId
  }

  // The new element goes before the first one that is not before it.
  lemma InsertedInOrder(r: seq<Info>, x: Info, k: nat)
    requires Ordered(r) && k <= |r| && x.hostId !in (set n | n in r :: n.hostId)
    requires forall j :: 0 <= j < k ==> Before(r[j], x)
    requires k < |r| ==> !Before(r[k], x)
    ensures Ordered(r[..k] + [x] + r[k..])
  {
    forall j | k <= j < |r| ensures Before(x, r[j]) {
      assert r[k] in r;
      InfoOrder(x, r[k], r[j]);
    }
    var s := r[..k] + [x] + r[k..];
    forall i, j | 0 <= i < j < |s| ensures Before(s[i], s[j]) {
      assert s[i] == (if i < k then r[i] else if i == k then x else r[i - 1]);
      assert s[j] == (if j < k then r[j] else if j == k then x else r[j - 1]);
    }
  }

  lemma InsertedAsWell(r: seq<Info>, x: Info, k: nat)
    requires k <= |r|
    ensures multiset(r[..k] + [x] + r[k..]) == multiset(r) + multiset{x}
  {
    assert r == r[..k] + r[k..];
  }

  // Where the element belongs in a list that is in order.
  method Position(r: seq<Info>, x: Info) returns (k: nat)
    ensures k <= |r| && (k < |r| ==> !Before(r[k], x))
    ensures forall j :: 0 <= j < k ==> Before(r[j], x)
  {
    k := 0;
    while k < |r| && Before(r[k], x)
      invariant 0 <= k <= |r|
      invariant forall j :: 0 <= j < k ==> Before(r[j], x)
    {
      k := k + 1;
    }
  }

  /** The sort at the end of discovery. */
  method SortNodes(found: seq<Info>) returns (r: seq<Info>)
    requires DistinctHosts(found)
    ensures Ordered(r) && multiset(r) == multiset(found)
  {
    r := [];
    for i := 0 to |found|
      invariant Ordered(r) && multiset(r) == multiset(found[..i])
    {
      var k := Position(r, found[i]);
      forall n | n in r ensures n.hostId != found[i].hostId {
        assert n in multiset(r);
      }
      InsertedInOrder(r, found[i], k);
      InsertedAsWell(r, found[i], k);
      assert found[..i + 1] == found[..i] + [found[i]];
      r := r[..k] + [found[i]] + r[k..];
    }
    assert found[..|found|] == found;
  }

  lemma FirstIsLeast(a: seq<Info>, n: Info)
    requires Ordered(a) && n in multiset(a)
    ensures a != [] && (a[0] == n || Before(a[0], n))
  {
    var j :| 0 <= j < |a| && a[j] == n;
  }

  lemma SameFirst(a: seq<Info>, b: seq<Info>)
    requires Ordered(a) && Ordered(b) && multiset(a) == multiset(b) && a != [] && b != []
    ensures a[0] == b[0]
  {
    assert a[0] in multiset(b);
    FirstIsLeast(b, a[0]);
    assert b[0] in multiset(a);
    FirstIsLeast(a, b[0]);
    InfoOrder(a[0], b[0], a[0]);
  }

  /** The order is a function of what was found, not of the order it was found in: two runs
      that see the same nodes, racks and pods visit them alike. */
  lemma {:induction false} OrderIsUnique(a: seq<Info>, b: seq<Info>)
    requires Ordered(a) && Ordered(b) && multiset(a) == multiset(b)
    ensures a == b
  {
    assert |a| == |multiset(a)| == |b|;
    if a != [] {
      SameFirst(a, b);
      assert a == [a[0]] + a[1..] && b == [b[0]] + b[1..];
      assert multiset(a[1..]) == multiset(a) - multiset{a[0]} == multiset(b[1..]);
      OrderIsUnique(a[1..], b[1..]);
    }
  }

  function HostIds(sorted: seq<Info>): (r: seq<HostId>)
    ensures |r| == |sorted| && forall i :: 0 <= i < |r| ==> r[i] == sorted[i].hostId
  {
    seq(|sorted|, i requires 0 <= i < |sorted| => sorted[i].hostId)
  }

  // --- Runs that cannot read the pod names ----------------------------------------------------

  // What a run finds that cannot read the pods of some hosts.
  function Forgetting(s: seq<Info>, hidden: set<HostId>): (r: seq<Info>)
    ensures |r| == |s| && forall i :: 0 <= i < |r| ==> r[i] == Hide(s[i], hidden)
  {
    seq(|s|, i requires 0 <= i < |s| => Hide(s[i], hidden))
  }

  function Hide(n: Info, hidden: set<HostId>): Info { if n.hostId in hidden then n.(pod := None) else n }

  lemma KeyBeforeIs(a: Info, b: Info)
    ensures KeyBefore(Key(a), Key(b)) <==>
            StringBefore(a.dc, b.dc)
            || (a.dc == b.dc && (StringBefore(a.rack, b.rack) || (a.rack == b.rack && StringBefore(Key(a)[2], Key(b)[2]))))
  {
    var (x, y) := (Key(a), Key(b));
    var (x1, y1) := (x[1..], y[1..]);
    var (x2, y2) := (x1[1..], y1[1..]);
    assert x2[1..] == [] && y2[1..] == [];
    assert KeyBefore(x2, y2) <==> StringBefore(x[2], y[2]);
    assert KeyBefore(x1, y1) <==> StringBefore(a.rack, b.rack) || (a.rack == b.rack && KeyBefore(x2, y2));
  }

  predicate SameRack(a: Info, b: Info) { a.dc == b.dc && a.rack == b.rack }

  predicate Nameless(n: Info) { n.pod == None || n.pod == Some("") }

  // In its rack a node whose pod is hidden stands only behind nodes without a pod name, or with a
  // hidden one, and with lower host IDs.
  ghost predicate HiddenFirst(s: seq<Info>, hidden: set<HostId>) {
    forall i, j :: 0 <= i < j < |s| && SameRack(s[i], s[j]) && s[j].hostId in hidden ==>
      Nameless(Hide(s[i], hidden)) && s[i].hostId < s[j].hostId
  }

  lemma PairForgetting(a: Info, b: Info, hidden: set<HostId>)
    requires Before(a, b)
    ensures Before(Hide(a, hidden), Hide(b, hidden)) <==>
            (SameRack(a, b) && b.hostId in hidden ==> Nameless(Hide(a, hidden)) && a.hostId < b.hostId)
  {
    var (x, y) := (Hide(a, hidden), Hide(b, hidden));
    KeyBeforeIs(a, b);
    KeyBeforeIs(x, y);
    StringOrder("", "", "");
    StringOrder(a.dc, a.dc, "");
    StringOrder(a.rack, a.rack, "");
    assert Nameless(x) <==> Key(x)[2] == "";
    assert SameRack(a, b) ==> (Key(x) == Key(y) <==> Key(x)[2] == Key(y)[2]);
    assert SameRack(a, b) ==> (Key(a) == Key(b) <==> Key(a)[2] == Key(b)[2]);
    assert !SameRack(a, b) ==> Key(x)[0] != Key(y)[0] || Key(x)[1] != Key(y)[1];
    assert !SameRack(a, b) ==> Key(a)[0] != Key(b)[0] || Key(a)[1] != Key(b)[1];
  }

  lemma ForgettingOrdered(s: seq<Info>, hidden: set<HostId>)
    requires Ordered(s)
    ensures Ordered(Forgetting(s, hidden)) <==> HiddenFirst(s, hidden)
  {
    var t := Forgetting(s, hidden);
    forall i, j | 0 <= i < j < |s|
      ensures Before(t[i], t[j]) <==> (SameRack(s[i], s[j]) && s[j].hostId in hidden ==> Nameless(t[i]) && s[i].hostId < s[j].hostId)
    {
      assert Before(s[i], s[j]);
      PairForgetting(s[i], s[j], hidden);
    }
  }

  lemma SameMultiset(a: seq<Info>, b: seq<Info>, x: Info)
    requires multiset(a) == multiset(b) && x in a
    ensures x in b
  {
    assert x in multiset(a);
  }

  /** A run that cannot read the pod names of some nodes visits all nodes in the same order exactly
      if in their racks these nodes stand only behind nodes that have no name either, and in the
      order of the host IDs. */
  lemma SameOrderForgettingIff(sorted: seq<Info>, hidden: set<HostId>, blind: seq<Info>)
    requires Ordered(sorted) && DistinctHosts(sorted)
    requires Ordered(blind) && multiset(blind) == multiset(Forgetting(sorted, hidden))
    ensures HostIds(blind) == HostIds(sorted) <==> HiddenFirst(sorted, hidden)
  {
    var t := Forgetting(sorted, hidden);
    ForgettingOrdered(sorted, hidden);
    if Ordered(t) {
      OrderIsUnique(blind, t);
    }
    if HostIds(blind) == HostIds(sorted) {
      SameHostsSameInfos(sorted, t, blind);
    }
  }

  lemma SameHostsSameInfos(sorted: seq<Info>, t: seq<Info>, blind: seq<Info>)
    requires DistinctHosts(sorted) && |t| == |sorted| && forall i :: 0 <= i < |t| ==> t[i].hostId == sorted[i].hostId
    requires multiset(blind) == multiset(t) && HostIds(blind) == HostIds(sorted)
    ensures blind == t
  {
    assert |blind| == |HostIds(blind)| == |sorted|;
    forall i | 0 <= i < |blind| ensures blind[i] == t[i] {
      SameMultiset(blind, t, blind[i]);
      var j :| 0 <= j < |t| && t[j] == blind[i];
      assert HostIds(blind)[i] == HostIds(sorted)[i];
      assert sorted[j].hostId == sorted[i].hostId;
      assert i == j;
    }
  }

  /** The condition can fail: one hidden pod is enough. */
  lemma MissingPodNamesReorder(first: Info, second: Info)
    requires first == Info("dc1", "r1", Some("p-0"), 1) && second == Info("dc1", "r1", Some("p-1"), 2)
    ensures Ordered([first, second]) && !HiddenFirst([first, second], {2})
  {
    assert StringBefore("0", "1") && "p-0"[1..][1..] == "0" && "p-1"[1..][1..] == "1";
    assert StringBefore("p-0"[1..], "p-1"[1..]);
    KeyBeforeIs(first, second);
    var s := [first, second];
    assert SameRack(s[0], s[1]) && s[1].hostId in {2} && !Nameless(Hide(s[0], {2}));
  }

  // --- Two orders ---------------------------------------------------------------------------

  // Two orders of the same hosts, each named once.
  predicate SameHosts(a: seq<HostId>, b: seq<HostId>) {
    && (forall i, j :: 0 <= i < j < |a| ==> a[i] != a[j])
    && (forall i, j :: 0 <= i < j < |b| ==> b[i] != b[j])
    && (forall h :: h in a ==> h in b) && (forall h :: h in b ==> h in a)
  }

  ghost predicate OnePending(c: State) {
    forall g, h :: g in c.hosts && h in c.hosts && Pending(c.hosts[g], Migrating(c)) && Pending(c.hosts[h], Migrating(c)) ==> g == h
  }

  // What a run in the second order asks of a cluster that is in the first one.
  ghost predicate KeepsOne(first: seq<HostId>, second: seq<HostId>) {
    forall c, e, c' :: Coherent(c) && InOrder(c, first) && Step(c, e, c') && UpgradeMove(c, e, second) ==> OnePending(c')
  }

  // A cluster where the node at position i of the order is marked, and the migration got so far.
  function Interrupted(order: seq<HostId>, i: nat, ks: Keyspace): State
    requires i < |order|
  {
    State(map h | h in order ::
            if h in order[..i] then Host(Tablets, {ks}, true, "")
            else if h == order[i] then Host(Tablets, {}, true, "")
            else Host(Vnodes, {}, true, ""),
          map[ks := MigratingToTablets])
  }

  lemma InterruptedInOrder(order: seq<HostId>, i: nat, ks: Keyspace)
    requires i < |order| && forall a, b :: 0 <= a < b < |order| ==> order[a] != order[b]
    ensures var c := Interrupted(order, i, ks); Coherent(c) && Migrating(c) == {ks} && InOrder(c, order)
  {
    var c := Interrupted(order, i, ks);
    assert Migrating(c) == {ks};
    forall j | 0 <= j < |order| ensures order[j] in c.hosts && (order[j] in order[..i] <==> j < i) {
      if j < i {
        assert order[..i][j] == order[j];
      } else {
        forall k | 0 <= k < i ensures order[..i][k] != order[j] {
          assert order[..i][k] == order[k];
        }
      }
    }
    assert Frontier(c, order, i);
  }

  /** At the first position where the orders differ, a run in the second order marks a node while
      the one that was interrupted is still marked: both are pending. */
  lemma ReorderedRunMarksTwo(first: seq<HostId>, second: seq<HostId>, i: nat)
    requires SameHosts(first, second) && i < |first| && i < |second|
    requires first[..i] == second[..i] && first[i] != second[i]
    ensures !KeepsOne(first, second)
  {
    var ks, h := "ks", second[i];
    var c := Interrupted(first, i, ks);
    InterruptedInOrder(first, i, ks);
    NotInPrefix(second, i);
    NotInPrefix(first, i);
    var e, c' := SetMode(h, h, Tablets), c.(hosts := c.hosts[h := c.hosts[h].(intended := Tablets)]);
    forall j | 0 <= j < i ensures second[j] in c.hosts && c.hosts[second[j]] == Host(Tablets, {ks}, true, "") {
      assert second[j] == second[..i][j] == first[..i][j] == first[j];
    }
    assert forall j :: 0 <= j < i ==> ks in Migrating(c) * c.hosts[second[j]].onTablets;
    assert Reached(c, second, i);
    assert Step(c, e, c') && UpgradeMove(c, e, second);
    assert Migrating(c') == {ks};
    assert ks in Converted(c'.hosts[first[i]].onTablets, Tablets, {ks});
    assert ks in Converted(c'.hosts[h].onTablets, Tablets, {ks});
    assert !OnePending(c');
  }

  lemma NotInPrefix(s: seq<HostId>, n: nat)
    requires n < |s| && forall i, j :: 0 <= i < j < |s| ==> s[i] != s[j]
    ensures s[n] in s && s[n] !in s[..n]
  {
    forall k | 0 <= k < n ensures s[..n][k] != s[n] {
      assert s[..n][k] == s[k];
    }
  }

  lemma PrefixIsAll(a: seq<HostId>, b: seq<HostId>)
    requires SameHosts(a, b) && |a| <= |b| && b[..|a|] == a
    ensures a == b
  {
    if |a| < |b| {
      NotInPrefix(b, |a|);
      assert false;
    }
  }

  lemma FirstDifference(a: seq<HostId>, b: seq<HostId>) returns (i: nat)
    requires SameHosts(a, b) && a != b
    ensures i < |a| && i < |b| && a[..i] == b[..i] && a[i] != b[i]
  {
    i := CommonPrefix(a, b);
    if i == |a| {
      assert a[..i] == a;
      PrefixIsAll(a, b);
    } else if i == |b| {
      assert b[..i] == b;
      PrefixIsAll(b, a);
    }
  }

  function CommonPrefix(a: seq<HostId>, b: seq<HostId>): (i: nat)
    ensures i <= |a| && i <= |b| && a[..i] == b[..i] && (i < |a| && i < |b| ==> a[i] != b[i])
  {
    if a == [] || b == [] || a[0] != b[0] then 0
    else
      var i := 1 + CommonPrefix(a[1..], b[1..]);
      assert a[..i] == [a[0]] + a[1..][..i - 1] && b[..i] == [b[0]] + b[1..][..i - 1];
      i
  }

  /** Exactly when the promise survives a change of order: every cluster that is in order for one
      run keeps at most one pending node under whatever the next run asks, if and only if both
      runs visit the nodes in the same order. */
  lemma OrdersMustAgree(first: seq<HostId>, second: seq<HostId>)
    requires SameHosts(first, second)
    ensures KeepsOne(first, second) <==> first == second
  {
    if first == second {
      forall c, e, c' | Coherent(c) && InOrder(c, first) && Step(c, e, c') && UpgradeMove(c, e, second) ensures OnePending(c') {
        MoveKeepsOrder(c, e, c', first);
        forall g, h | g in c'.hosts && h in c'.hosts && Pending(c'.hosts[g], Migrating(c')) && Pending(c'.hosts[h], Migrating(c'))
          ensures g == h
        {
          OneConvertsAtATime(c', first, g, h);
        }
      }
    } else {
      var i := FirstDifference(first, second);
      ReorderedRunMarksTwo(first, second, i);
    }
  }

  /** Were a migration started over existing marks, every marked node would be pending for it:
      what keeps a resumed run with one more keyspace safe is that the server refuses. */
  lemma StartOverMarks(c: State, ks: Keyspace, h: HostId)
    requires Coherent(c) && ks in c.status && c.status[ks] == Vnodes
    requires h in c.hosts
    ensures var c' := c.(status := c.status[ks := MigratingToTablets]);
            c.hosts[h].intended == Tablets ==> Pending(c'.hosts[h], Migrating(c'))
  {
    var c' := c.(status := c.status[ks := MigratingToTablets]);
    assert ks in Migrating(c') && Uniform(c, ks, Vnodes);
    if c.hosts[h].intended == Tablets {
      assert ks in Converted(c.hosts[h].onTablets, Tablets, Migrating(c'));
    }
  }
}
