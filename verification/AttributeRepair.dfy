/** What String.getBytes does to the JSON of an attribute value: every surrogate without its
    partner becomes a question mark, inside the value and nowhere else. */
module AttributeRepair {
  import opened Options
  import opened Text
  import opened JsonString
  import opened AttributeJson
  import opened AttributeReader
  import opened Sequences
  import Base64

  function MendTexts(ss: seq<Text>): (r: seq<Text>)
    ensures |r| == |ss|
  {
    if ss == [] then [] else [Repaired(ss[0])] + MendTexts(ss[1..])
  }

  function MendValues(l: seq<Attribute>): (r: seq<Attribute>)
    ensures |r| == |l|
  {
    if l == [] then [] else [Mend(l[0])] + MendValues(l[1..])
  }

  function MendEntry(e: Entry): Entry { Entry(Repaired(e.key), Mend(e.value)) }

  function MendEntries(m: seq<Entry>): (r: seq<Entry>)
    ensures |r| == |m|
  {
    if m == [] then [] else [MendEntry(m[0])] + MendEntries(m[1..])
  }

  function Mend(v: Attribute): Attribute {
    match v
    case S(s) => S(Repaired(s))
    case N(n) => N(Repaired(n))
    case SS(ss) => SS(MendTexts(ss))
    case NS(ns) => NS(MendTexts(ns))
    case L(l) => L(MendValues(l))
    case M(m) => M(MendEntries(m))
    case _ => v
  }

  predicate TextsWellFormed(v: Attribute) {
    match v
    case S(s) => WellFormed(s)
    case N(n) => WellFormed(n)
    case SS(ss) => forall i :: 0 <= i < |ss| ==> WellFormed(ss[i])
    case NS(ns) => forall i :: 0 <= i < |ns| ==> WellFormed(ns[i])
    case L(l) => forall i :: 0 <= i < |l| ==> TextsWellFormed(l[i])
    case M(m) => forall i :: 0 <= i < |m| ==> WellFormed(m[i].key) && TextsWellFormed(m[i].value)
    case _ => true
  }

  predicate Solid(u: Unit) { !High(u) && !Low(u) }

  predicate AllSolid(s: Text) { forall i :: 0 <= i < |s| ==> Solid(s[i]) }

  // --- Repairing part by part ----------------------------------------------------------------

  lemma RepairedPair(front: Text, rest: Text)
    requires |front| == 2 && PairAt(front)
    ensures Repaired(front + rest) == front + Repaired(rest)
  {
    assert (front + rest)[2..] == rest && (front + rest)[..2] == front;
  }

  lemma RepairedUnit(u: Unit, rest: Text)
    requires !PairAt([u] + rest)
    ensures Repaired([u] + rest) == (if Solid(u) then [u] else [0x3F]) + Repaired(rest)
  {
    assert ([u] + rest)[1..] == rest;
  }

  lemma {:induction false} RepairedConcat(a: Text, b: Text)
    requires b != [] ==> !Low(b[0])
    ensures Repaired(a + b) == Repaired(a) + Repaired(b)
  {
    if a == [] {
      assert a + b == b;
    } else if PairAt(a) {
      RepairedConcat(a[2..], b);
      assert a + b == a[..2] + (a[2..] + b);
      RepairedPair(a[..2], a[2..] + b);
      Assoc(a[..2], Repaired(a[2..]), Repaired(b));
    } else {
      RepairedConcat(a[1..], b);
      assert a + b == [a[0]] + (a[1..] + b);
      assert !PairAt(a + b);
      RepairedUnit(a[0], a[1..] + b);
      Assoc(if Solid(a[0]) then [a[0]] else [0x3F], Repaired(a[1..]), Repaired(b));
    }
  }

  lemma {:induction false} SolidPrefix(a: Text, b: Text)
    requires AllSolid(a)
    ensures Repaired(a + b) == a + Repaired(b)
  {
    if a == [] {
      assert a + b == b;
    } else {
      SolidPrefix(a[1..], b);
      Uncons(a, b);
      Assoc([a[0]], a[1..], b);
      RepairedUnit(a[0], a[1..] + b);
      Assoc([a[0]], a[1..], Repaired(b));
    }
  }

  lemma RepairedWithin(open: Text, inside: Text, close: Unit)
    requires AllSolid(open) && Solid(close)
    ensures Repaired(open + inside + [close]) == open + Repaired(inside) + [close]
  {
    RepairedConcat(open + inside, [close]);
    SolidPrefix(open, inside);
    assert [close][1..] == [] && Repaired([close]) == [close];
  }

  lemma EscapeOfSolid(c: Unit)
    requires Solid(c)
    ensures AllSolid(Escape(c))
  {
  }

  lemma EscapeStarts(s: Text)
    requires s != [] && !Low(s[0])
    ensures Escaped(s) != [] && !Low(Escaped(s)[0])
  {
  }

  lemma EscapedCons(c: Unit, rest: Text)
    ensures Escaped([c] + rest) == Escape(c) + Escaped(rest)
  {
    Uncons([c], rest);
    Nothing(rest);
  }

  lemma EscapedPair(s: Text)
    requires PairAt(s)
    ensures Escaped(s) == s[..2] + Escaped(s[2..])
  {
    assert s == [s[0]] + ([s[1]] + s[2..]) && s[..2] == [s[0]] + [s[1]];
    EscapedCons(s[0], [s[1]] + s[2..]);
    EscapedCons(s[1], s[2..]);
    Assoc([s[0]], [s[1]], Escaped(s[2..]));
  }

  lemma {:induction false} RepairedEscapes(s: Text)
    ensures Repaired(Escaped(s)) == Escaped(Repaired(s))
  {
    if s != [] {
      if PairAt(s) {
        RepairedEscapes(s[2..]);
        EscapedPair(s);
        RepairedPair(s[..2], Escaped(s[2..]));
        assert s == s[..2] + s[2..];
        RepairedPair(s[..2], s[2..]);
        EscapedPair(s[..2] + Repaired(s[2..]));
      } else if Solid(s[0]) {
        RepairedEscapes(s[1..]);
        EscapeOfSolid(s[0]);
        SolidPrefix(Escape(s[0]), Escaped(s[1..]));
        assert Repaired(s)[1..] == Repaired(s[1..]);
      } else {
        RepairedEscapes(s[1..]);
        LoneEscape(s);
      }
    }
  }

  lemma StillAlone(s: Text)
    requires s != [] && !PairAt(s) && !Solid(s[0])
    ensures !PairAt([s[0]] + Escaped(s[1..]))
  {
    if |s| > 1 && High(s[0]) {
      EscapeStarts(s[1..]);
    }
  }

  lemma LoneUnit(s: Text)
    requires s != [] && !PairAt(s) && !Solid(s[0])
    ensures Escaped(s) == [s[0]] + Escaped(s[1..])
    ensures Repaired(s) == [0x3F] + Repaired(s[1..])
    ensures Escape(0x3F) == [0x3F]
  {
  }

  lemma LoneEscape(s: Text)
    requires s != [] && !PairAt(s) && !Solid(s[0])
    requires Repaired(Escaped(s[1..])) == Escaped(Repaired(s[1..]))
    ensures Repaired(Escaped(s)) == Escaped(Repaired(s))
  {
    StillAlone(s);
    LoneUnit(s);
    RepairedUnit(s[0], Escaped(s[1..]));
    EscapedCons(0x3F, Repaired(s[1..]));
  }

  lemma {:induction false} EncodingIsSolid(b: Bytes)
    ensures AllSolid(Base64.Encode(b))
  {
    if |b| >= 3 {
      EncodingIsSolid(b[3..]);
    }
  }

  lemma EncodingRepaired(b: Bytes)
    ensures Repaired(Base64.Encode(b)) == Base64.Encode(b)
  {
    EncodingIsSolid(b);
    SolidPrefix(Base64.Encode(b), []);
    assert Base64.Encode(b) + [] == Base64.Encode(b);
  }

  // --- Lists -------------------------------------------------------------------------------

  ghost predicate Guarded(p: Text, q: Text) { p != [] && !Low(p[0]) && Repaired(p) == q }

  lemma {:induction false} JoinedRepaired(ps: seq<Text>, qs: seq<Text>)
    requires |ps| == |qs| && forall i :: 0 <= i < |ps| ==> Guarded(ps[i], qs[i])
    ensures Repaired(Joined(ps)) == Joined(qs)
    ensures ps != [] ==> Joined(ps) != [] && !Low(Joined(ps)[0])
  {
    if |ps| > 1 {
      assert Guarded(ps[0], qs[0]);
      forall i | 0 <= i < |ps[1..]| ensures Guarded(ps[1..][i], qs[1..][i]) {
        assert Guarded(ps[i + 1], qs[i + 1]);
      }
      JoinedRepaired(ps[1..], qs[1..]);
      RepairedConcat(ps[0] + [COMMA], Joined(ps[1..]));
      RepairedConcat(ps[0], [COMMA]);
      assert [COMMA][1..] == [] && Repaired([COMMA]) == [COMMA];
    } else if |ps| == 1 {
      assert Guarded(ps[0], qs[0]);
    }
  }

  lemma QuotedRepaired(p: Text, q: Text)
    requires Repaired(p) == q
    ensures Guarded(Quoted(p), Quoted(q))
  {
    RepairedWithin([QUOTE], p, QUOTE);
  }

  lemma {:induction false} NumbersMend(ns: seq<Text>)
    ensures |Quotes(ns)| == |ns| == |Quotes(MendTexts(ns))|
    ensures forall i :: 0 <= i < |ns| ==> Guarded(Quotes(ns)[i], Quotes(MendTexts(ns))[i])
  {
    if ns != [] {
      NumbersMend(ns[1..]);
      QuotedRepaired(ns[0], Repaired(ns[0]));
      assert MendTexts(ns)[1..] == MendTexts(ns[1..]);
    }
  }

  lemma {:induction false} StringsMend(ss: seq<Text>)
    ensures |Quotes(Escapes(ss))| == |ss| == |Quotes(Escapes(MendTexts(ss)))|
    ensures forall i :: 0 <= i < |ss| ==> Guarded(Quotes(Escapes(ss))[i], Quotes(Escapes(MendTexts(ss)))[i])
  {
    if ss != [] {
      StringsMend(ss[1..]);
      RepairedEscapes(ss[0]);
      QuotedRepaired(Escaped(ss[0]), Escaped(Repaired(ss[0])));
      assert Escapes(ss)[1..] == Escapes(ss[1..]);
      assert MendTexts(ss)[1..] == MendTexts(ss[1..]);
      assert Escapes(MendTexts(ss))[1..] == Escapes(MendTexts(ss[1..]));
    }
  }

  lemma {:induction false} BinariesMend(bs: seq<Bytes>)
    ensures |Quotes(Encodings(bs))| == |bs|
    ensures forall i :: 0 <= i < |bs| ==> Guarded(Quotes(Encodings(bs))[i], Quotes(Encodings(bs))[i])
  {
    if bs != [] {
      BinariesMend(bs[1..]);
      EncodingRepaired(bs[0]);
      QuotedRepaired(Base64.Encode(bs[0]), Base64.Encode(bs[0]));
      assert Encodings(bs)[1..] == Encodings(bs[1..]);
    }
  }

  lemma {:induction false} ValuesMend(l: seq<Attribute>)
    ensures |Jsons(l)| == |l| == |Jsons(MendValues(l))|
    ensures forall i :: 0 <= i < |l| ==> Guarded(Jsons(l)[i], Jsons(MendValues(l))[i])
    decreases l
  {
    if l != [] {
      ValuesMend(l[1..]);
      JsonMend(l[0]);
      assert MendValues(l)[1..] == MendValues(l[1..]);
    }
  }

  lemma {:induction false} EntriesMend(m: seq<Entry>)
    ensures |Pairs(m)| == |m| == |Pairs(MendEntries(m))|
    ensures forall i :: 0 <= i < |m| ==> Guarded(Pairs(m)[i], Pairs(MendEntries(m))[i])
    decreases m
  {
    if m != [] {
      EntriesMend(m[1..]);
      PairMend(m[0]);
      assert MendEntries(m)[1..] == MendEntries(m[1..]);
    }
  }

  lemma PairMend(e: Entry)
    ensures Guarded(Pair(e), Pair(MendEntry(e)))
    decreases e
  {
    var key, value := Quoted(Escaped(e.key)), Json(e.value);
    JsonMend(e.value);
    RepairedEscapes(e.key);
    QuotedRepaired(Escaped(e.key), Escaped(Repaired(e.key)));
    RepairedConcat(key + [COLON], value);
    RepairedConcat(key, [COLON]);
    assert [COLON][1..] == [] && Repaired([COLON]) == [COLON];
  }

  /** The repair of a written value is what is written for the repaired value. */
  lemma {:induction false} JsonMend(v: Attribute)
    ensures Guarded(Json(v), Json(Mend(v)))
    decreases v, 1
  {
    PayloadMend(v);
    HeadIsSolid(v);
    RepairedWithin([LBRACE] + Quoted(Tag(v)) + [COLON], Payload(v), RBRACE);
  }

  lemma HeadIsSolid(v: Attribute)
    ensures AllSolid([LBRACE] + Quoted(Tag(v)) + [COLON]) && Tag(Mend(v)) == Tag(v)
  {
  }

  lemma {:induction false} PayloadMend(v: Attribute)
    ensures Repaired(Payload(v)) == Payload(Mend(v))
    decreases v, 0
  {
    match v {
      case S(s) =>
        RepairedEscapes(s);
        QuotedRepaired(Escaped(s), Escaped(Repaired(s)));
      case N(n) => QuotedRepaired(n, Repaired(n));
      case B(b) =>
        EncodingRepaired(b);
        QuotedRepaired(Base64.Encode(b), Base64.Encode(b));
      case SS(ss) =>
        StringsMend(ss);
        ListMend(LBRACK, Quotes(Escapes(ss)), Quotes(Escapes(MendTexts(ss))), RBRACK);
      case NS(ns) =>
        NumbersMend(ns);
        ListMend(LBRACK, Quotes(ns), Quotes(MendTexts(ns)), RBRACK);
      case BS(bs) =>
        BinariesMend(bs);
        ListMend(LBRACK, Quotes(Encodings(bs)), Quotes(Encodings(bs)), RBRACK);
      case L(l) =>
        ValuesMend(l);
        ListMend(LBRACK, Jsons(l), Jsons(MendValues(l)), RBRACK);
      case M(m) =>
        EntriesMend(m);
        ListMend(LBRACE, Pairs(m), Pairs(MendEntries(m)), RBRACE);
      case _ =>
        SolidPrefix(Payload(v), []);
        assert Payload(v) + [] == Payload(v);
    }
  }

  lemma ListMend(open: Unit, ps: seq<Text>, qs: seq<Text>, close: Unit)
    requires Solid(open) && Solid(close)
    requires |ps| == |qs| && forall i :: 0 <= i < |ps| ==> Guarded(ps[i], qs[i])
    ensures Repaired([open] + Joined(ps) + [close]) == [open] + Joined(qs) + [close]
  {
    JoinedRepaired(ps, qs);
    RepairedWithin([open], Joined(ps), close);
  }

  // --- The repaired value --------------------------------------------------------------------

  lemma {:induction false} RepairedPlain(s: Text)
    requires Plain(s)
    ensures Plain(Repaired(s))
  {
    if s != [] {
      if PairAt(s) { RepairedPlain(s[2..]); } else { RepairedPlain(s[1..]); }
    }
  }

  lemma {:induction false} MendTextsAt(ss: seq<Text>, i: nat)
    requires i < |ss|
    ensures MendTexts(ss)[i] == Repaired(ss[i])
  {
    if i > 0 {
      MendTextsAt(ss[1..], i - 1);
    }
  }

  lemma {:induction false} MendValuesAt(l: seq<Attribute>, i: nat)
    requires i < |l|
    ensures MendValues(l)[i] == Mend(l[i])
  {
    if i > 0 {
      MendValuesAt(l[1..], i - 1);
    }
  }

  lemma {:induction false} MendEntriesAt(m: seq<Entry>, i: nat)
    requires i < |m|
    ensures MendEntries(m)[i] == MendEntry(m[i])
  {
    if i > 0 {
      MendEntriesAt(m[1..], i - 1);
    }
  }

  lemma {:induction false} MendKeeps(v: Attribute)
    ensures Supported(v) ==> Supported(Mend(v))
    ensures NumbersPlain(v) ==> NumbersPlain(Mend(v))
    ensures Mend(v) == v <==> TextsWellFormed(v)
  {
    match v {
      case S(s) => RepairedIffWellFormed(s);
      case N(n) =>
        RepairedIffWellFormed(n);
        if Plain(n) { RepairedPlain(n); }
      case SS(ss) =>
        forall i | 0 <= i < |ss| ensures MendTexts(ss)[i] == ss[i] <==> WellFormed(ss[i]) {
          MendTextsAt(ss, i);
          RepairedIffWellFormed(ss[i]);
        }
      case NS(ns) =>
        forall i | 0 <= i < |ns|
          ensures MendTexts(ns)[i] == ns[i] <==> WellFormed(ns[i])
          ensures Plain(ns[i]) ==> Plain(MendTexts(ns)[i])
        {
          MendTextsAt(ns, i);
          RepairedIffWellFormed(ns[i]);
          if Plain(ns[i]) { RepairedPlain(ns[i]); }
        }
      case L(l) =>
        forall i | 0 <= i < |l| ensures Kept(l[i]) {
          MendKeeps(l[i]);
        }
        ListKept(l);
      case M(m) =>
        forall i | 0 <= i < |m| ensures Kept(m[i].value) {
          MendKeeps(m[i].value);
        }
        MapKept(m);
      case _ =>
    }
  }

  ghost predicate Kept(v: Attribute) {
    && (Supported(v) ==> Supported(Mend(v)))
    && (NumbersPlain(v) ==> NumbersPlain(Mend(v)))
    && (Mend(v) == v <==> TextsWellFormed(v))
  }

  lemma ListKept(l: seq<Attribute>)
    requires forall i :: 0 <= i < |l| ==> Kept(l[i])
    ensures Kept(L(l))
  {
    forall i | 0 <= i < |l| ensures MendValues(l)[i] == Mend(l[i]) {
      MendValuesAt(l, i);
    }
  }

  lemma MapKept(m: seq<Entry>)
    requires forall i :: 0 <= i < |m| ==> Kept(m[i].value)
    ensures Kept(M(m))
  {
    forall i | 0 <= i < |m|
      ensures MendEntries(m)[i] == MendEntry(m[i])
      ensures MendEntry(m[i]) == m[i] <==> WellFormed(m[i].key) && TextsWellFormed(m[i].value)
    {
      MendEntriesAt(m, i);
      RepairedIffWellFormed(m[i].key);
    }
  }

  /** The UTF-8 bytes of a written value are read back as the repaired value; two values have
      the same bytes exactly if they have the same repair. */
  lemma JsonBytesRead(v: Attribute, w: Attribute)
    requires Supported(v) && NumbersPlain(v) && Supported(w) && NumbersPlain(w)
    ensures FromUtf8(Utf8(Json(v))) == Some(Json(Mend(v))) && ReadValue(Json(Mend(v))) == Some((Mend(v), []))
    ensures Utf8(Json(v)) == Utf8(Json(w)) <==> Mend(v) == Mend(w)
  {
    JsonBack(v);
    JsonBack(w);
    Utf8Repaired(Json(v));
    Utf8Repaired(Json(w));
  }

  lemma JsonBack(v: Attribute)
    requires Supported(v) && NumbersPlain(v)
    ensures Repaired(Json(v)) == Json(Mend(v))
    ensures FromUtf8(Utf8(Json(v))) == Some(Json(Mend(v))) && ReadValue(Json(Mend(v))) == Some((Mend(v), []))
  {
    JsonMend(v);
    Utf8Decodes(Json(v));
    MendKeeps(v);
    JsonReads(Mend(v), []);
    assert Json(Mend(v)) + [] == Json(Mend(v));
  }
}
