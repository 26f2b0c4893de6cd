/** A recursive-descent reader for the DynamoDB JSON of AttributeJson, and the proof that it
    gives back what was written, whatever follows. */
module AttributeReader {
  import opened Options
  import opened Text
  import opened JsonString
  import opened AttributeJson
  import opened Sequences
  import Base64

  function ReadQuoted(s: Text): (r: Option<(Text, Text)>)
    ensures r.Some? ==> |r.value.1| < |s|
  {
    if s != [] && s[0] == QUOTE then ReadString(s[1..]) else None
  }

  function After(s: Text, prefix: Text): Option<Text> {
    if prefix <= s then Some(s[|prefix|..]) else None
  }

  // A non-empty comma-separated list of strings, up to the closing bracket.
  function ReadItems(s: Text): (r: Option<(seq<Text>, Text)>)
    ensures r.Some? ==> |r.value.1| < |s|
    decreases |s|
  {
    match ReadQuoted(s)
    case None => None
    case Some((t, r1)) =>
      if r1 != [] && r1[0] == RBRACK then Some(([t], r1[1..]))
      else if r1 != [] && r1[0] == COMMA then
        (match ReadItems(r1[1..])
         case None => None
         case Some((ts, r2)) => Some(([t] + ts, r2)))
      else None
  }

  function ReadStrings(s: Text): (r: Option<(seq<Text>, Text)>)
    ensures r.Some? ==> |r.value.1| < |s|
  {
    if s == [] || s[0] != LBRACK then None
    else if |s| >= 2 && s[1] == RBRACK then Some(([], s[2..]))
    else ReadItems(s[1..])
  }

  function DecodeAll(ts: seq<Text>): Option<seq<Bytes>> {
    if ts == [] then Some([])
    else match (Base64.Decode(ts[0]), DecodeAll(ts[1..]))
      case (Some(b), Some(bs)) => Some([b] + bs)
      case _ => None
  }

  function AsList(o: Option<(seq<Attribute>, Text)>): Option<(Attribute, Text)> {
    match o case Some((vs, r)) => Some((L(vs), r)) case None => None
  }

  function AsMap(o: Option<(seq<Entry>, Text)>): Option<(Attribute, Text)> {
    match o case Some((es, r)) => Some((M(es), r)) case None => None
  }

  function Keyed(key: Text, o: Option<(Attribute, Text)>): Option<(Entry, Text)> {
    match o case Some((v, r)) => Some((Entry(key, v), r)) case None => None
  }

  // The brace that ends a value.
  function Closed(o: Option<(Attribute, Text)>): Option<(Attribute, Text)> {
    match o
    case Some((v, r)) => if r != [] && r[0] == RBRACE then Some((v, r[1..])) else None
    case None => None
  }

  function ReadValues(s: Text): (r: Option<(seq<Attribute>, Text)>)
    ensures r.Some? ==> |r.value.1| < |s|
    decreases |s|, 2
  {
    match ReadValue(s)
    case None => None
    case Some((v, r1)) =>
      if r1 != [] && r1[0] == RBRACK then Some(([v], r1[1..]))
      else if r1 != [] && r1[0] == COMMA then
        (match ReadValues(r1[1..])
         case None => None
         case Some((vs, r2)) => Some(([v] + vs, r2)))
      else None
  }

  function ReadPair(s: Text): (r: Option<(Entry, Text)>)
    ensures r.Some? ==> |r.value.1| < |s|
    decreases |s|, 2
  {
    match ReadQuoted(s)
    case None => None
    case Some((key, r0)) =>
      if r0 == [] || r0[0] != COLON then None
      else Keyed(key, ReadValue(r0[1..]))
  }

  function ReadEntries(s: Text): (r: Option<(seq<Entry>, Text)>)
    ensures r.Some? ==> |r.value.1| < |s|
    decreases |s|, 3
  {
    match ReadPair(s)
    case None => None
    case Some((e, r1)) =>
      if r1 != [] && r1[0] == RBRACE then Some(([e], r1[1..]))
      else if r1 != [] && r1[0] == COMMA then
        (match ReadEntries(r1[1..])
         case None => None
         case Some((es, r2)) => Some(([e] + es, r2)))
      else None
  }

  function ReadPayload(tag: Text, s: Text): (r: Option<(Attribute, Text)>)
    ensures r.Some? ==> |r.value.1| < |s|
    decreases |s|, 4
  {
    if tag == T_S then
      (match ReadQuoted(s) case Some((t, r)) => Some((S(t), r)) case None => None)
    else if tag == T_N then
      (match ReadQuoted(s) case Some((t, r)) => Some((N(t), r)) case None => None)
    else if tag == T_B then
      (match ReadQuoted(s)
       case None => None
       case Some((t, r)) => match Base64.Decode(t) case Some(b) => Some((B(b), r)) case None => None)
    else if tag == T_BOOL then
      (match After(s, TRUE)
       case Some(r) => Some((Bool(true), r))
       case None => match After(s, FALSE) case Some(r) => Some((Bool(false), r)) case None => None)
    else if tag == T_NULL then
      (match After(s, TRUE) case Some(r) => Some((Null, r)) case None => None)
    else if tag == T_SS then
      (match ReadStrings(s) case Some((ts, r)) => Some((SS(ts), r)) case None => None)
    else if tag == T_NS then
      (match ReadStrings(s) case Some((ts, r)) => Some((NS(ts), r)) case None => None)
    else if tag == T_BS then
      (match ReadStrings(s)
       case None => None
       case Some((ts, r)) => match DecodeAll(ts) case Some(bs) => Some((BS(bs), r)) case None => None)
    else if tag == T_L then
      if s == [] || s[0] != LBRACK then None
      else if |s| >= 2 && s[1] == RBRACK then Some((L([]), s[2..]))
      else AsList(ReadValues(s[1..]))
    else if tag == T_M then
      if s == [] || s[0] != LBRACE then None
      else if |s| >= 2 && s[1] == RBRACE then Some((M([]), s[2..]))
      else AsMap(ReadEntries(s[1..]))
    else None
  }

  /** An attribute value at the front of a text, and what follows it. */
  function ReadValue(s: Text): (r: Option<(Attribute, Text)>)
    ensures r.Some? ==> |r.value.1| < |s|
    decreases |s|, 1
  {
    if s == [] || s[0] != LBRACE then None
    else match ReadQuoted(s[1..])
      case None => None
      case Some((tag, r1)) =>
        if r1 == [] || r1[0] != COLON then None
        else Closed(ReadPayload(tag, r1[1..]))
  }

  // --- Round trip ------------------------------------------------------------------------

  // Between quotes, `p` is read as `t`.
  ghost predicate Spells(p: Text, t: Text) {
    forall rest :: ReadString(p + [QUOTE] + rest) == Some((t, rest))
  }

  ghost predicate AllSpell(parts: seq<Text>, texts: seq<Text>) {
    |parts| == |texts| && forall i :: 0 <= i < |parts| ==> Spells(parts[i], texts[i])
  }

  // At the front of any text, `p` is read as the value `v`.
  ghost predicate Writes(p: Text, v: Attribute) {
    forall rest :: ReadValue(p + rest) == Some((v, rest))
  }

  ghost predicate WritesPair(p: Text, e: Entry) {
    forall rest :: ReadPair(p + rest) == Some((e, rest))
  }

  ghost predicate AllWrite(parts: seq<Text>, l: seq<Attribute>) {
    |parts| == |l| && forall i :: 0 <= i < |l| ==> Writes(parts[i], l[i])
  }

  ghost predicate AllWritePairs(parts: seq<Text>, m: seq<Entry>) {
    |parts| == |m| && forall i :: 0 <= i < |m| ==> WritesPair(parts[i], m[i])
  }

  lemma EscapedSpells(t: Text)
    ensures Spells(Escaped(t), t)
  {
    forall rest ensures ReadString(Escaped(t) + [QUOTE] + rest) == Some((t, rest)) {
      EscapedReads(t, rest);
    }
  }

  lemma PlainSpells(t: Text)
    requires Plain(t)
    ensures Spells(t, t)
  {
    forall rest ensures ReadString(t + [QUOTE] + rest) == Some((t, rest)) {
      PlainReads(t, rest);
    }
  }

  lemma {:induction false} EncodingIsPlain(b: Bytes)
    ensures Plain(Base64.Encode(b))
  {
    if |b| >= 3 {
      EncodingIsPlain(b[3..]);
    }
  }

  lemma {:induction false} EscapesSpell(ss: seq<Text>)
    ensures AllSpell(Escapes(ss), ss)
  {
    if ss != [] {
      EscapesSpell(ss[1..]);
      EscapedSpells(ss[0]);
    }
  }

  lemma {:induction false} EncodingsDecode(bs: seq<Bytes>)
    ensures DecodeAll(Encodings(bs)) == Some(bs)
    ensures AllSpell(Encodings(bs), Encodings(bs))
  {
    if bs != [] {
      EncodingsDecode(bs[1..]);
      Base64.Decodes(bs[0]);
      EncodingIsPlain(bs[0]);
      PlainSpells(Base64.Encode(bs[0]));
      assert bs == [bs[0]] + bs[1..];
      assert Encodings(bs)[1..] == Encodings(bs[1..]);
    }
  }

  lemma QuotedReads(p: Text, t: Text, rest: Text)
    requires Spells(p, t)
    ensures ReadQuoted(Quoted(p) + rest) == Some((t, rest))
  {
    assert (Quoted(p) + rest)[1..] == p + [QUOTE] + rest;
  }

  // --- Lists: a first part, and a comma or the closing bracket

  lemma Regroup(a: Text, b: Text, close: Unit, rest: Text)
    ensures a + [close] + rest == a + ([close] + rest)
    ensures a + [COMMA] + b + [close] + rest == a + ([COMMA] + (b + [close] + rest))
  {
  }

  lemma JoinedSplit(parts: seq<Text>, close: Unit, rest: Text)
    requires parts != []
    ensures Joined(parts) + [close] + rest ==
            if |parts| == 1 then parts[0] + ([close] + rest)
            else parts[0] + ([COMMA] + (Joined(parts[1..]) + [close] + rest))
  {
    Regroup(parts[0], Joined(parts[1..]), close, rest);
  }

  lemma Tail(u: Unit, rest: Text)
    ensures ([u] + rest)[0] == u && ([u] + rest)[1..] == rest
  {
  }

  lemma {:induction false} ItemsRead(parts: seq<Text>, texts: seq<Text>, rest: Text)
    requires parts != [] && AllSpell(parts, texts)
    ensures ReadItems(Joined(Quotes(parts)) + [RBRACK] + rest) == Some((texts, rest))
  {
    JoinedSplit(Quotes(parts), RBRACK, rest);
    if |parts| == 1 {
      QuotedReads(parts[0], texts[0], [RBRACK] + rest);
      Tail(RBRACK, rest);
      Uncons(texts, []);
    } else {
      var tail := Joined(Quotes(parts[1..])) + [RBRACK] + rest;
      ItemsRead(parts[1..], texts[1..], rest);
      QuotedReads(parts[0], texts[0], [COMMA] + tail);
      Tail(COMMA, tail);
      Uncons(texts, []);
    }
  }

  lemma FrontReads(parts: seq<Text>, l: seq<Attribute>, rest: Text)
    requires parts != [] && AllWrite(parts, l)
    ensures ReadValue(parts[0] + rest) == Some((l[0], rest))
    ensures AllWrite(parts[1..], l[1..])
  {
    assert Writes(parts[0], l[0]);
  }

  lemma FrontPairReads(parts: seq<Text>, m: seq<Entry>, rest: Text)
    requires parts != [] && AllWritePairs(parts, m)
    ensures ReadPair(parts[0] + rest) == Some((m[0], rest))
    ensures AllWritePairs(parts[1..], m[1..])
  {
    assert WritesPair(parts[0], m[0]);
  }

  lemma {:induction false} ValuesRead(parts: seq<Text>, l: seq<Attribute>, rest: Text)
    requires parts != [] && AllWrite(parts, l)
    ensures ReadValues(Joined(parts) + [RBRACK] + rest) == Some((l, rest))
  {
    JoinedSplit(parts, RBRACK, rest);
    if |parts| == 1 {
      FrontReads(parts, l, [RBRACK] + rest);
      Tail(RBRACK, rest);
      Uncons(l, []);
    } else {
      var tail := Joined(parts[1..]) + [RBRACK] + rest;
      FrontReads(parts, l, [COMMA] + tail);
      ValuesRead(parts[1..], l[1..], rest);
      Tail(COMMA, tail);
      Uncons(l, []);
    }
  }

  lemma {:induction false} EntriesRead(parts: seq<Text>, m: seq<Entry>, rest: Text)
    requires parts != [] && AllWritePairs(parts, m)
    ensures ReadEntries(Joined(parts) + [RBRACE] + rest) == Some((m, rest))
  {
    JoinedSplit(parts, RBRACE, rest);
    if |parts| == 1 {
      FrontPairReads(parts, m, [RBRACE] + rest);
      Tail(RBRACE, rest);
      Uncons(m, []);
    } else {
      var tail := Joined(parts[1..]) + [RBRACE] + rest;
      FrontPairReads(parts, m, [COMMA] + tail);
      EntriesRead(parts[1..], m[1..], rest);
      Tail(COMMA, tail);
      Uncons(m, []);
    }
  }

  lemma Opened(open: Unit, inside: Text, close: Unit, rest: Text)
    ensures var s := [open] + inside + [close] + rest;
            s[0] == open && s[1..] == inside + [close] + rest
            && (inside == [] ==> s[1] == close && s[2..] == rest)
            && (inside != [] ==> s[1] == inside[0])
  {
    var s := [open] + inside + [close] + rest;
    assert inside == [] ==> s[2..] == rest;
  }

  lemma StringsOpen(parts: seq<Text>, rest: Text)
    ensures ReadStrings([LBRACK] + Joined(Quotes(parts)) + [RBRACK] + rest) ==
            if parts == [] then Some(([], rest)) else ReadItems(Joined(Quotes(parts)) + [RBRACK] + rest)
  {
    Opened(LBRACK, Joined(Quotes(parts)), RBRACK, rest);
    if parts != [] {
      assert Joined(Quotes(parts))[0] == Quoted(parts[0])[0] == QUOTE;
    }
  }

  lemma ListOpen(parts: seq<Text>, rest: Text)
    requires parts != [] ==> parts[0] != [] && parts[0][0] == LBRACE
    ensures ReadPayload(T_L, [LBRACK] + Joined(parts) + [RBRACK] + rest) ==
            if parts == [] then Some((L([]), rest))
            else AsList(ReadValues(Joined(parts) + [RBRACK] + rest))
  {
    Opened(LBRACK, Joined(parts), RBRACK, rest);
    if parts != [] {
      assert Joined(parts)[0] == parts[0][0];
    }
  }

  lemma MapOpen(parts: seq<Text>, rest: Text)
    requires parts != [] ==> parts[0] != [] && parts[0][0] == QUOTE
    ensures ReadPayload(T_M, [LBRACE] + Joined(parts) + [RBRACE] + rest) ==
            if parts == [] then Some((M([]), rest))
            else AsMap(ReadEntries(Joined(parts) + [RBRACE] + rest))
  {
    Opened(LBRACE, Joined(parts), RBRACE, rest);
    if parts != [] {
      assert Joined(parts)[0] == parts[0][0];
    }
  }

  // A value is read through its tag and its payload.
  lemma HeadReads(tag: Text, payload: Text, rest: Text)
    requires Plain(tag)
    ensures ReadValue([LBRACE] + Quoted(tag) + [COLON] + payload + [RBRACE] + rest) ==
            Closed(ReadPayload(tag, payload + ([RBRACE] + rest)))
  {
    var s := [LBRACE] + Quoted(tag) + [COLON] + payload + [RBRACE] + rest;
    var tail := [COLON] + (payload + ([RBRACE] + rest));
    assert s[1..] == Quoted(tag) + tail;
    PlainSpells(tag);
    QuotedReads(tag, tag, tail);
    assert tail[1..] == payload + ([RBRACE] + rest);
  }

  lemma KeyReads(key: Text, value: Text, rest: Text)
    ensures ReadPair(Quoted(Escaped(key)) + [COLON] + value + rest) ==
            Keyed(key, ReadValue(value + rest))
  {
    var tail := [COLON] + (value + rest);
    EscapedSpells(key);
    QuotedReads(Escaped(key), key, tail);
    assert Quoted(Escaped(key)) + [COLON] + value + rest == Quoted(Escaped(key)) + tail;
    assert tail[1..] == value + rest;
  }

  /** Whatever follows, a written value is read back as itself, and what follows is left. */
  lemma {:induction false} JsonReads(v: Attribute, rest: Text)
    requires Supported(v) && NumbersPlain(v)
    ensures ReadValue(Json(v) + rest) == Some((v, rest))
    decreases v, 1
  {
    PayloadReads(v, [RBRACE] + rest);
    HeadReads(Tag(v), Payload(v), rest);
    Tail(RBRACE, rest);
  }

  lemma ValueWrites(v: Attribute)
    requires Supported(v) && NumbersPlain(v)
    ensures Writes(Json(v), v)
    decreases v, 2
  {
    forall rest ensures ReadValue(Json(v) + rest) == Some((v, rest)) {
      JsonReads(v, rest);
    }
  }

  lemma PairWrites(e: Entry)
    requires Writes(Json(e.value), e.value)
    ensures WritesPair(Pair(e), e)
  {
    forall rest ensures ReadPair(Pair(e) + rest) == Some((e, rest)) {
      KeyReads(e.key, Json(e.value), rest);
    }
  }

  lemma {:induction false} PayloadReads(v: Attribute, rest: Text)
    requires Supported(v) && NumbersPlain(v)
    ensures ReadPayload(Tag(v), Payload(v) + rest) == Some((v, rest))
    decreases v, 0
  {
    match v {
      case Bool(_) => LiteralReads(v, rest);
      case Null => LiteralReads(v, rest);
      case L(l) =>
        forall i | 0 <= i < |l| ensures |Jsons(l)| == |l| && Writes(Jsons(l)[i], l[i]) {
          ValueWrites(l[i]);
          JsonPart(l, i);
        }
        ListReads(l, Jsons(l), rest);
      case M(m) =>
        forall i | 0 <= i < |m| ensures |Pairs(m)| == |m| && WritesPair(Pairs(m)[i], m[i]) {
          ValueWrites(m[i].value);
          PairWrites(m[i]);
          PairPart(m, i);
        }
        MapReads(m, Pairs(m), rest);
      case _ => FlatReads(v, rest);
    }
  }

  lemma ListReads(l: seq<Attribute>, parts: seq<Text>, rest: Text)
    requires parts == Jsons(l) && AllWrite(parts, l)
    ensures ReadPayload(T_L, [LBRACK] + Joined(parts) + [RBRACK] + rest) == Some((L(l), rest))
  {
    ListOpen(parts, rest);
    if l != [] {
      ValuesRead(parts, l, rest);
    }
  }

  lemma MapReads(m: seq<Entry>, parts: seq<Text>, rest: Text)
    requires parts == Pairs(m) && AllWritePairs(parts, m)
    ensures ReadPayload(T_M, [LBRACE] + Joined(parts) + [RBRACE] + rest) == Some((M(m), rest))
  {
    MapOpen(parts, rest);
    if m != [] {
      EntriesRead(parts, m, rest);
    }
  }

  lemma FlatReads(v: Attribute, rest: Text)
    requires v.S? || v.N? || v.B? || v.SS? || v.NS? || v.BS?
    requires NumbersPlain(v)
    ensures ReadPayload(Tag(v), Payload(v) + rest) == Some((v, rest))
  {
    match v {
      case S(s) =>
        EscapedSpells(s);
        QuotedReads(Escaped(s), s, rest);
      case N(n) =>
        PlainSpells(n);
        QuotedReads(n, n, rest);
      case B(b) =>
        EncodingIsPlain(b);
        PlainSpells(Base64.Encode(b));
        QuotedReads(Base64.Encode(b), Base64.Encode(b), rest);
        Base64.Decodes(b);
      case SS(ss) =>
        EscapesSpell(ss);
        StringsRead(Escapes(ss), ss, rest);
      case NS(ns) =>
        forall i | 0 <= i < |ns| ensures Spells(ns[i], ns[i]) {
          PlainSpells(ns[i]);
        }
        StringsRead(ns, ns, rest);
      case BS(bs) =>
        EncodingsDecode(bs);
        StringsRead(Encodings(bs), Encodings(bs), rest);
    }
  }

  lemma StringsRead(parts: seq<Text>, texts: seq<Text>, rest: Text)
    requires AllSpell(parts, texts)
    ensures ReadStrings([LBRACK] + Joined(Quotes(parts)) + [RBRACK] + rest) == Some((texts, rest))
  {
    StringsOpen(parts, rest);
    if parts != [] {
      ItemsRead(parts, texts, rest);
    }
  }

  lemma LiteralReads(v: Attribute, rest: Text)
    requires v.Bool? || v.Null?
    ensures ReadPayload(Tag(v), Payload(v) + rest) == Some((v, rest))
  {
    var s := Payload(v) + rest;
    assert After(s, Payload(v)) == Some(rest);
    if v == Bool(false) {
      assert s[0] == FALSE[0] != TRUE[0];
      assert After(s, TRUE) == None;
    }
  }

  // --- Nothing else is read back ------------------------------------------------------------

  // If the part is read as its value once, it always is.
  ghost predicate AllOrNone(p: Text, v: Attribute) {
    forall rest, after :: ReadValue(p + rest) == Some((v, after)) ==> Writes(p, v)
  }

  ghost predicate AllOrNonePair(p: Text, e: Entry) {
    forall rest, after :: ReadPair(p + rest) == Some((e, after)) ==> WritesPair(p, e)
  }

  lemma RawItem(t: Text, rest: Text, after: Text)
    requires ReadQuoted(Quoted(t) + rest) == Some((t, after))
    ensures Plain(t) && after == rest
  {
    assert (Quoted(t) + rest)[1..] == t + ([QUOTE] + rest) == t + [QUOTE] + rest;
    RawReadIsPlain(t, rest, after);
    PlainReads(t, rest);
  }

  lemma {:induction false} ItemsPlain(ns: seq<Text>, rest: Text, after: Text)
    requires ns != [] && ReadItems(Joined(Quotes(ns)) + [RBRACK] + rest) == Some((ns, after))
    ensures forall i :: 0 <= i < |ns| ==> Plain(ns[i])
  {
    JoinedSplit(Quotes(ns), RBRACK, rest);
    if |ns| == 1 {
      RawItem(ns[0], [RBRACK] + rest, ReadQuoted(Quoted(ns[0]) + ([RBRACK] + rest)).value.1);
    } else {
      var tail := Joined(Quotes(ns[1..])) + [RBRACK] + rest;
      RawItem(ns[0], [COMMA] + tail, ReadQuoted(Quoted(ns[0]) + ([COMMA] + tail)).value.1);
      Tail(COMMA, tail);
      assert ReadItems(tail).value.0 == ns[1..];
      ItemsPlain(ns[1..], rest, after);
      assert ns == [ns[0]] + ns[1..];
    }
  }

  lemma AllWriteCons(parts: seq<Text>, l: seq<Attribute>)
    requires parts != [] && l != [] && Writes(parts[0], l[0]) && AllWrite(parts[1..], l[1..])
    ensures AllWrite(parts, l)
  {
    forall i | 0 <= i < |l| ensures Writes(parts[i], l[i]) {
      if i > 0 {
        assert Writes(parts[1..][i - 1], l[1..][i - 1]);
      }
    }
  }

  lemma ValuesFirst(parts: seq<Text>, l: seq<Attribute>, rest: Text, after: Text)
    requires parts != [] && |parts| == |l| && AllOrNone(parts[0], l[0])
    requires ReadValues(Joined(parts) + [RBRACK] + rest) == Some((l, after))
    ensures Writes(parts[0], l[0])
    ensures |parts| > 1 ==> ReadValues(Joined(parts[1..]) + [RBRACK] + rest) == Some((l[1..], after))
  {
    JoinedSplit(parts, RBRACK, rest);
    var more := Joined(parts[1..]) + [RBRACK] + rest;
    var tail := if |parts| == 1 then [RBRACK] + rest else [COMMA] + more;
    assert ReadValue(parts[0] + tail) == Some((l[0], ReadValue(parts[0] + tail).value.1));
    Tail(COMMA, more);
  }

  lemma {:induction false} ValuesAllWrite(parts: seq<Text>, l: seq<Attribute>, rest: Text, after: Text)
    requires parts != [] && |parts| == |l| && forall i :: 0 <= i < |l| ==> AllOrNone(parts[i], l[i])
    requires ReadValues(Joined(parts) + [RBRACK] + rest) == Some((l, after))
    ensures AllWrite(parts, l)
  {
    ValuesFirst(parts, l, rest, after);
    if |parts| > 1 {
      ValuesAllWrite(parts[1..], l[1..], rest, after);
    }
    AllWriteCons(parts, l);
  }

  lemma AllWritePairsCons(parts: seq<Text>, m: seq<Entry>)
    requires parts != [] && m != [] && WritesPair(parts[0], m[0]) && AllWritePairs(parts[1..], m[1..])
    ensures AllWritePairs(parts, m)
  {
    forall i | 0 <= i < |m| ensures WritesPair(parts[i], m[i]) {
      if i > 0 {
        assert WritesPair(parts[1..][i - 1], m[1..][i - 1]);
      }
    }
  }

  lemma EntriesFirst(parts: seq<Text>, m: seq<Entry>, rest: Text, after: Text)
    requires parts != [] && |parts| == |m| && AllOrNonePair(parts[0], m[0])
    requires ReadEntries(Joined(parts) + [RBRACE] + rest) == Some((m, after))
    ensures WritesPair(parts[0], m[0])
    ensures |parts| > 1 ==> ReadEntries(Joined(parts[1..]) + [RBRACE] + rest) == Some((m[1..], after))
  {
    JoinedSplit(parts, RBRACE, rest);
    var more := Joined(parts[1..]) + [RBRACE] + rest;
    var tail := if |parts| == 1 then [RBRACE] + rest else [COMMA] + more;
    assert ReadPair(parts[0] + tail) == Some((m[0], ReadPair(parts[0] + tail).value.1));
    Tail(COMMA, more);
  }

  lemma {:induction false} EntriesAllWrite(parts: seq<Text>, m: seq<Entry>, rest: Text, after: Text)
    requires parts != [] && |parts| == |m| && forall i :: 0 <= i < |m| ==> AllOrNonePair(parts[i], m[i])
    requires ReadEntries(Joined(parts) + [RBRACE] + rest) == Some((m, after))
    ensures AllWritePairs(parts, m)
  {
    EntriesFirst(parts, m, rest, after);
    if |parts| > 1 {
      EntriesAllWrite(parts[1..], m[1..], rest, after);
    }
    AllWritePairsCons(parts, m);
  }

  lemma {:induction false} JsonReadIsPlain(v: Attribute, rest: Text, after: Text)
    requires Supported(v) && ReadValue(Json(v) + rest) == Some((v, after))
    ensures NumbersPlain(v)
    decreases v, 1
  {
    HeadReads(Tag(v), Payload(v), rest);
    var read := ReadPayload(Tag(v), Payload(v) + ([RBRACE] + rest));
    PayloadReadIsPlain(v, [RBRACE] + rest, read.value.1);
  }

  lemma ValueAllOrNone(v: Attribute)
    requires Supported(v)
    ensures AllOrNone(Json(v), v)
    ensures Writes(Json(v), v) ==> NumbersPlain(v)
    decreases v, 2
  {
    forall rest, after | ReadValue(Json(v) + rest) == Some((v, after)) ensures Writes(Json(v), v) {
      JsonReadIsPlain(v, rest, after);
      ValueWrites(v);
    }
    if Writes(Json(v), v) {
      assert ReadValue(Json(v) + []) == Some((v, []));
      JsonReadIsPlain(v, [], []);
    }
  }

  lemma PairAllOrNone(e: Entry)
    requires AllOrNone(Json(e.value), e.value)
    ensures AllOrNonePair(Pair(e), e)
  {
    forall rest, after | ReadPair(Pair(e) + rest) == Some((e, after)) ensures WritesPair(Pair(e), e) {
      KeyReads(e.key, Json(e.value), rest);
      assert ReadValue(Json(e.value) + rest) == Some((e.value, after));
      PairWrites(e);
    }
  }

  lemma PairWritesValue(e: Entry)
    requires WritesPair(Pair(e), e)
    ensures ReadValue(Json(e.value) + []) == Some((e.value, []))
  {
    assert ReadPair(Pair(e) + []) == Some((e, []));
    KeyReads(e.key, Json(e.value), []);
  }

  lemma {:induction false} PayloadReadIsPlain(v: Attribute, rest: Text, after: Text)
    requires Supported(v) && ReadPayload(Tag(v), Payload(v) + rest) == Some((v, after))
    ensures NumbersPlain(v)
    decreases v, 0
  {
    match v {
      case N(n) => RawItem(n, rest, after);
      case NS(ns) =>
        StringsOpen(ns, rest);
        if ns != [] {
          ItemsPlain(ns, rest, after);
        }
      case L(l) =>
        forall i | 0 <= i < |l|
          ensures |Jsons(l)| == |l| && AllOrNone(Jsons(l)[i], l[i]) && (Writes(Jsons(l)[i], l[i]) ==> NumbersPlain(l[i]))
        {
          ValueAllOrNone(l[i]);
          JsonPart(l, i);
        }
        if l != [] {
          ListAllWrite(l, Jsons(l), rest, after);
        }
      case M(m) =>
        forall i | 0 <= i < |m|
          ensures |Pairs(m)| == |m| && AllOrNonePair(Pairs(m)[i], m[i])
          ensures WritesPair(Pairs(m)[i], m[i]) ==> NumbersPlain(m[i].value)
        {
          ValueAllOrNone(m[i].value);
          PairAllOrNone(m[i]);
          PairPart(m, i);
          if WritesPair(Pairs(m)[i], m[i]) {
            PairWritesValue(m[i]);
          }
        }
        if m != [] {
          MapAllWrite(m, Pairs(m), rest, after);
        }
      case _ =>
    }
  }

  lemma ListAllWrite(l: seq<Attribute>, parts: seq<Text>, rest: Text, after: Text)
    requires l != [] && parts == Jsons(l)
    requires |parts| == |l| && forall i :: 0 <= i < |l| ==> AllOrNone(parts[i], l[i])
    requires ReadPayload(T_L, [LBRACK] + Joined(parts) + [RBRACK] + rest) == Some((L(l), after))
    ensures AllWrite(parts, l)
  {
    ListOpen(parts, rest);
    ValuesAllWrite(parts, l, rest, after);
  }

  lemma MapAllWrite(m: seq<Entry>, parts: seq<Text>, rest: Text, after: Text)
    requires m != [] && parts == Pairs(m)
    requires |parts| == |m| && forall i :: 0 <= i < |m| ==> AllOrNonePair(parts[i], m[i])
    requires ReadPayload(T_M, [LBRACE] + Joined(parts) + [RBRACE] + rest) == Some((M(m), after))
    ensures AllWritePairs(parts, m)
  {
    MapOpen(parts, rest);
    EntriesAllWrite(parts, m, rest, after);
  }

  /** A written value is read back exactly if its numbers can stand between quotes. */
  lemma JsonReadsIffPlain(v: Attribute, rest: Text)
    requires Supported(v)
    ensures (exists after :: ReadValue(Json(v) + rest) == Some((v, after))) <==> NumbersPlain(v)
    ensures NumbersPlain(v) ==> ReadValue(Json(v) + rest) == Some((v, rest))
  {
    if NumbersPlain(v) {
      JsonReads(v, rest);
    }
    if after :| ReadValue(Json(v) + rest) == Some((v, after)) {
      JsonReadIsPlain(v, rest, after);
    }
  }

  /** No written value is a proper beginning of another, and no two are written alike. */
  lemma PrefixFree(v: Attribute, w: Attribute, x: Text, y: Text)
    requires Supported(v) && NumbersPlain(v) && Supported(w) && NumbersPlain(w)
    requires Json(v) + x == Json(w) + y
    ensures v == w && x == y
  {
    JsonReads(v, x);
    JsonReads(w, y);
  }

  const N_OPEN: Text := [LBRACE, QUOTE] + T_N + [QUOTE, COLON, QUOTE]
  const N_CLOSE: Text := [QUOTE, RBRACE]

  lemma NumberText(n: Text)
    ensures Json(N(n)) == N_OPEN + n + N_CLOSE
  {
    assert [LBRACE] + Quoted(T_N) + [COLON] + [QUOTE] == N_OPEN;
    assert Json(N(n)) == ([LBRACE] + Quoted(T_N) + [COLON] + [QUOTE]) + n + N_CLOSE;
  }

  lemma Nested(open: Text, a: Text, close: Text, b: Text)
    ensures open + (a + (close + [COMMA] + open) + b) + close == (open + a + close) + [COMMA] + (open + b + close)
  {
  }

  /** A number that holds quotes can be written exactly as two numbers are. */
  lemma NumbersCanMerge(a: Text, b: Text)
    ensures Json(L([N(a + (N_CLOSE + [COMMA] + N_OPEN) + b)])) == Json(L([N(a), N(b)]))
  {
    var one, two := [N(a + (N_CLOSE + [COMMA] + N_OPEN) + b)], [N(a), N(b)];
    NumberText(one[0].n);
    NumberText(a);
    NumberText(b);
    Nested(N_OPEN, a, N_CLOSE, b);
    assert two[1..] == [N(b)] && one[1..] == [] && [N(b)][1..] == [];
    assert Jsons(two) == [Json(N(a)), Json(N(b))] && Jsons(one) == [Json(one[0])];
    JoinedTwo(Json(N(a)), Json(N(b)));
    assert Joined(Jsons(one)) == Joined(Jsons(two));
  }

  lemma JoinedTwo(x: Text, y: Text)
    ensures Joined([x, y]) == x + [COMMA] + y && Joined([x]) == x
  {
    assert [x, y][1..] == [y];
  }
}
