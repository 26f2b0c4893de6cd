/** AlternatorSerializer.java: the tagged bytes of an attribute value and the :attrs map of an
    item, with an independent reader for both. */
module Serializer {
  import opened Options
  import opened Text
  import opened AttributeJson
  import opened AttributeReader
  import opened AttributeRepair
  import opened AttributeWriter
  import Decimal

  const TYPE_STRING: Byte := 0x00
  const TYPE_BINARY: Byte := 0x01
  const TYPE_BOOLEAN: Byte := 0x02
  const TYPE_NUMBER: Byte := 0x03
  const TYPE_JSON_FALLBACK: Byte := 0x04

  // new BigDecimal(text); None stands for its NumberFormatException.
  type Parser = Text -> Option<Decimal.Number>

  // None stands for an exception: a text that is no number, or a value with no field set.
  function Serialized(parse: Parser, v: Attribute): Option<Bytes> {
    match v
    case S(s) => Some([TYPE_STRING] + Utf8(s))
    case B(b) => Some([TYPE_BINARY] + b)
    case Bool(t) => Some([TYPE_BOOLEAN, if t then 1 else 0])
    case N(n) => (match parse(n) case Some(d) => Some([TYPE_NUMBER] + Decimal.Payload(d)) case None => None)
    case _ => if Supported(v) then Some([TYPE_JSON_FALLBACK] + Utf8(Json(v))) else None
  }

  // --- Writing ------------------------------------------------------------------------------

  method TaggedBytes(tag: Byte, payload: Bytes) returns (result: array<Byte>)
    ensures fresh(result) && result[..] == [tag] + payload
  {
    result := new Byte[1 + |payload|];
    result[0] := tag;
    Copy(payload, result, 1);
    assert result[..] == result[..1] + result[1..];
  }

  // System.arraycopy of the whole of `from` to position `at`.
  method Copy(from: Bytes, to: array<Byte>, at: nat)
    requires at + |from| <= to.Length
    modifies to
    ensures to[..at] == old(to[..at]) && to[at..at + |from|] == from && to[at + |from|..] == old(to[at + |from|..])
  {
    forall i | 0 <= i < |from| { to[at + i] := from[i]; }
  }

  method SerializeNumber(d: Decimal.Number) returns (result: array<Byte>)
    ensures fresh(result) && result[..] == [TYPE_NUMBER] + Decimal.Payload(d)
  {
    var scale: int := d.scale;
    var unscaled := Decimal.ToBytes(d.unscaled);
    result := new Byte[1 + 4 + |unscaled|];
    result[0] := TYPE_NUMBER;
    result[1] := Decimal.Octet(scale, 0x100_0000);
    result[2] := Decimal.Octet(scale, 0x1_0000);
    result[3] := Decimal.Octet(scale, 0x100);
    result[4] := Decimal.Octet(scale, 1);
    Copy(unscaled, result, 5);
    assert result[..] == result[..5] + result[5..];
  }

  /** serializeValue: the bytes that Serialized defines, or an exception where it defines none. */
  method SerializeValue(parse: Parser, v: Attribute) returns (r: Option<Bytes>)
    ensures r == Serialized(parse, v)
  {
    match v {
      case S(s) => var a := TaggedBytes(TYPE_STRING, Utf8(s)); return Some(a[..]);
      case B(b) => var a := TaggedBytes(TYPE_BINARY, b); return Some(a[..]);
      case Bool(t) => return Some([TYPE_BOOLEAN, if t then 0x01 else 0x00]);
      case N(n) =>
        var d := parse(n);
        if d.None? { return None; }
        var a := SerializeNumber(d.value);
        return Some(a[..]);
      case NoValue => return None;
      case _ =>
        var sb := new Builder();
        var ok := sb.AppendJsonAttributeValue(v);
        if !ok { return None; }
        assert sb.text == Json(v);
        var a := TaggedBytes(TYPE_JSON_FALLBACK, Utf8(sb.text));
        return Some(a[..]);
    }
  }

  /** serializeAttrsMap: None stands for an exception, raised for a repeated excluded key or a
      value that has no bytes; otherwise there is an entry for every attribute that is not
      excluded, and no other. */
  method SerializeAttrsMap(parse: Parser, item: map<Text, Attribute>, excludeKeys: seq<Text>)
    returns (r: Option<map<Bytes, Bytes>>)
    ensures r.Some? <==>
            (forall i, j :: 0 <= i < j < |excludeKeys| ==> excludeKeys[i] != excludeKeys[j])
            && forall k :: k in Rest(item, excludeKeys) ==> Serialized(parse, item[k]).Some?
    ensures r.Some? ==> Filled(parse, item, Rest(item, excludeKeys), r.value)
  {
    if exists i, j :: 0 <= i < j < |excludeKeys| && excludeKeys[i] == excludeKeys[j] { return None; }
    var attrs: map<Bytes, Bytes> := map[];
    var todo := item.Keys;
    while todo != {}
      invariant todo <= item.Keys
      invariant forall k :: k in Rest(item, excludeKeys) - todo ==> Serialized(parse, item[k]).Some?
      invariant Filled(parse, item, Rest(item, excludeKeys) - todo, attrs)
    {
      var name :| name in todo;
      ghost var done := Rest(item, excludeKeys) - todo;
      todo := todo - {name};
      if name in excludeKeys {
        assert Rest(item, excludeKeys) - todo == done;
        continue;
      }
      var value := SerializeValue(parse, item[name]);
      if value.None? {
        assert name in Rest(item, excludeKeys);
        return None;
      }
      assert Rest(item, excludeKeys) - todo == done + {name};
      FilledPut(parse, item, done, attrs, name);
      attrs := attrs[Utf8(name) := value.value];
    }
    assert Rest(item, excludeKeys) - todo == Rest(item, excludeKeys);
    r := Some(attrs);
  }

  // The names of the attributes that are serialized.
  function Rest(item: map<Text, Attribute>, excludeKeys: seq<Text>): set<Text> {
    set k | k in item && k !in excludeKeys
  }

  // One entry for every encoding of a name, holding the value of an attribute of that name.
  ghost predicate Filled(parse: Parser, item: map<Text, Attribute>, names: set<Text>, attrs: map<Bytes, Bytes>)
    requires names <= item.Keys
  {
    && (forall k :: k in names ==> Utf8(k) in attrs)
    && forall b :: b in attrs ==> exists k :: k in names && Utf8(k) == b && Serialized(parse, item[k]) == Some(attrs[b])
  }

  lemma FilledPut(parse: Parser, item: map<Text, Attribute>, names: set<Text>, attrs: map<Bytes, Bytes>, name: Text)
    requires names <= item.Keys && Filled(parse, item, names, attrs)
    requires name in item && Serialized(parse, item[name]).Some?
    ensures Filled(parse, item, names + {name}, attrs[Utf8(name) := Serialized(parse, item[name]).value])
  {
    var after := attrs[Utf8(name) := Serialized(parse, item[name]).value];
    forall b | b in after
      ensures exists k :: k in names + {name} && Utf8(k) == b && Serialized(parse, item[k]) == Some(after[b])
    {
      if b == Utf8(name) {
        assert name in names + {name};
      } else {
        var k :| k in names && Utf8(k) == b && Serialized(parse, item[k]) == Some(attrs[b]);
        assert k in names + {name};
      }
    }
  }

  // --- Reading ------------------------------------------------------------------------------

  datatype Datum = Whole(v: Attribute) | Numeric(d: Decimal.Number)

  function Deserialized(b: Bytes): Option<Datum> {
    if b == [] then None
    else if b[0] == TYPE_STRING then
      (match FromUtf8(b[1..]) case Some(s) => Some(Whole(S(s))) case None => None)
    else if b[0] == TYPE_BINARY then Some(Whole(B(b[1..])))
    else if b[0] == TYPE_BOOLEAN then
      (if |b| == 2 then Some(Whole(Bool(b[1] != 0))) else None)
    else if b[0] == TYPE_NUMBER then
      (if |b| <= 5 then None
       else Some(Numeric(Decimal.Number(Decimal.FromBytes(b[5..]), Decimal.ScaleOf(b[1..5])))))
    else if b[0] == TYPE_JSON_FALLBACK then
      (match FromUtf8(b[1..])
       case None => None
       case Some(t) => match ReadValue(t)
         case Some((v, rest)) => if rest == [] then Some(Whole(v)) else None
         case None => None)
    else None
  }

  // What a value means in its bytes: a number up to its spelling, every text up to its repair.
  function Meaning(parse: Parser, v: Attribute): Option<Datum> {
    match v
    case N(n) => (match parse(n) case Some(d) => Some(Numeric(d)) case None => None)
    case _ => Some(Whole(Mend(v)))
  }

  // Numbers inside a collection are not parsed.
  predicate InnerPlain(v: Attribute) { v.N? || NumbersPlain(v) }

  lemma NumberReads(d: Decimal.Number)
    ensures Deserialized([TYPE_NUMBER] + Decimal.Payload(d)) == Some(Numeric(d))
  {
    var b := [TYPE_NUMBER] + Decimal.Payload(d);
    assert b[1..5] == Decimal.ScaleBytes(d.scale);
    assert b[5..] == Decimal.ToBytes(d.unscaled);
    Decimal.ScaleRoundTrip(d.scale);
    Decimal.BytesRoundTrip(d.unscaled);
  }

  lemma FallbackReads(b: Bytes, t: Text, v: Attribute)
    requires FromUtf8(b) == Some(t) && ReadValue(t) == Some((v, []))
    ensures Deserialized([TYPE_JSON_FALLBACK] + b) == Some(Whole(v))
  {
    assert ([TYPE_JSON_FALLBACK] + b)[1..] == b;
  }

  lemma NestedReads(v: Attribute)
    requires Supported(v) && NumbersPlain(v)
    ensures Deserialized([TYPE_JSON_FALLBACK] + Utf8(Json(v))) == Some(Whole(Mend(v)))
  {
    JsonBack(v);
    FallbackReads(Utf8(Json(v)), Json(Mend(v)), Mend(v));
  }

  /** The bytes of a value are read back as what it means: exactly the value, but for the
      spelling of a number and for surrogates without a partner. */
  lemma SerializedReads(parse: Parser, v: Attribute)
    requires InnerPlain(v) && Serialized(parse, v).Some?
    ensures Deserialized(Serialized(parse, v).value) == Meaning(parse, v)
    ensures !v.N? ==> (Deserialized(Serialized(parse, v).value) == Some(Whole(v)) <==> TextsWellFormed(v))
  {
    MendKeeps(v);
    match v {
      case S(s) =>
        Utf8Decodes(s);
        assert ([TYPE_STRING] + Utf8(s))[1..] == Utf8(s);
      case B(b) => assert ([TYPE_BINARY] + b)[1..] == b;
      case Bool(_) =>
      case N(n) => NumberReads(parse(n).value);
      case _ => NestedReads(v);
    }
  }

  /** Serialization is injective across all types, up to what the bytes mean. */
  lemma SameBytesIffSameMeaning(parse: Parser, v: Attribute, w: Attribute)
    requires InnerPlain(v) && Serialized(parse, v).Some?
    requires InnerPlain(w) && Serialized(parse, w).Some?
    ensures Serialized(parse, v) == Serialized(parse, w) <==> Meaning(parse, v) == Meaning(parse, w)
  {
    SerializedReads(parse, v);
    SerializedReads(parse, w);
    if Meaning(parse, v) == Meaning(parse, w) {
      match v {
        case S(s) =>
          Utf8Repaired(s);
          Utf8Repaired(w.s);
        case B(_) =>
        case Bool(_) =>
        case N(_) =>
        case _ => JsonBytesRead(v, w);
      }
    }
  }

  /** Without unpaired surrogates, values with equal bytes are equal, or equal as BigDecimals. */
  lemma Injective(parse: Parser, v: Attribute, w: Attribute)
    requires InnerPlain(v) && (v.N? || TextsWellFormed(v)) && InnerPlain(w) && (w.N? || TextsWellFormed(w))
    requires Serialized(parse, v).Some? && Serialized(parse, v) == Serialized(parse, w)
    ensures v == w || (v.N? && w.N? && parse(v.n) == parse(w.n))
  {
    SameBytesIffSameMeaning(parse, v, w);
    MendKeeps(v);
    MendKeeps(w);
  }

  // --- The :attrs map -------------------------------------------------------------------------

  ghost predicate Distinct(names: set<Text>) {
    forall j, k :: j in names && k in names && Repaired(j) == Repaired(k) ==> j == k
  }

  function Encoded(names: set<Text>): set<Bytes> { set k | k in names :: Utf8(k) }

  lemma {:induction false} EncodedSize(names: set<Text>)
    ensures |Encoded(names)| <= |names|
    ensures |Encoded(names)| == |names| <==> Distinct(names)
  {
    if names != {} {
      var name :| name in names;
      var rest := names - {name};
      EncodedSize(rest);
      assert Encoded(names) == Encoded(rest) + {Utf8(name)};
      if Utf8(name) in Encoded(rest) {
        assert Encoded(names) == Encoded(rest);
        var k :| k in rest && Utf8(k) == Utf8(name);
        Utf8Faithful(k, name);
        assert !Distinct(names);
      } else {
        forall k | k in rest ensures Repaired(k) != Repaired(name) {
          Utf8Faithful(k, name);
          assert Utf8(k) in Encoded(rest);
        }
        assert Distinct(rest) <==> Distinct(names);
      }
    }
  }

  /** There are as many entries as attributes exactly if no two names merge, that is, if no two
      differ in unpaired surrogates only. */
  lemma OneEntryEach(parse: Parser, item: map<Text, Attribute>, names: set<Text>, attrs: map<Bytes, Bytes>)
    requires names <= item.Keys && Filled(parse, item, names, attrs)
    ensures |attrs| <= |names| && (|attrs| == |names| <==> Distinct(names))
  {
    EncodedSize(names);
    assert attrs.Keys == Encoded(names);
  }

  /** Every entry is that of one attribute: its key decodes to the name, its value to what the
      attribute means. */
  lemma EntryRecoverable(parse: Parser, item: map<Text, Attribute>, names: set<Text>, attrs: map<Bytes, Bytes>, b: Bytes)
    returns (k: Text)
    requires names <= item.Keys && Filled(parse, item, names, attrs)
    requires forall k :: k in names ==> WellFormed(k) && InnerPlain(item[k])
    requires b in attrs
    ensures k in names && FromUtf8(b) == Some(k) && Utf8(k) == b
    ensures Deserialized(attrs[b]) == Meaning(parse, item[k])
  {
    k :| k in names && Utf8(k) == b && Serialized(parse, item[k]) == Some(attrs[b]);
    Utf8Faithful(k, k);
    SerializedReads(parse, item[k]);
  }

  /** An attribute is found under its name with what it means, and one that is not there has no
      entry. */
  lemma AttrsRecoverable(parse: Parser, item: map<Text, Attribute>, names: set<Text>, attrs: map<Bytes, Bytes>, name: Text)
    requires names <= item.Keys && Filled(parse, item, names, attrs)
    requires forall k :: k in names ==> WellFormed(k) && InnerPlain(item[k])
    requires WellFormed(name)
    ensures Utf8(name) in attrs <==> name in names
    ensures name in names ==> Deserialized(attrs[Utf8(name)]) == Meaning(parse, item[name])
  {
    if Utf8(name) in attrs {
      var k := EntryRecoverable(parse, item, names, attrs, Utf8(name));
      Utf8Faithful(k, name);
    }
  }

  /** Well-formed names never merge. */
  lemma WellFormedDistinct(names: set<Text>)
    requires forall k :: k in names ==> WellFormed(k)
    ensures Distinct(names)
  {
    forall j, k | j in names && k in names && Repaired(j) == Repaired(k) ensures j == k {
      RepairedIffWellFormed(j);
      RepairedIffWellFormed(k);
    }
  }
}
