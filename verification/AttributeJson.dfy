/** The DynamoDB JSON of AlternatorSerializer.java: what is written for an attribute value of
    any nesting. */
module AttributeJson {
  import opened Text
  import opened JsonString
  import Base64

  // An AttributeValue with one field set; NoValue stands for one with none.
  datatype Attribute =
    | S(s: Text)
    | N(n: Text)
    | B(b: Bytes)
    | Bool(truth: bool)
    | Null
    | SS(ss: seq<Text>)
    | NS(ns: seq<Text>)
    | BS(bs: seq<Bytes>)
    | L(l: seq<Attribute>)
    | M(m: seq<Entry>)
    | NoValue

  // One entry of a map, in the order in which the map is iterated.
  datatype Entry = Entry(key: Text, value: Attribute)

  const T_S: Text := [0x53]
  const T_N: Text := [0x4E]
  const T_B: Text := [0x42]
  const T_BOOL: Text := [0x42, 0x4F, 0x4F, 0x4C]
  const T_NULL: Text := [0x4E, 0x55, 0x4C, 0x4C]
  const T_SS: Text := [0x53, 0x53]
  const T_NS: Text := [0x4E, 0x53]
  const T_BS: Text := [0x42, 0x53]
  const T_L: Text := [0x4C]
  const T_M: Text := [0x4D]
  const TRUE: Text := [0x74, 0x72, 0x75, 0x65]
  const FALSE: Text := [0x66, 0x61, 0x6C, 0x73, 0x65]

  predicate Supported(v: Attribute) {
    match v
    case L(l) => forall i :: 0 <= i < |l| ==> Supported(l[i])
    case M(m) => forall i :: 0 <= i < |m| ==> Supported(m[i].value)
    case NoValue => false
    case _ => true
  }

  // Numbers are appended as they are, so they must be able to stand between quotes.
  predicate NumbersPlain(v: Attribute) {
    match v
    case N(n) => Plain(n)
    case NS(ns) => forall i :: 0 <= i < |ns| ==> Plain(ns[i])
    case L(l) => forall i :: 0 <= i < |l| ==> NumbersPlain(l[i])
    case M(m) => forall i :: 0 <= i < |m| ==> NumbersPlain(m[i].value)
    case _ => true
  }

  // --- Writing ---------------------------------------------------------------------------

  function Quoted(p: Text): Text { [QUOTE] + p + [QUOTE] }

  function Tag(v: Attribute): Text {
    match v
    case S(_) => T_S
    case N(_) => T_N
    case B(_) => T_B
    case Bool(_) => T_BOOL
    case Null => T_NULL
    case SS(_) => T_SS
    case NS(_) => T_NS
    case BS(_) => T_BS
    case L(_) => T_L
    case M(_) => T_M
    case NoValue => []
  }

  // Spellings separated by commas.
  function Joined(parts: seq<Text>): Text {
    if parts == [] then []
    else if |parts| == 1 then parts[0]
    else parts[0] + [COMMA] + Joined(parts[1..])
  }

  function Quotes(parts: seq<Text>): (r: seq<Text>)
    ensures |r| == |parts|
  {
    if parts == [] then [] else [Quoted(parts[0])] + Quotes(parts[1..])
  }

  function Escapes(ss: seq<Text>): (r: seq<Text>)
    ensures |r| == |ss|
  {
    if ss == [] then [] else [Escaped(ss[0])] + Escapes(ss[1..])
  }

  function Encodings(bs: seq<Bytes>): (r: seq<Text>)
    ensures |r| == |bs|
  {
    if bs == [] then [] else [Base64.Encode(bs[0])] + Encodings(bs[1..])
  }

  function Jsons(l: seq<Attribute>): (r: seq<Text>)
    ensures |r| == |l|
  {
    if l == [] then [] else [Json(l[0])] + Jsons(l[1..])
  }

  function Pair(e: Entry): Text { Quoted(Escaped(e.key)) + [COLON] + Json(e.value) }

  function Pairs(m: seq<Entry>): (r: seq<Text>)
    ensures |r| == |m|
  {
    if m == [] then [] else [Pair(m[0])] + Pairs(m[1..])
  }

  function Payload(v: Attribute): Text
    decreases v, 0
  {
    match v
    case S(s) => Quoted(Escaped(s))
    case N(n) => Quoted(n)
    case B(b) => Quoted(Base64.Encode(b))
    case Bool(b) => if b then TRUE else FALSE
    case Null => TRUE
    case SS(ss) => [LBRACK] + Joined(Quotes(Escapes(ss))) + [RBRACK]
    case NS(ns) => [LBRACK] + Joined(Quotes(ns)) + [RBRACK]
    case BS(bs) => [LBRACK] + Joined(Quotes(Encodings(bs))) + [RBRACK]
    case L(l) => [LBRACK] + Joined(Jsons(l)) + [RBRACK]
    case M(m) => [LBRACE] + Joined(Pairs(m)) + [RBRACE]
    case NoValue => []
  }

  function Json(v: Attribute): Text
    decreases v, 1
  {
    [LBRACE] + Quoted(Tag(v)) + [COLON] + Payload(v) + [RBRACE]
  }

  // The parts, one by one.
  lemma {:induction false} QuotePart(ps: seq<Text>, i: nat)
    requires i < |ps|
    ensures Quotes(ps)[i] == Quoted(ps[i])
  {
    if i > 0 {
      QuotePart(ps[1..], i - 1);
    }
  }

  lemma {:induction false} EscapePart(ss: seq<Text>, i: nat)
    requires i < |ss|
    ensures Escapes(ss)[i] == Escaped(ss[i])
  {
    if i > 0 {
      EscapePart(ss[1..], i - 1);
    }
  }

  lemma {:induction false} EncodingPart(bs: seq<Bytes>, i: nat)
    requires i < |bs|
    ensures Encodings(bs)[i] == Base64.Encode(bs[i])
  {
    if i > 0 {
      EncodingPart(bs[1..], i - 1);
    }
  }

  lemma StringPart(ss: seq<Text>, i: nat)
    requires i < |ss|
    ensures Quotes(Escapes(ss))[i] == Quoted(Escaped(ss[i]))
  {
    EscapePart(ss, i);
    QuotePart(Escapes(ss), i);
  }

  lemma BinaryPart(bs: seq<Bytes>, i: nat)
    requires i < |bs|
    ensures Quotes(Encodings(bs))[i] == Quoted(Base64.Encode(bs[i]))
  {
    EncodingPart(bs, i);
    QuotePart(Encodings(bs), i);
  }

  lemma {:induction false} JsonPart(l: seq<Attribute>, i: nat)
    requires i < |l|
    ensures Jsons(l)[i] == Json(l[i])
  {
    if i > 0 {
      JsonPart(l[1..], i - 1);
    }
  }

  lemma {:induction false} PairPart(m: seq<Entry>, i: nat)
    requires i < |m|
    ensures Pairs(m)[i] == Pair(m[i])
  {
    if i > 0 {
      PairPart(m[1..], i - 1);
    }
  }
}
