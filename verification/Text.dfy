/** Java strings and byte arrays as the Alternator code handles them: UTF-16 code units
    and their UTF-8 encoding by String.getBytes. */
module Text {
  import opened Options

  type Unit = u: int | 0 <= u < 0x10000
  type Byte = b: int | 0 <= b < 0x100
  type Text = seq<Unit>
  type Bytes = seq<Byte>

  // --- UTF-8 ------------------------------------------------------------------------------

  predicate High(u: Unit) { 0xD800 <= u < 0xDC00 }

  predicate Low(u: Unit) { 0xDC00 <= u < 0xE000 }

  predicate PairAt(s: Text) { |s| >= 2 && High(s[0]) && Low(s[1]) }

  function CodePoint(high: Unit, low: Unit): (r: int)
    requires High(high) && Low(low)
    ensures 0x10000 <= r < 0x110000
  {
    0x10000 + (high - 0xD800) * 0x400 + (low - 0xDC00)
  }

  function UnitUtf8(u: Unit): Bytes {
    if u < 0x80 then [u]
    else if u < 0x800 then [0xC0 + u / 0x40, 0x80 + u % 0x40]
    else if High(u) || Low(u) then [0x3F]
    else [0xE0 + u / 0x1000, 0x80 + u / 0x40 % 0x40, 0x80 + u % 0x40]
  }

  function ScalarUtf8(p: int): Bytes
    requires 0x10000 <= p < 0x110000
  {
    [0xF0 + p / 0x40000, 0x80 + p / 0x1000 % 0x40, 0x80 + p / 0x40 % 0x40, 0x80 + p % 0x40]
  }

  // String.getBytes(UTF_8): a surrogate without its partner becomes a question mark.
  function Utf8(s: Text): Bytes {
    if s == [] then []
    else if PairAt(s) then ScalarUtf8(CodePoint(s[0], s[1])) + Utf8(s[2..])
    else UnitUtf8(s[0]) + Utf8(s[1..])
  }

  predicate Continuation(b: Byte) { 0x80 <= b < 0xC0 }

  function Num(b: Byte): int { b }

  // The scalar value at the front of a UTF-8 text and the length of its encoding.
  function FirstScalar(b: Bytes): (r: Option<(int, nat)>)
    requires b != []
    ensures r.Some? ==> 0 < r.value.1 <= |b| && 0 <= r.value.0
  {
    if b[0] < 0x80 then Some((Num(b[0]), 1))
    else if 0xC0 <= b[0] < 0xE0 && |b| >= 2 && Continuation(b[1]) then
      Some(((Num(b[0]) - 0xC0) * 0x40 + (Num(b[1]) - 0x80), 2))
    else if 0xE0 <= b[0] < 0xF0 && |b| >= 3 && Continuation(b[1]) && Continuation(b[2]) then
      Some(((Num(b[0]) - 0xE0) * 0x1000 + (Num(b[1]) - 0x80) * 0x40 + (Num(b[2]) - 0x80), 3))
    else if 0xF0 <= b[0] < 0xF8 && |b| >= 4 && Continuation(b[1]) && Continuation(b[2]) && Continuation(b[3]) then
      Some(((Num(b[0]) - 0xF0) * 0x40000 + (Num(b[1]) - 0x80) * 0x1000 + (Num(b[2]) - 0x80) * 0x40 + (Num(b[3]) - 0x80), 4))
    else None
  }

  function Utf16Of(scalar: int): (r: Option<Text>)
    requires 0 <= scalar
  {
    if scalar < 0x10000 then Some([scalar])
    else if scalar < 0x110000 then Some([0xD800 + (scalar - 0x10000) / 0x400, 0xDC00 + (scalar - 0x10000) % 0x400])
    else None
  }

  function FromUtf8(b: Bytes): Option<Text>
    decreases |b|
  {
    if b == [] then Some([])
    else match FirstScalar(b)
      case None => None
      case Some((scalar, n)) =>
        match (Utf16Of(scalar), FromUtf8(b[n..]))
        case (Some(front), Some(rest)) => Some(front + rest)
        case _ => None
  }

  // What survives the encoding.
  function Repaired(s: Text): Text {
    if s == [] then []
    else if PairAt(s) then s[..2] + Repaired(s[2..])
    else (if High(s[0]) || Low(s[0]) then [0x3F] else [s[0]]) + Repaired(s[1..])
  }

  // Every surrogate has its partner.
  predicate WellFormed(s: Text) {
    s == [] ||
    (if PairAt(s) then WellFormed(s[2..]) else !High(s[0]) && !Low(s[0]) && WellFormed(s[1..]))
  }

  lemma FrontDecodes(front: Bytes, rest: Bytes, scalar: int)
    requires front != [] && 0 <= scalar && FirstScalar(front + rest) == Some((scalar, |front|))
    ensures FromUtf8(front + rest) ==
            match (Utf16Of(scalar), FromUtf8(rest)) {
              case (Some(f), Some(r)) => Some(f + r)
              case _ => None
            }
  {
    assert (front + rest)[|front|..] == rest;
  }

  lemma SixBitDigits(p: int)
    requires 0 <= p
    ensures p == p / 0x40000 * 0x40000 + p / 0x1000 % 0x40 * 0x1000 + p / 0x40 % 0x40 * 0x40 + p % 0x40
  {
    assert p / 0x1000 == p / 0x40 / 0x40;
    assert p / 0x40000 == p / 0x1000 / 0x40;
  }

  lemma ScalarDecodes(p: int, rest: Bytes)
    requires 0x10000 <= p < 0x110000
    ensures FirstScalar(ScalarUtf8(p) + rest) == Some((p, 4))
  {
    SixBitDigits(p);
  }

  lemma PairIsScalar(high: Unit, low: Unit)
    requires High(high) && Low(low)
    ensures Utf16Of(CodePoint(high, low)) == Some([high, low])
  {
  }

  lemma UnitDecodes(u: Unit, rest: Bytes)
    ensures FirstScalar(UnitUtf8(u) + rest) == Some((if High(u) || Low(u) then 0x3F else u as int, |UnitUtf8(u)|))
  {
    assert u / 0x40 == u / 0x1000 * 0x40 + u / 0x40 % 0x40;
  }

  /** Decoding what was encoded gives the text back, up to surrogates without a partner. */
  lemma {:induction false} Utf8Decodes(s: Text)
    ensures FromUtf8(Utf8(s)) == Some(Repaired(s))
  {
    if s != [] {
      if PairAt(s) {
        var p, rest := CodePoint(s[0], s[1]), Utf8(s[2..]);
        Utf8Decodes(s[2..]);
        ScalarDecodes(p, rest);
        PairIsScalar(s[0], s[1]);
        FrontDecodes(ScalarUtf8(p), rest, p);
        assert s[..2] == [s[0], s[1]];
      } else {
        var rest := Utf8(s[1..]);
        Utf8Decodes(s[1..]);
        UnitDecodes(s[0], rest);
        FrontDecodes(UnitUtf8(s[0]), rest, if High(s[0]) || Low(s[0]) then 0x3F else s[0]);
      }
    }
  }

  lemma {:induction false} RepairedIffWellFormed(s: Text)
    ensures |Repaired(s)| == |s|
    ensures Repaired(s) == s <==> WellFormed(s)
  {
    if s != [] {
      if PairAt(s) {
        RepairedIffWellFormed(s[2..]);
        assert s == s[..2] + s[2..];
        assert Repaired(s)[2..] == Repaired(s[2..]);
      } else {
        RepairedIffWellFormed(s[1..]);
        assert s == [s[0]] + s[1..];
        assert Repaired(s)[1..] == Repaired(s[1..]);
      }
    }
  }

  // Encoding does not see the difference between a text and its repair.
  lemma {:induction false} Utf8Repaired(s: Text)
    ensures Utf8(Repaired(s)) == Utf8(s)
  {
    if s != [] {
      if PairAt(s) {
        Utf8Repaired(s[2..]);
        assert Repaired(s)[2..] == Repaired(s[2..]) && PairAt(Repaired(s));
      } else {
        Utf8Repaired(s[1..]);
        assert Repaired(s)[1..] == Repaired(s[1..]) && !PairAt(Repaired(s));
      }
    }
  }

  /** The encoding is invertible exactly on well-formed texts, and merges two texts exactly
      if they differ in unpaired surrogates only. */
  lemma Utf8Faithful(s: Text, t: Text)
    ensures FromUtf8(Utf8(s)) == Some(s) <==> WellFormed(s)
    ensures Utf8(s) == Utf8(t) <==> Repaired(s) == Repaired(t)
    ensures WellFormed(s) && WellFormed(t) && Utf8(s) == Utf8(t) ==> s == t
  {
    Utf8Decodes(s);
    Utf8Decodes(t);
    Utf8Repaired(s);
    Utf8Repaired(t);
    RepairedIffWellFormed(s);
    RepairedIffWellFormed(t);
  }

  lemma LoneSurrogateMerges()
    ensures Utf8([0xD800]) == Utf8([0x3F]) && [0xD800] != [0x3F]
  {
    assert Utf8([]) == [];
    var lone, mark: Text := [0xD800], [0x3F];
    assert lone[1..] == [] && mark[1..] == [] && !PairAt(lone);
    assert lone[0] != mark[0];
  }
}
