/** BigDecimal.toPlainString, the last step of deserializeNumber in AlternatorSerializer.java, and
    an independent reader for what it writes. */
module PlainNumber {
  import opened Options
  import opened Sequences
  import opened Text
  import opened Decimal
  import Arithmetic

  const MINUS: Unit := 0x2D
  const POINT: Unit := 0x2E
  const ZERO: Unit := 0x30

  predicate AllDigits(t: Text) { forall i :: 0 <= i < |t| ==> 0x30 <= t[i] <= 0x39 }

  // The decimal digits of a number.
  function DigitText(m: nat): (t: Text)
    ensures t != [] && AllDigits(t)
  {
    if m < 10 then [0x30 + m] else DigitText(m / 10) + [0x30 + m % 10]
  }

  function ZeroText(k: nat): (t: Text)
    ensures |t| == k && AllDigits(t)
  {
    if k == 0 then [] else ZeroText(k - 1) + [ZERO]
  }

  // The number that digits spell.
  function ReadDigits(t: Text): int {
    if t == [] then 0 else ReadDigits(t[..|t| - 1]) * 10 + (UnitValue(t[|t| - 1]) - 0x30)
  }

  function UnitValue(u: Unit): int { u }

  function Magnitude(u: int): nat { if u < 0 then -u else u }

  // How many zeros a scale below zero stands for.
  function Up(scale: int): nat { if scale < 0 then -scale else 0 }

  // The digits with the decimal point where the scale puts it.
  function Pointed(m: nat, scale: int): Text {
    var digits := DigitText(m);
    if scale == 0 then digits
    else if scale < 0 then (if m == 0 then [ZERO] else digits + ZeroText(Up(scale)))
    else if |digits| > scale then digits[..|digits| - scale] + [POINT] + digits[|digits| - scale..]
    else [ZERO, POINT] + (ZeroText(scale - |digits|) + digits)
  }

  // None stands for the ArithmeticException that the lowest scale raises: its negation is no int.
  function Plain(n: Number): Option<Text> {
    if n.unscaled != 0 && n.scale == MIN_SCALE then None
    else Some((if n.unscaled < 0 then [MINUS] else []) + Pointed(Magnitude(n.unscaled), n.scale))
  }

  // --- Reading ------------------------------------------------------------------------------

  // unscaled * 10^-places
  datatype Exact = Exact(unscaled: int, places: nat)

  function PointAt(t: Text): (i: nat)
    ensures i <= |t| && (i < |t| ==> t[i] == POINT) && forall j :: 0 <= j < i ==> t[j] != POINT
  {
    if t == [] || t[0] == POINT then 0 else 1 + PointAt(t[1..])
  }

  function ReadUnsigned(t: Text): Option<Exact> {
    var i := PointAt(t);
    var (whole, fraction) := (t[..i], if i < |t| then t[i + 1..] else []);
    if whole == [] || !AllDigits(whole) || !AllDigits(fraction) then None
    else Some(Exact(ReadDigits(whole + fraction), |fraction|))
  }

  // An optional sign, digits, and perhaps a point and more digits.
  function ReadPlain(t: Text): Option<Exact> {
    if t != [] && t[0] == MINUS then
      (match ReadUnsigned(t[1..]) case Some(e) => Some(Exact(-e.unscaled, e.places)) case None => None)
    else ReadUnsigned(t)
  }

  lemma {:induction false} DigitsRead(m: nat)
    ensures ReadDigits(DigitText(m)) == m
  {
    if m >= 10 {
      DigitsRead(m / 10);
      var t := DigitText(m);
      assert t[..|t| - 1] == DigitText(m / 10) && t[|t| - 1] == 0x30 + m % 10;
    }
  }

  lemma {:induction false} JoinedRead(a: Text, b: Text)
    ensures ReadDigits(a + b) == ReadDigits(a) * Pow10(|b|) + ReadDigits(b)
  {
    if b == [] {
      Nothing(a);
      assert Pow10(0) == 1;
    } else {
      var front, last := b[..|b| - 1], b[|b| - 1];
      JoinedRead(a, front);
      assert (a + b)[..|a + b| - 1] == a + front && (a + b)[|a + b| - 1] == last;
      TimesTen(ReadDigits(a), |front|);
    }
  }

  lemma {:induction false} ZerosRead(k: nat)
    ensures ReadDigits(ZeroText(k)) == 0
  {
    if k > 0 {
      ZerosRead(k - 1);
      var t := ZeroText(k);
      assert t[..|t| - 1] == ZeroText(k - 1) && t[|t| - 1] == ZERO;
    }
  }

  lemma {:induction false} NoPoint(t: Text)
    requires AllDigits(t)
    ensures PointAt(t) == |t|
  {
    if t != [] {
      NoPoint(t[1..]);
    }
  }

  lemma {:induction false} FirstPoint(a: Text, b: Text)
    requires AllDigits(a)
    ensures PointAt(a + [POINT] + b) == |a|
  {
    if a == [] {
      assert (a + [POINT] + b)[0] == POINT;
    } else {
      FirstPoint(a[1..], b);
      Uncons(a, [POINT] + b);
      Assoc(a, [POINT], b);
      Assoc(a[1..], [POINT], b);
    }
  }

  lemma DigitsReadBack(t: Text)
    requires t != [] && AllDigits(t)
    ensures ReadUnsigned(t) == Some(Exact(ReadDigits(t), 0))
  {
    NoPoint(t);
    assert t[..|t|] == t;
    Nothing(t);
  }

  lemma FractionReadsBack(a: Text, b: Text)
    requires a != [] && AllDigits(a) && AllDigits(b)
    ensures ReadUnsigned(a + [POINT] + b) == Some(Exact(ReadDigits(a + b), |b|))
  {
    FirstPoint(a, b);
    var t := a + [POINT] + b;
    assert t[..|a|] == a && t[|a| + 1..] == b;
  }

  lemma PointedReads(m: nat, scale: int)
    ensures ReadUnsigned(Pointed(m, scale)) ==
            Some(if scale > 0 then Exact(m, scale) else Exact(m * Pow10(Up(scale)), 0))
  {
    var digits := DigitText(m);
    DigitsRead(m);
    if scale == 0 {
      DigitsReadBack(digits);
      assert m * Pow10(0) == m;
    } else if scale < 0 {
      LargeReads(m, Up(scale));
    } else if |digits| > scale {
      InsideReads(digits[..|digits| - scale], digits[|digits| - scale..]);
      Sliced(digits, |digits| - scale);
    } else {
      SmallReads(digits, scale);
    }
  }

  lemma Sliced(t: Text, k: nat)
    requires k <= |t|
    ensures t[..k] + t[k..] == t
  {
  }

  lemma PointedIsUnsigned(m: nat, scale: int)
    ensures Pointed(m, scale) != [] && Pointed(m, scale)[0] != MINUS
  {
    var digits := DigitText(m);
    assert digits[0] >= ZERO;
  }

  lemma LargeReads(m: nat, k: nat)
    ensures ReadUnsigned(if m == 0 then [ZERO] else DigitText(m) + ZeroText(k)) == Some(Exact(m * Pow10(k), 0))
  {
    if m == 0 {
      ZeroIsZero();
      DigitsReadBack([ZERO]);
    } else {
      ZerosAppended(m, k);
      DigitsReadBack(DigitText(m) + ZeroText(k));
    }
  }

  lemma ZerosAppended(m: nat, k: nat)
    ensures ReadDigits(DigitText(m) + ZeroText(k)) == m * Pow10(k)
  {
    DigitsRead(m);
    JoinedRead(DigitText(m), ZeroText(k));
    ZerosRead(k);
  }

  lemma InsideReads(a: Text, b: Text)
    requires a != [] && AllDigits(a + b)
    ensures ReadUnsigned(a + [POINT] + b) == Some(Exact(ReadDigits(a + b), |b|))
  {
    PartsAreDigits(a, b);
    FractionReadsBack(a, b);
  }

  lemma PartsAreDigits(a: Text, b: Text)
    requires AllDigits(a + b)
    ensures AllDigits(a) && AllDigits(b)
  {
    forall i | 0 <= i < |a| ensures 0x30 <= a[i] <= 0x39 {
      assert (a + b)[i] == a[i];
    }
    forall i | 0 <= i < |b| ensures 0x30 <= b[i] <= 0x39 {
      assert (a + b)[|a| + i] == b[i];
    }
  }

  lemma SmallReads(digits: Text, scale: int)
    requires AllDigits(digits) && |digits| <= scale
    ensures ReadUnsigned([ZERO, POINT] + (ZeroText(scale - |digits|) + digits)) == Some(Exact(ReadDigits(digits), scale))
  {
    var zero: Text := [ZERO];
    var k := scale - |digits|;
    var b := ZeroText(k) + digits;
    FractionReadsBack(zero, b);
    LeadingZeros(zero, b);
    LeadingZeros(ZeroText(k), digits);
    ZerosRead(k);
    ZeroIsZero();
    assert zero + [POINT] == [ZERO, POINT];
  }

  lemma ZeroIsZero()
    ensures ReadDigits([ZERO]) == 0
  {
    var zero: Text := [ZERO];
    assert zero[..0] == [];
  }

  lemma LeadingZeros(zeros: Text, t: Text)
    ensures ReadDigits(zeros) == 0 ==> ReadDigits(zeros + t) == ReadDigits(t)
  {
    JoinedRead(zeros, t);
  }

  /** The plain text of a number is read as that number exactly: with as many places as its scale,
      or as a whole number if it has none. */
  lemma PlainReads(n: Number)
    requires Plain(n).Some?
    ensures ReadPlain(Plain(n).value) ==
            Some(if n.scale > 0 then Exact(n.unscaled, n.scale) else Exact(n.unscaled * Pow10(Up(n.scale)), 0))
  {
    var (m, t) := (Magnitude(n.unscaled), Pointed(Magnitude(n.unscaled), n.scale));
    PointedReads(m, n.scale);
    PointedIsUnsigned(m, n.scale);
    assert m * 1 == m && n.unscaled * 1 == n.unscaled;
    Signed(n.unscaled, t, if n.scale > 0 then 1 else Pow10(Up(n.scale)), if n.scale > 0 then n.scale else 0);
  }

  lemma Signed(u: int, t: Text, p: int, places: nat)
    requires t != [] && t[0] != MINUS && ReadUnsigned(t) == Some(Exact(Magnitude(u) * p, places))
    ensures ReadPlain((if u < 0 then [MINUS] else []) + t) == Some(Exact(u * p, places))
  {
    SignedReads(t);
    if u < 0 {
      Negated(u, p);
    } else {
      Nothing(t);
    }
  }

  lemma SignedReads(t: Text)
    requires t != [] && t[0] != MINUS && ReadUnsigned(t).Some?
    ensures ReadPlain(t) == ReadUnsigned(t)
    ensures ReadPlain([MINUS] + t) == Some(Exact(-ReadUnsigned(t).value.unscaled, ReadUnsigned(t).value.places))
  {
    assert ([MINUS] + t)[1..] == t;
  }

  lemma Negated(u: int, p: int)
    ensures -((-u) * p) == u * p
  {
  }

  // unscaled * 10^-scale is the same number for both.
  predicate SameExact(n: Number, e: Exact) {
    if n.scale > 0 then n.unscaled * Pow10(e.places) == e.unscaled * Pow10(n.scale)
    else n.unscaled * Pow10(Up(n.scale)) * Pow10(e.places) == e.unscaled
  }

  /** The text stands for the number itself. */
  lemma PlainHasTheValue(n: Number)
    requires Plain(n).Some?
    ensures ReadPlain(Plain(n).value).Some? && SameExact(n, ReadPlain(Plain(n).value).value)
  {
    PlainReads(n);
    assert Pow10(0) == 1;
  }

  // --- deserializeNumber ------------------------------------------------------------------------

  // The text that deserializeNumber returns; None stands for any of its exceptions.
  function DeserializedNumber(b: Bytes): Option<Text> {
    match Deserialize(b)
    case Value(n) => Plain(n)
    case _ => None
  }

  // The value of a text that was read is the value of the number.
  ghost predicate Spells(t: Text, n: Number) { ReadPlain(t).Some? && SameExact(n, ReadPlain(t).value) }

  lemma SameSpelled(a: Number, b: Number, e: Exact)
    requires Same(a, b) && SameExact(b, e) && a.scale >= b.scale
    ensures SameExact(a, e)
  {
    var k := a.scale - b.scale;
    assert a.unscaled == b.unscaled * Pow10(k);
    if b.scale > 0 {
      PowAdd(b.scale, k);
      Shuffle(b.unscaled, Pow10(k), Pow10(e.places), e.unscaled, Pow10(b.scale));
    } else if a.scale > 0 {
      PowAdd(Up(b.scale), a.scale);
      ShuffleWhole(b.unscaled, Pow10(Up(b.scale)), Pow10(a.scale), Pow10(e.places));
    } else {
      PowAdd(k, Up(a.scale));
      assert k + Up(a.scale) == Up(b.scale);
      ShuffleDown(b.unscaled, Pow10(k), Pow10(Up(a.scale)));
    }
  }

  lemma Shuffle(u: int, k: int, p: int, e: int, s: int)
    requires u * p == e * s
    ensures (u * k) * p == e * (s * k)
  {
    assert (u * k) * p == (u * p) * k;
    assert e * (s * k) == (e * s) * k;
  }

  lemma ShuffleWhole(u: int, m: int, s: int, p: int)
    ensures (u * (m * s)) * p == (u * m * p) * s
  {
    assert u * (m * s) == (u * m) * s;
    assert ((u * m) * s) * p == ((u * m) * p) * s;
  }

  lemma ShuffleDown(u: int, k: int, a: int)
    ensures (u * k) * a == u * (k * a)
  {
  }

  /** deserializeNumber inverts serializeNumber: it returns a text for the number that was written,
      exactly if the trailing zeros of the unscaled value leave the scale above the lowest one. */
  lemma NumberTextRoundTrip(n: Number)
    ensures DeserializedNumber(Payload(n)).Some? <==>
            (n.unscaled == 0 || n.unscaled % Pow10(n.scale - MIN_SCALE) != 0)
    ensures DeserializedNumber(Payload(n)).Some? ==> Spells(DeserializedNumber(Payload(n)).value, n)
  {
    PayloadReads(n);
    StripKeepsValue(n);
    if n.unscaled != 0 {
      StripByZeros(n.unscaled, n.scale);
      DividesByZeros(n.unscaled, n.scale - MIN_SCALE);
    }
    if DeserializedNumber(Payload(n)).Some? {
      var r := Strip(n).value;
      PlainHasTheValue(r);
      var e := ReadPlain(Plain(r).value).value;
      if n.unscaled == 0 {
        assert r == Number(0, 0) && e.unscaled == 0;
      } else {
        SameSpelled(n, r, e);
      }
    }
  }

  lemma OneText(a: Number, b: Number)
    requires Canonical(a) && Canonical(b) && Plain(a).Some? && Plain(a) == Plain(b)
    ensures a == b
  {
    PlainReads(a);
    PlainReads(b);
    if a.unscaled == 0 || b.unscaled == 0 {
      NonzeroProduct(a.unscaled, a.scale);
      NonzeroProduct(b.unscaled, b.scale);
    } else if a.scale <= 0 && b.scale <= 0 {
      ZerosOf(a.unscaled, Up(a.scale));
      ZerosOf(b.unscaled, Up(b.scale));
    } else {
      assert a.scale > 0 && b.scale > 0;
    }
  }

  lemma NonzeroProduct(u: int, scale: int)
    requires scale <= 0
    ensures u * Pow10(Up(scale)) == 0 <==> u == 0
  {
    if u != 0 {
      Arithmetic.AtLeast(u, Pow10(Up(scale)));
    }
  }

  /** Two payloads are read as the same text exactly if their numbers are equal. */
  lemma SameTextIffSame(a: Number, b: Number)
    requires DeserializedNumber(Payload(a)).Some?
    ensures DeserializedNumber(Payload(a)) == DeserializedNumber(Payload(b)) <==> Same(a, b)
  {
    PayloadReads(a);
    PayloadReads(b);
    StripKeepsValue(a);
    StripKeepsValue(b);
    StripDecides(a, b);
    if DeserializedNumber(Payload(a)) == DeserializedNumber(Payload(b)) {
      OneText(Strip(a).value, Strip(b).value);
    }
  }
}
