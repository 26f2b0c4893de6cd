/** The CQL decimal format as AlternatorSerializer.java reads and writes it: a 32-bit scale and
    a two's complement unscaled value. A BigDecimal is its unscaled value and its scale. */
module Decimal {
  import opened Options
  import opened Text
  import opened Arithmetic

  const MIN_SCALE: int := -0x8000_0000
  const MAX_SCALE: int := 0x7FFF_FFFF

  type Scale = s: int | MIN_SCALE <= s <= MAX_SCALE

  datatype Number = Number(unscaled: int, scale: Scale)

  function Signed(b: Byte): int { if b < 128 then b else b - 256 }

  // BigInteger.toByteArray: two's complement, the high byte first.
  function ToBytes(n: int): (b: Bytes)
    ensures b != []
    decreases if n < 0 then -n else n
  {
    if -128 <= n < 128 then [n % 256] else ToBytes(n / 256) + [n % 256]
  }

  // new BigInteger(bytes)
  function FromBytes(b: Bytes): int
    requires b != []
  {
    if |b| == 1 then Signed(b[0]) else FromBytes(b[..|b| - 1]) * 256 + b[|b| - 1]
  }

  // The four bytes that the shifts of a 32-bit int leave.
  function ScaleBytes(s: Scale): (b: Bytes)
    ensures |b| == 4
  {
    [Octet(s, 0x100_0000), Octet(s, 0x1_0000), Octet(s, 0x100), Octet(s, 1)]
  }

  // A shift right and the cast to a byte, read without its sign.
  function Octet(x: int, unit: int): Byte
    requires unit > 0
  {
    x / unit % 0x100
  }

  function ScaleOf(b: Bytes): Scale
    requires |b| == 4
  {
    var u := Num(b[0]) * 0x100_0000 + Num(b[1]) * 0x1_0000 + Num(b[2]) * 0x100 + Num(b[3]);
    if u < 0x8000_0000 then u else u - 0x1_0000_0000
  }

  lemma {:induction false} BytesRoundTrip(n: int)
    ensures FromBytes(ToBytes(n)) == n
    decreases if n < 0 then -n else n
  {
    if !(-128 <= n < 128) {
      BytesRoundTrip(n / 256);
      assert (ToBytes(n / 256) + [n % 256])[..|ToBytes(n)| - 1] == ToBytes(n / 256);
    }
  }

  /** No other byte array for the same number is shorter. */
  lemma {:induction false} BytesMinimal(b: Bytes)
    requires b != []
    ensures |ToBytes(FromBytes(b))| <= |b|
    decreases |b|
  {
    var n := FromBytes(b);
    if !(-128 <= n < 128) {
      BytesMinimal(b[..|b| - 1]);
      assert n / 256 == FromBytes(b[..|b| - 1]);
    }
  }

  lemma ScaleRoundTrip(s: Scale)
    ensures ScaleOf(ScaleBytes(s)) == s
  {
    var q1, q2, q3 := s / 0x100, s / 0x1_0000, s / 0x100_0000;
    assert q2 == q1 / 0x100 && q3 == q2 / 0x100;
    assert s == q1 * 0x100 + Octet(s, 1);
    assert q1 == q2 * 0x100 + Octet(s, 0x100);
    assert q2 == q3 * 0x100 + Octet(s, 0x1_0000);
    assert Octet(s, 0x100_0000) == if q3 < 0 then q3 + 0x100 else q3;
  }

  // --- Numeric value -----------------------------------------------------------------------

  function Pow10(k: nat): (p: int)
    ensures p >= 1
  {
    if k == 0 then 1 else 10 * Pow10(k - 1)
  }

  // unscaled * 10^-scale is the same number for both.
  predicate Same(a: Number, b: Number) {
    if a.scale <= b.scale then a.unscaled * Pow10(b.scale - a.scale) == b.unscaled
    else a.unscaled == b.unscaled * Pow10(a.scale - b.scale)
  }

  // BigDecimal.stripTrailingZeros; None stands for the ArithmeticException it raises when the
  // scale would leave the int range.
  function Strip(n: Number): Option<Number> {
    if n.unscaled == 0 then Some(Number(0, 0)) else StripNonzero(n.unscaled, n.scale)
  }

  function StripNonzero(u: int, s: Scale): Option<Number>
    requires u != 0
    decreases if u < 0 then -u else u
  {
    if u % 10 != 0 then Some(Number(u, s))
    else if s == MIN_SCALE then None
    else StripNonzero(u / 10, s - 1)
  }

  predicate Canonical(n: Number) {
    if n.unscaled == 0 then n.scale == 0 else n.unscaled % 10 != 0
  }

  // The number of zeros that end the decimal digits of `u`.
  function Zeros(u: int): nat
    requires u != 0
    decreases if u < 0 then -u else u
  {
    if u % 10 != 0 then 0 else 1 + Zeros(u / 10)
  }

  function Digits(u: int): int
    requires u != 0
    decreases if u < 0 then -u else u
  {
    if u % 10 != 0 then u else Digits(u / 10)
  }

  lemma TimesTen(d: int, k: nat)
    ensures d * Pow10(k + 1) == 10 * (d * Pow10(k))
  {
  }

  lemma Times(d: int, j: nat, k: nat)
    ensures (d * Pow10(j)) * Pow10(k) == d * Pow10(j + k)
  {
    PowAdd(j, k);
  }

  lemma {:induction false} ZerosAndDigits(u: int)
    requires u != 0
    ensures u == Digits(u) * Pow10(Zeros(u)) && Digits(u) % 10 != 0
    decreases if u < 0 then -u else u
  {
    if u % 10 == 0 {
      ZerosAndDigits(u / 10);
      TimesTen(Digits(u), Zeros(u / 10));
    }
  }

  // The zeros and digits are determined by the product.
  lemma {:induction false} ZerosOf(d: int, k: nat)
    requires d % 10 != 0
    ensures d * Pow10(k) != 0 && Zeros(d * Pow10(k)) == k && Digits(d * Pow10(k)) == d
  {
    if k > 0 {
      ZerosOf(d, k - 1);
      TimesTen(d, k - 1);
    }
  }

  lemma {:induction false} StripByZeros(u: int, s: Scale)
    requires u != 0
    ensures StripNonzero(u, s) ==
            if s - Zeros(u) >= MIN_SCALE then Some(Number(Digits(u), s - Zeros(u))) else None
    decreases if u < 0 then -u else u
  {
    if u % 10 == 0 && s > MIN_SCALE {
      StripByZeros(u / 10, s - 1);
    }
  }

  lemma {:induction false} PowAdd(j: nat, k: nat)
    ensures Pow10(j + k) == Pow10(j) * Pow10(k)
  {
    if j > 0 {
      PowAdd(j - 1, k);
      assert Pow10(j + k) == 10 * (Pow10(j - 1) * Pow10(k));
    }
  }

  // Two nonzero numbers are the same exactly if their digits are and their last digits stand
  // at the same place.
  lemma SameByDigits(a: Number, b: Number)
    requires a.unscaled != 0 && b.unscaled != 0 && a.scale <= b.scale
    ensures Same(a, b) <==>
            Digits(a.unscaled) == Digits(b.unscaled) && a.scale - Zeros(a.unscaled) == b.scale - Zeros(b.unscaled)
  {
    var k := b.scale - a.scale;
    var (d, z) := (Digits(a.unscaled), Zeros(a.unscaled));
    ZerosAndDigits(a.unscaled);
    ZerosAndDigits(b.unscaled);
    Times(d, z, k);
    ZerosOf(d, z + k);
  }

  lemma SameSym(a: Number, b: Number)
    ensures Same(a, b) == Same(b, a)
  {
  }

  lemma SameIffStripped(a: Number, b: Number)
    requires a.scale <= b.scale
    ensures Same(a, b) ==> Strip(a) == Strip(b)
    ensures Strip(a).Some? && Strip(a) == Strip(b) ==> Same(a, b)
  {
    var p := Pow10(b.scale - a.scale);
    if a.unscaled == 0 || b.unscaled == 0 {
      assert a.unscaled == 0 ==> a.unscaled * p == 0;
      assert a.unscaled * p == 0 ==> a.unscaled == 0;
      if a.unscaled != 0 { StripByZeros(a.unscaled, a.scale); ZerosAndDigits(a.unscaled); }
      if b.unscaled != 0 { StripByZeros(b.unscaled, b.scale); ZerosAndDigits(b.unscaled); }
    } else {
      SameByDigits(a, b);
      StripByZeros(a.unscaled, a.scale);
      StripByZeros(b.unscaled, b.scale);
    }
  }

  /** Stripping finds the one canonical form of a number: two numbers are numerically equal
      exactly if they strip to the same result. */
  lemma StripDecides(a: Number, b: Number)
    requires Strip(a).Some?
    ensures Same(a, b) <==> Strip(a) == Strip(b)
  {
    if a.scale <= b.scale { SameIffStripped(a, b); }
    else { SameIffStripped(b, a); SameSym(a, b); }
  }

  /** Stripping keeps the value, and fails exactly if the unscaled value ends in more zeros than
      the scale can still be lowered by. */
  lemma StripKeepsValue(n: Number)
    ensures Strip(n).Some? ==> Same(n, Strip(n).value) && Canonical(Strip(n).value)
    ensures Strip(n).Some? <==> (n.unscaled == 0 || n.unscaled % Pow10(n.scale - MIN_SCALE + 1) != 0)
  {
    if n.unscaled != 0 {
      var u, k := n.unscaled, n.scale - MIN_SCALE + 1;
      StripByZeros(u, n.scale);
      ZerosAndDigits(u);
      DividesByZeros(u, k);
      if Strip(n).Some? {
        var r := Strip(n).value;
        StripCanonical(r);
        StripDecides(n, r);
      }
    }
  }

  lemma StripCanonical(n: Number)
    requires Canonical(n)
    ensures Strip(n) == Some(n)
  {
  }

  lemma DividesByZeros(u: int, k: nat)
    requires u != 0
    ensures u % Pow10(k) == 0 <==> Zeros(u) >= k
  {
    var z := Zeros(u);
    ZerosAndDigits(u);
    if z >= k {
      Times(Digits(u), z - k, k);
      MultipleMod(Digits(u) * Pow10(z - k), Pow10(k));
    } else if u % Pow10(k) == 0 {
      var q := u / Pow10(k);
      Quotient(u, Pow10(k));
      ZerosAndDigits(q);
      Times(Digits(q), Zeros(q), k);
      ZerosOf(Digits(q), Zeros(q) + k);
    }
  }

  lemma Quotient(u: int, p: int)
    requires p > 0 && u != 0 && u % p == 0
    ensures u / p != 0 && u == u / p * p
  {
  }

  lemma MultipleMod(m: int, p: int)
    requires p > 0
    ensures m * p % p == 0
  {
    Division(m * p, p, m, 0);
  }

  // --- The payload -------------------------------------------------------------------------

  datatype Read = Value(n: Number) | Underflow | NoDigits | Overflow

  // What serializeNumber writes after its tag.
  function Payload(n: Number): Bytes { ScaleBytes(n.scale) + ToBytes(n.unscaled) }

  // deserializeNumber, up to toPlainString: a short buffer, a missing unscaled value and a
  // scale that cannot be lowered any more are its exceptions.
  function Deserialize(b: Bytes): Read {
    if |b| < 4 then Underflow
    else if |b| == 4 then NoDigits
    else match Strip(Number(FromBytes(b[4..]), ScaleOf(b[..4])))
      case Some(n) => Value(n)
      case None => Overflow
  }

  lemma PayloadReads(n: Number)
    ensures Deserialize(Payload(n)) == match Strip(n) case Some(r) => Value(r) case None => Overflow
  {
    ScaleRoundTrip(n.scale);
    BytesRoundTrip(n.unscaled);
    assert Payload(n)[..4] == ScaleBytes(n.scale);
    assert Payload(n)[4..] == ToBytes(n.unscaled);
  }

  /** What is read back has the value that was written, for every number whose zeros leave the
      scale in range; otherwise reading fails. */
  lemma NumberRoundTrip(n: Number)
    ensures Deserialize(Payload(n)).Value? <==>
            (n.unscaled == 0 || n.unscaled % Pow10(n.scale - MIN_SCALE + 1) != 0)
    ensures Deserialize(Payload(n)).Value? ==>
            Same(n, Deserialize(Payload(n)).n) && Canonical(Deserialize(Payload(n)).n)
    ensures !Deserialize(Payload(n)).Value? ==> Deserialize(Payload(n)) == Overflow
  {
    PayloadReads(n);
    StripKeepsValue(n);
  }

  /** Two payloads are read as the same result exactly if their numbers are equal. */
  lemma SameReadIffSame(a: Number, b: Number)
    requires Deserialize(Payload(a)).Value?
    ensures Deserialize(Payload(a)) == Deserialize(Payload(b)) <==> Same(a, b)
    ensures Payload(a) == Payload(b) <==> a == b
  {
    PayloadReads(a);
    PayloadReads(b);
    StripDecides(a, b);
    PayloadFaithful(a, b);
  }

  lemma PayloadFaithful(a: Number, b: Number)
    ensures Payload(a) == Payload(b) <==> a == b
  {
    if Payload(a) == Payload(b) {
      ScaleRoundTrip(a.scale);
      ScaleRoundTrip(b.scale);
      BytesRoundTrip(a.unscaled);
      BytesRoundTrip(b.unscaled);
      assert Payload(a)[..4] == ScaleBytes(a.scale) && Payload(b)[..4] == ScaleBytes(b.scale);
      assert Payload(a)[4..] == ToBytes(a.unscaled) && Payload(b)[4..] == ToBytes(b.unscaled);
    }
  }

  /** A decimal whose scale cannot be lowered far enough is written but cannot be read. */
  lemma LowestScaleOverflows()
    ensures Deserialize(Payload(Number(10, MIN_SCALE))) == Overflow
  {
    PayloadReads(Number(10, MIN_SCALE));
  }
}
