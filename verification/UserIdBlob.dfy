/** The older numeric blobs: the two numeric overloads of encodeAlternatorBlob in
    AlternatorUserIdLoader.java and the pair in encode_alternator.py, against the decimal
    format of AlternatorSerializer.java. */
module UserIdBlob {
  import opened Options
  import opened Text
  import opened Arithmetic
  import opened Sequences
  import Decimal

  const B6: int := 0x1_0000_0000_0000
  const B7: int := 0x100_0000_0000_0000

  type Int32 = v: int | -0x8000_0000 <= v < 0x8000_0000
  type Int64 = v: int | -0x8000_0000_0000_0000 <= v < 0x8000_0000_0000_0000

  // (byte) ((v >> (8 * i)) & 0xff)
  function ByteAt(v: int, i: nat): Byte { Decimal.Octet(v, Pow256(i)) }

  // The low `k` bytes, the highest first.
  function LowBytes(v: int, k: nat): (b: Bytes)
    ensures |b| == k
  {
    if k == 0 then [] else [ByteAt(v, k - 1)] + LowBytes(v, k - 1)
  }

  function Blob(v: int): Bytes { [0x03, 0x00, 0x00, 0x00] + LowBytes(v, 7) }

  // --- Java ---------------------------------------------------------------------------------

  method FillBlob(v: int) returns (result: array<Byte>)
    ensures fresh(result) && result[..] == Blob(v)
  {
    var numBytes := new Byte[7];
    for i := 0 to 7
      invariant forall j :: 0 <= j < i ==> numBytes[j] == ByteAt(v, j)
    {
      numBytes[i] := ByteAt(v, i);
    }
    var driverExpected := new Byte[7];
    for i := 0 to 7
      invariant forall j :: 0 <= j < 7 ==> numBytes[j] == ByteAt(v, j)
      invariant forall j :: 0 <= j < i ==> driverExpected[j] == ByteAt(v, 6 - j)
    {
      driverExpected[i] := numBytes[6 - i];
    }
    result := new Byte[11];
    result[0], result[1], result[2], result[3] := 0x03, 0x00, 0x00, 0x00;
    forall i | 0 <= i < 7 { result[4 + i] := driverExpected[i]; }
    LowBytesAt(v, 7);
    assert result[..4] == [0x03, 0x00, 0x00, 0x00];
    assert result[4..] == LowBytes(v, 7);
    assert result[..] == result[..4] + result[4..];
  }

  lemma {:induction false} LowBytesAt(v: int, k: nat)
    ensures forall j :: 0 <= j < k ==> LowBytes(v, k)[j] == ByteAt(v, k - 1 - j)
  {
    if k > 0 {
      LowBytesAt(v, k - 1);
    }
  }

  method EncodeInt(value: Int32) returns (result: array<Byte>)
    ensures fresh(result) && result[..] == Blob(value % 0x1_0000_0000)
  {
    result := FillBlob(value % 0x1_0000_0000);
  }

  method EncodeLong(value: Int64) returns (result: array<Byte>)
    ensures fresh(result) && result[..] == Blob(value)
  {
    result := FillBlob(value);
  }

  // --- Python -------------------------------------------------------------------------------

  // int.from_bytes(b, 'big')
  function Unsigned(b: Bytes): (n: int)
    ensures 0 <= n
  {
    if b == [] then 0 else Unsigned(b[..|b| - 1]) * 0x100 + Num(b[|b| - 1])
  }

  // encode_alternator_blob of an int; None stands for the OverflowError of to_bytes.
  function PythonEncode(v: int): Option<Bytes> {
    if 0 <= v < B7 then Some(Blob(v)) else None
  }

  // decode_alternator_blob of a blob that does not start like a string.
  function PythonDecode(b: Bytes): Option<int> {
    if b == [] || b[0] != 0x03 then None
    else Some(Unsigned(if |b| < 4 then [] else if |b| < 11 then b[4..] else b[4..11]))
  }

  // --- What the bytes hold --------------------------------------------------------------------

  lemma {:induction false} UnsignedCons(x: Byte, b: Bytes)
    ensures Unsigned([x] + b) == x * Pow256(|b|) + Unsigned(b)
  {
    if b == [] {
      assert ([x] + b)[..0] == [];
    } else {
      var front := b[..|b| - 1];
      UnsignedCons(x, front);
      assert ([x] + b)[..|b|] == [x] + front;
      assert 0x100 * (x * Pow256(|front|)) == x * Pow256(|b|);
    }
  }

  lemma {:induction false} UnsignedBound(b: Bytes)
    ensures Unsigned(b) < Pow256(|b|)
  {
    if b != [] {
      UnsignedBound(b[..|b| - 1]);
    }
  }

  lemma Spread(c: int, d: int, p: int)
    ensures (c * 0x100 + d) * p == c * (0x100 * p) + d * p
  {
  }

  lemma ByteOf(v: int, p: int)
    requires p > 0
    ensures v % (0x100 * p) == v / p % 0x100 * p + v % p
  {
    var (q, r) := (v / p, v % p);
    var (c, d) := (q / 0x100, q % 0x100);
    Spread(c, d, p);
    AtMost(0, d, p);
    AtMost(d, 0xFF, p);
    Division(v, 0x100 * p, c, d * p + r);
  }

  lemma {:induction false} LowBytesUnsigned(v: int, k: nat)
    ensures Unsigned(LowBytes(v, k)) == v % Pow256(k)
  {
    if k > 0 {
      LowBytesUnsigned(v, k - 1);
      UnsignedCons(ByteAt(v, k - 1), LowBytes(v, k - 1));
      ByteOf(v, Pow256(k - 1));
    }
  }

  lemma Powers()
    ensures Pow256(6) == B6 && Pow256(7) == B7
  {
    assert Pow256(3) == 0x100_0000;
    assert Pow256(6) == B6;
  }

  // Read as two's complement, bytes differ from what they are unsigned by the weight of the sign.
  lemma {:induction false} FromUnsigned(b: Bytes)
    requires b != []
    ensures Decimal.FromBytes(b) == Unsigned(b) - (if b[0] < 0x80 then 0 else Pow256(|b|))
  {
    if |b| > 1 {
      FromUnsigned(b[..|b| - 1]);
    } else {
      assert b[..0] == [];
      assert Pow256(1) == 0x100;
    }
  }

  lemma TopBit(b: Bytes)
    requires b != []
    ensures b[0] < 0x80 <==> 2 * Unsigned(b) < Pow256(|b|)
  {
    var p := Pow256(|b| - 1);
    UnsignedCons(b[0], b[1..]);
    UnsignedBound(b[1..]);
    assert [b[0]] + b[1..] == b;
    if b[0] < 0x80 { AtMost(b[0], 0x7F, p); } else { AtMost(0x80, b[0], p); }
  }

  // The low 48 bits as a signed number.
  function Signed48(v: int): int {
    var low := v % B6;
    if low < B6 / 2 then low else low - B6
  }

  // The decimal decoder takes the high byte for the scale and the other six for the number.
  function AsDecimal(v: int): Decimal.Number { Decimal.Number(Signed48(v), v % B7 / B6) }

  lemma BlobIsDecimal(v: int)
    ensures Decimal.Deserialize(Blob(v)[1..]) ==
            match Decimal.Strip(AsDecimal(v)) case Some(n) => Decimal.Value(n) case None => Decimal.Overflow
  {
    var b := Blob(v)[1..];
    var high, low := ByteAt(v, 6), LowBytes(v, 6);
    assert LowBytes(v, 7) == [high] + low;
    assert b[..4] == [0, 0, 0, high] && b[4..] == low;
    Powers();
    LowBytesUnsigned(v, 6);
    FromUnsigned(low);
    TopBit(low);
    ByteOf(v, B6);
    Division(v % B7, B6, high, v % B6);
  }

  // --- Where the codecs agree ---------------------------------------------------------------

  lemma {:induction false} BigPower(k: nat)
    requires k >= 15
    ensures Decimal.Pow10(k) >= 1_000_000_000_000_000
  {
    if k == 15 {
      assert Decimal.Pow10(5) == 100_000;
      assert Decimal.Pow10(10) == 10_000_000_000;
    } else {
      BigPower(k - 1);
    }
  }

  lemma SmallHasNoScale(v: int)
    requires -B6 / 2 <= v < B6 / 2
    ensures v % B7 / B6 == (if v >= 0 then 0 else 0xFF)
  {
  }

  lemma ScaledIsLarger(v: int, k: nat, u: int)
    requires u == v * Decimal.Pow10(k)
    ensures v >= 0 ==> 0 <= v <= u
    ensures v <= 0 ==> u <= v <= 0
    ensures v < 0 && k >= 15 ==> u <= -1_000_000_000_000_000
  {
    var p := Decimal.Pow10(k);
    if v > 0 {
      Scale(v, p);
    } else if v < 0 {
      Scale(-v, p);
      assert (-v) * p == -(v * p);
      if k >= 15 {
        BigPower(k);
      }
    }
  }

  lemma Scale(v: int, p: int)
    requires v > 0 && p > 0
    ensures v * p >= v && v * p >= p
  {
    AtMost(1, p, v);
    AtMost(1, v, p);
  }

  lemma AsDecimalSame(v: int)
    requires -B7 * 0x80 <= v < B7 * 0x80
    ensures Decimal.Same(AsDecimal(v), Decimal.Number(v, 0)) <==> 0 <= v < B6 / 2
  {
    var n := AsDecimal(v);
    var k := n.scale;
    if 0 <= v < B6 / 2 {
      SmallHasNoScale(v);
      assert Decimal.Pow10(0) == 1;
    }
    if Decimal.Same(n, Decimal.Number(v, 0)) {
      assert Decimal.Pow10(0) == 1;
      assert n.unscaled == v * Decimal.Pow10(k);
      ScaledIsLarger(v, k, n.unscaled);
      assert -B6 / 2 <= v < B6 / 2;
      SmallHasNoScale(v);
    }
  }

  /** The blob of a 64-bit number is read by the decimal decoder as that number, which is also
      how the number that AlternatorSerializer writes is read, exactly if it is below 2 to the
      47th and not negative. */
  lemma LongReadsIff(v: Int64)
    ensures Decimal.Deserialize(Blob(v)[1..]).Value?
    ensures Decimal.Same(Decimal.Deserialize(Blob(v)[1..]).n, Decimal.Number(v, 0)) <==> 0 <= v < 0x8000_0000_0000
    ensures Decimal.Deserialize(Blob(v)[1..]) == Decimal.Deserialize(Decimal.Payload(Decimal.Number(v, 0)))
            <==> 0 <= v < 0x8000_0000_0000
  {
    var (n, m) := (AsDecimal(v), Decimal.Number(v, 0));
    BlobIsDecimal(v);
    Decimal.PayloadReads(m);
    NaturalStrips(n);
    NaturalStrips(m);
    Decimal.StripDecides(n, m);
    AsDecimalSame(v);
    Decimal.StripKeepsValue(n);
    var r := Decimal.Strip(n).value;
    Decimal.StripCanonical(r);
    Decimal.StripDecides(r, m);
  }

  // A scale that is not negative can always be lowered far enough, as far as 64 bits go.
  lemma NaturalStrips(n: Decimal.Number)
    requires n.scale >= 0 && -B7 * 0x80 <= n.unscaled < B7 * 0x80
    ensures Decimal.Strip(n).Some?
  {
    if n.unscaled != 0 {
      Decimal.StripByZeros(n.unscaled, n.scale);
      FewZeros(n.unscaled);
    }
  }

  lemma FewZeros(u: int)
    requires u != 0 && -B7 * 0x80 <= u < B7 * 0x80
    ensures Decimal.Zeros(u) < 100
  {
    Decimal.ZerosAndDigits(u);
    var z := Decimal.Zeros(u);
    if z >= 100 {
      TooLarge(z);
      AtLeast(Decimal.Digits(u), Decimal.Pow10(z));
    }
  }

  lemma TooLarge(z: nat)
    requires z >= 100
    ensures Decimal.Pow10(z) >= 1_000_000_000_000_000_000_000_000_000_000
  {
    var (p, q) := (Decimal.Pow10(50), Decimal.Pow10(z - 50));
    Decimal.PowAdd(50, z - 50);
    BigPower(50);
    BigPower(z - 50);
    AtMost(1_000_000_000_000_000, p, q);
  }

  /** From 2 to the 47th the sign flips. */
  lemma SignFlips(v: int)
    requires B6 / 2 <= v < B6
    ensures AsDecimal(v) == Decimal.Number(v - B6, 0)
  {
  }

  /** The int overload takes the number without its sign, so a negative one is lost. */
  lemma IntReadsIff(v: Int32)
    ensures Decimal.Deserialize(Blob(v % 0x1_0000_0000)[1..]).Value?
    ensures Decimal.Same(Decimal.Deserialize(Blob(v % 0x1_0000_0000)[1..]).n, Decimal.Number(v, 0)) <==> v >= 0
  {
    var w := v % 0x1_0000_0000;
    LongReadsIff(w);
    WithoutSign(v, w, Decimal.Deserialize(Blob(w)[1..]).n);
  }

  lemma WithoutSign(v: Int32, w: int, r: Decimal.Number)
    requires w == v % 0x1_0000_0000 && Decimal.Same(r, Decimal.Number(w, 0))
    ensures Decimal.Same(r, Decimal.Number(v, 0)) <==> v >= 0
  {
    if v < 0 && Decimal.Same(r, Decimal.Number(v, 0)) {
      OneNumber(r, w, v);
    }
  }

  lemma OneNumber(r: Decimal.Number, w: int, v: int)
    requires -B7 * 0x80 <= w < B7 * 0x80 && -B7 * 0x80 <= v < B7 * 0x80
    requires Decimal.Same(r, Decimal.Number(w, 0)) && Decimal.Same(r, Decimal.Number(v, 0))
    ensures w == v
  {
    var (a, b) := (Decimal.Number(w, 0), Decimal.Number(v, 0));
    NaturalStrips(a);
    NaturalStrips(b);
    Decimal.SameSym(r, a);
    Decimal.SameSym(r, b);
    Decimal.StripDecides(a, r);
    Decimal.StripDecides(b, r);
    Decimal.StripDecides(a, b);
    assert Decimal.Pow10(0) == 1;
  }

  /** The Python decoder inverts the Python encoder wherever that encodes, and takes a Java blob
      for the number modulo 2 to the 56th. */
  lemma PythonRoundTrip(v: int)
    ensures PythonEncode(v).Some? <==> 0 <= v < 0x100_0000_0000_0000
    ensures PythonEncode(v).Some? ==> PythonDecode(PythonEncode(v).value) == Some(v)
    ensures PythonDecode(Blob(v)) == Some(v % B7)
  {
    BlobDigits(v);
    LowBytesUnsigned(v, 7);
    Powers();
  }

  lemma BlobDigits(v: int)
    ensures PythonDecode(Blob(v)) == Some(Unsigned(LowBytes(v, 7)))
  {
    assert Blob(v)[4..11] == LowBytes(v, 7);
  }

  lemma {:induction false} NaturalBytes(v: int)
    requires v >= 0
    ensures Decimal.ToBytes(v)[0] < 0x80
  {
    if v >= 128 {
      NaturalBytes(v / 256);
    }
  }

  lemma UnsignedPrefix(b: Bytes)
    requires b != [] && b[0] < 0x80
    ensures 2 * Unsigned(b) < Pow256(|b|)
  {
    TopBit(b);
  }

  lemma {:induction false} Longest(b: Bytes)
    requires b != [] && |b| <= 6
    ensures -B6 / 2 <= Decimal.FromBytes(b) < B6 / 2
  {
    FromUnsigned(b);
    TopBit(b);
    UnsignedBound(b);
    PowerUpTo(|b|);
  }

  lemma {:induction false} PowerUpTo(k: nat)
    requires k <= 6
    ensures Pow256(k) <= B6
    decreases 6 - k
  {
    Powers();
    if k < 6 {
      PowerUpTo(k + 1);
    }
  }

  lemma Shortest(v: int)
    requires 0 <= v < B6 / 2
    ensures |Decimal.ToBytes(v)| <= 6
  {
    var b := LowBytes(v, 6);
    LowBytesUnsigned(v, 6);
    Powers();
    FromUnsigned(b);
    TopBit(b);
    assert v % B6 == v;
    Decimal.BytesMinimal(b);
  }

  lemma PayloadDigits(v: int, digits: Bytes, kept: Bytes)
    requires digits == Decimal.ToBytes(v) && kept == if |digits| <= 6 then digits else digits[..6]
    ensures PythonDecode([0x03] + Decimal.Payload(Decimal.Number(v, 0))) == Some(Unsigned([0] + kept))
  {
    var b := [0x03] + Decimal.Payload(Decimal.Number(v, 0));
    assert Decimal.ScaleBytes(0) == [0, 0, 0, 0];
    var tag, zeros: Bytes := [0x03], [0, 0, 0, 0];
    Assoc(tag, zeros, digits);
    assert tag + zeros == [0x03, 0, 0, 0, 0];
    assert (if |b| < 11 then b[4..] else b[4..11]) == [0] + kept;
  }

  /** The Python decoder reads what AlternatorSerializer writes for a whole number as that number
      on the same range. */
  lemma PythonReadsDecimalIff(v: int)
    ensures PythonDecode([0x03] + Decimal.Payload(Decimal.Number(v, 0))) == Some(v) <==> 0 <= v < 0x8000_0000_0000
  {
    var digits := Decimal.ToBytes(v);
    var kept := if |digits| <= 6 then digits else digits[..6];
    PayloadDigits(v, digits, kept);
    UnsignedCons(0, kept);
    Decimal.BytesRoundTrip(v);
    if v >= 0 {
      NaturalBytes(v);
      FromUnsigned(digits);
      if v < B6 / 2 {
        Shortest(v);
      } else if |digits| <= 6 {
        Longest(digits);
      } else {
        UnsignedPrefix(kept);
        Powers();
      }
    }
  }
}
