/** derTlv and wrapPkcs1InPkcs8 of ScyllaLoader.java, against the distinguished encoding rules
    (sections 8.1.3 and 10.1 of X.690) and PrivateKeyInfo (section 5 of RFC 5208). */
module Der {
  import opened Options
  import opened Text
  import opened Sequences
  import opened Arithmetic

  const MAX_INT: int := 0x7FFF_FFFF

  // --- Numbers as octets ------------------------------------------------------------------------

  // The value of octets, the highest first.
  function Value(b: Bytes): (n: int)
    ensures n >= 0
  {
    if b == [] then 0 else Value(b[..|b| - 1]) * 0x100 + Num(b[|b| - 1])
  }

  // The octets of a number without leading zeros.
  function Octets(n: nat): (b: Bytes)
    ensures n > 0 ==> b != []
  {
    if n == 0 then [] else Octets(n / 0x100) + [n % 0x100]
  }

  lemma {:induction false} OctetsValue(n: nat)
    ensures Value(Octets(n)) == n
    ensures n > 0 ==> Octets(n)[0] != 0
  {
    if n > 0 {
      OctetsValue(n / 0x100);
      var b := Octets(n);
      assert b[..|b| - 1] == Octets(n / 0x100) && b[|b| - 1] == n % 0x100;
      if n / 0x100 == 0 {
        assert Octets(n / 0x100) == [];
      }
    }
  }

  // Octets that do not begin with a zero are the only such for their value.
  lemma {:induction false} OctetsUnique(b: Bytes)
    requires b != [] ==> b[0] != 0
    ensures Octets(Value(b)) == b
    decreases |b|
  {
    if b != [] {
      var front := b[..|b| - 1];
      PositiveValue(b);
      OctetsUnique(front);
      ValueSplits(b);
      Unsnoc(b);
    }
  }

  lemma ValueSplits(b: Bytes)
    requires b != []
    ensures Value(b) / 0x100 == Value(b[..|b| - 1]) && Value(b) % 0x100 == b[|b| - 1]
  {
  }

  lemma {:induction false} PositiveValue(b: Bytes)
    requires b != [] && b[0] != 0
    ensures Value(b) > 0
    decreases |b|
  {
    if |b| > 1 {
      PositiveValue(b[..|b| - 1]);
    }
  }

  /** No octets for a number are fewer than those without leading zeros, and no others are as few. */
  lemma {:induction false} OctetsMinimal(b: Bytes)
    ensures |Octets(Value(b))| <= |b|
    ensures |Octets(Value(b))| == |b| ==> Octets(Value(b)) == b
    decreases |b|
  {
    if b != [] {
      if b[0] != 0 {
        OctetsUnique(b);
      } else {
        OctetsMinimal(b[1..]);
        LeadingZero(b);
      }
    }
  }

  lemma {:induction false} LeadingZero(b: Bytes)
    requires b != [] && b[0] == 0
    ensures Value(b) == Value(b[1..])
    decreases |b|
  {
    if |b| > 1 {
      LeadingZero(b[..|b| - 1]);
      assert b[..|b| - 1][1..] == b[1..][..|b| - 2];
    }
  }

  // --- Writing ----------------------------------------------------------------------------------

  // The number of leading zero bits of an int that is not negative.
  function LeadingZeros(n: int): int
    requires 0 <= n <= MAX_INT
  {
    32 - BitLength(n)
  }

  function BitLength(n: nat): (k: nat) { if n == 0 then 0 else 1 + BitLength(n / 2) }

  lemma {:induction false} OctetCount(n: nat)
    ensures |Octets(n)| == (BitLength(n) + 7) / 8
  {
    if n > 0 {
      OctetCount(n / 0x100);
      EightBits(n);
    }
  }

  lemma EightBits(n: nat)
    requires n > 0
    ensures n / 0x100 > 0 ==> BitLength(n) == BitLength(n / 0x100) + 8
    ensures n / 0x100 == 0 ==> 1 <= BitLength(n) <= 8
  {
    var (a, b, c, d) := (n / 2, n / 4, n / 8, n / 16);
    var (e, f, g, h) := (n / 32, n / 64, n / 128, n / 256);
    assert a / 2 == b && b / 2 == c && c / 2 == d && d / 2 == e && e / 2 == f && f / 2 == g && g / 2 == h;
    if h > 0 {
      assert BitLength(n) == 1 + BitLength(a) == 2 + BitLength(b) == 3 + BitLength(c) == 4 + BitLength(d);
      assert BitLength(d) == 1 + BitLength(e) == 2 + BitLength(f) == 3 + BitLength(g) == 4 + BitLength(h);
    } else {
      assert g <= 1 && BitLength(g) <= 1 && BitLength(f) <= 2 && BitLength(e) <= 3 && BitLength(d) <= 4;
      assert BitLength(c) <= 5 && BitLength(b) <= 6 && BitLength(a) <= 7;
    }
  }

  // The length octets: the short form below 128, else the count of octets and the octets.
  function LengthOctets(len: nat): Bytes
    requires len <= MAX_INT
  {
    if len < 0x80 then [len] else FewOctets(len); [0x80 + |Octets(len)|] + Octets(len)
  }

  lemma {:induction false} FewOctets(len: nat)
    requires len <= MAX_INT
    ensures |Octets(len)| <= 4
  {
    assert |Octets(len / 0x100_0000)| <= 1 by { assert len / 0x100_0000 < 0x80; assert Octets(0) == []; }
    assert len / 0x100 / 0x100 / 0x100 == len / 0x100_0000;
    assert |Octets(len / 0x100 / 0x100)| <= 2;
    assert |Octets(len / 0x100)| <= 3;
  }

  function Tlv(tag: Byte, value: Bytes): Bytes
    requires |value| <= MAX_INT
  {
    [tag] + LengthOctets(|value|) + value
  }

  // The last `k` octets of a number, written one after the other.
  lemma {:induction false} OctetAt(n: nat, i: nat)
    requires i < |Octets(n)|
    ensures Octets(n)[|Octets(n)| - 1 - i] == n / Pow256(i) % 0x100
  {
    if i > 0 {
      OctetAt(n / 0x100, i - 1);
      DivideTwice(n, Pow256(i - 1));
    }
  }

  lemma DivideTwice(n: nat, p: int)
    requires p > 0
    ensures n / 0x100 / p == n / (0x100 * p)
  {
    var (q, r) := (n / 0x100 / p, n / 0x100 % p);
    var s := n % 0x100;
    assert n == 0x100 * (q * p + r) + s;
    assert 0x100 * (q * p + r) == q * (0x100 * p) + 0x100 * r;
    assert 0 <= 0x100 * r + s < 0x100 * p;
    Division(n, 0x100 * p, q, 0x100 * r + s);
  }

  /** derTlv: writes the bytes that Tlv defines. */
  method DerTlv(tag: Byte, value: Bytes) returns (out: Bytes)
    requires |value| <= MAX_INT
    ensures out == Tlv(tag, value)
  {
    out := [tag];
    var len := |value|;
    if len < 0x80 {
      out := out + [len];
    } else {
      var n := (32 - LeadingZeros(len) + 7) / 8;
      OctetCount(len);
      FewOctets(len);
      out := out + [0x80 + n];
      var i := n - 1;
      while i >= 0
        invariant -1 <= i < n
        invariant out == [tag] + ([0x80 + n] + Octets(len)[..n - 1 - i])
      {
        OctetAt(len, i);
        out := out + [Shifted(len, Pow256(i))];
        i := i - 1;
      }
      assert Octets(len)[..n] == Octets(len);
    }
    out := out + value;
  }

  // (len >>> (8 * i)) & 0xff
  function Shifted(len: nat, unit: int): Byte
    requires unit > 0
  {
    len / unit % 0x100
  }

  // --- Reading ----------------------------------------------------------------------------------

  // A length: its value and the octets it takes; the indefinite form is refused.
  function ReadLength(b: Bytes): (r: Option<(nat, nat)>)
    ensures r.Some? ==> 1 <= r.value.1 <= |b|
  {
    if b == [] then None
    else if b[0] < 0x80 then Some((Num(b[0]), 1))
    else
      var n := Num(b[0]) - 0x80;
      if n == 0 || 1 + n > |b| then None else Some((Value(b[1..1 + n]), 1 + n))
  }

  // A tag, a value and what follows.
  function ReadTlv(b: Bytes): (r: Option<(Byte, Bytes, Bytes)>)
    ensures r.Some? ==> |r.value.1| + |r.value.2| < |b|
  {
    if b == [] then None
    else match ReadLength(b[1..])
      case None => None
      case Some((len, taken)) =>
        var rest := b[1 + taken..];
        if len > |rest| then None else Some((b[0], rest[..len], rest[len..]))
  }

  lemma LengthReads(len: nat, rest: Bytes)
    requires len <= MAX_INT
    ensures ReadLength(LengthOctets(len) + rest) == Some((len, |LengthOctets(len)|))
  {
    if len >= 0x80 {
      FewOctets(len);
      OctetsValue(len);
      LongFormReads(Octets(len), rest);
    }
  }

  lemma LongFormReads(octets: Bytes, rest: Bytes)
    requires 1 <= |octets| <= 4
    ensures ReadLength([0x80 + |octets|] + octets + rest) == Some((Value(octets), 1 + |octets|))
  {
    var head: Bytes := [0x80 + |octets|];
    Middle(head, octets, rest);
    assert (head + octets + rest)[0] == head[0];
  }

  /** What was written is read back, whatever follows. */
  lemma TlvReads(tag: Byte, value: Bytes, rest: Bytes)
    requires |value| <= MAX_INT
    ensures ReadTlv(Tlv(tag, value) + rest) == Some((tag, value, rest))
  {
    var b := Tlv(tag, value) + rest;
    var len := LengthOctets(|value|);
    assert b[1..] == len + (value + rest);
    LengthReads(|value|, value + rest);
    assert b[1 + |len|..] == value + rest;
    assert (value + rest)[..|value|] == value && (value + rest)[|value|..] == rest;
  }

  /** Of all octets that are read as the length, the written ones are the fewest, and no others
      are as few: the definite form in the minimum number of octets. */
  lemma LengthIsMinimal(len: nat, octets: Bytes)
    requires len <= MAX_INT
    requires ReadLength(octets) == Some((len, |octets|))
    ensures |LengthOctets(len)| <= |octets|
    ensures |LengthOctets(len)| == |octets| ==> LengthOctets(len) == octets
  {
    if octets[0] >= 0x80 {
      var digits := octets[1..];
      assert octets[1..1 + (Num(octets[0]) - 0x80)] == digits;
      OctetsMinimal(digits);
      FewOctets(len);
      assert octets == [octets[0]] + digits;
    } else {
      assert octets == [octets[0]];
    }
  }

  // --- PKCS #8 ------------------------------------------------------------------------------------

  const VERSION: Bytes := [0x02, 0x01, 0x00]
  const RSA_ALG_ID: Bytes :=
    [0x30, 0x0d, 0x06, 0x09, 0x2a, 0x86, 0x48, 0x86, 0xf7, 0x0d, 0x01, 0x01, 0x01, 0x05, 0x00]

  // The octets of the object identifier 1.2.840.113549.1.1.1, rsaEncryption.
  const RSA_ENCRYPTION: Bytes := [0x2a, 0x86, 0x48, 0x86, 0xf7, 0x0d, 0x01, 0x01, 0x01]

  // Room for the key beside its wrapping.
  const ROOM: int := MAX_INT - 32

  function Wrapped(pkcs1: Bytes): Bytes
    requires |pkcs1| <= ROOM
  {
    FewOctets(|pkcs1|);
    Tlv(0x30, VERSION + RSA_ALG_ID + Tlv(0x04, pkcs1))
  }

  /** wrapPkcs1InPkcs8 */
  method WrapPkcs1InPkcs8(pkcs1: Bytes) returns (out: Bytes)
    requires |pkcs1| <= ROOM
    ensures out == Wrapped(pkcs1)
  {
    var octet := DerTlv(0x04, pkcs1);
    FewOctets(|pkcs1|);
    out := DerTlv(0x30, VERSION + RSA_ALG_ID + octet);
  }

  // The private key of a PrivateKeyInfo for rsaEncryption: a sequence of version 0, the
  // algorithm with null parameters, and an octet string; attributes may follow.
  function RsaPrivateKey(b: Bytes): Option<Bytes> {
    match ReadTlv(b)
    case None => None
    case Some((tag, body, rest)) =>
      if tag != 0x30 || rest != [] then None
      else match ReadTlv(body)
        case None => None
        case Some((version_tag, version, after_version)) =>
          if version_tag != 0x02 || version != [0x00] then None
          else match ReadTlv(after_version)
            case None => None
            case Some((algorithm_tag, algorithm, after_algorithm)) =>
              if algorithm_tag != 0x30 || !IsRsaEncryption(algorithm) then None
              else match ReadTlv(after_algorithm)
                case Some((key_tag, key, _)) => if key_tag == 0x04 then Some(key) else None
                case None => None
  }

  predicate IsRsaEncryption(algorithm: Bytes) {
    match ReadTlv(algorithm)
    case None => false
    case Some((oid_tag, oid, parameters)) =>
      oid_tag == 0x06 && oid == RSA_ENCRYPTION && ReadTlv(parameters) == Some((0x05, [], []))
  }

  /** The wrapped key is a PrivateKeyInfo for RSA with exactly the original key inside. */
  lemma WrappedHoldsKey(pkcs1: Bytes)
    requires |pkcs1| <= ROOM
    ensures RsaPrivateKey(Wrapped(pkcs1)) == Some(pkcs1)
  {
    FewOctets(|pkcs1|);
    var octet := Tlv(0x04, pkcs1);
    var body := VERSION + RSA_ALG_ID + octet;
    WholeTlvReads(0x30, body);
    VersionReads(RSA_ALG_ID + octet);
    Assoc(VERSION, RSA_ALG_ID, octet);
    AlgorithmReads(octet);
    AlgorithmIsRsa();
    WholeTlvReads(0x04, pkcs1);
  }

  lemma WholeTlvReads(tag: Byte, value: Bytes)
    requires |value| <= MAX_INT
    ensures ReadTlv(Tlv(tag, value)) == Some((tag, value, []))
  {
    TlvReads(tag, value, []);
    Nothing(Tlv(tag, value));
  }

  lemma VersionReads(rest: Bytes)
    ensures ReadTlv(VERSION + rest) == Some((0x02, [0x00], rest))
  {
    assert VERSION == Tlv(0x02, [0x00]);
    TlvReads(0x02, [0x00], rest);
  }

  lemma AlgorithmReads(rest: Bytes)
    ensures ReadTlv(RSA_ALG_ID + rest) == Some((0x30, RSA_ALG_ID[2..], rest))
  {
    assert RSA_ALG_ID == Tlv(0x30, RSA_ALG_ID[2..]);
    TlvReads(0x30, RSA_ALG_ID[2..], rest);
  }

  lemma AlgorithmIsRsa()
    ensures IsRsaEncryption(RSA_ALG_ID[2..])
  {
    assert RSA_ALG_ID[2..] == Tlv(0x06, RSA_ENCRYPTION) + Tlv(0x05, []);
    TlvReads(0x06, RSA_ENCRYPTION, Tlv(0x05, []));
    WholeTlvReads(0x05, []);
  }
}
