/** Base64 with padding, section 4 of RFC 4648, as java.util.Base64's basic encoder writes it. */
module Base64 {
  import opened Options
  import opened Text

  type Digit = d: int | 0 <= d < 64

  const PAD: Unit := 0x3D

  function Letter(d: Digit): (u: Unit)
    ensures 0x2B <= u <= 0x7A && u != PAD && u != 0x5C
  {
    if d < 26 then 65 + d
    else if d < 52 then 71 + d
    else if d < 62 then d - 4
    else if d == 62 then 0x2B else 0x2F
  }

  function Value(u: Unit): Option<Digit> {
    if 65 <= u < 91 then Some(u - 65)
    else if 97 <= u < 123 then Some(u - 71)
    else if 48 <= u < 58 then Some(u + 4)
    else if u == 0x2B then Some(62)
    else if u == 0x2F then Some(63)
    else None
  }

  function Encode(b: Bytes): Text {
    if b == [] then []
    else if |b| == 1 then [Letter(b[0] / 4), Letter(b[0] % 4 * 16), PAD, PAD]
    else if |b| == 2 then [Letter(b[0] / 4), Letter(b[0] % 4 * 16 + b[1] / 16), Letter(b[1] % 16 * 4), PAD]
    else [Letter(b[0] / 4), Letter(b[0] % 4 * 16 + b[1] / 16), Letter(b[1] % 16 * 4 + b[2] / 64), Letter(b[2] % 64)]
         + Encode(b[3..])
  }

  function Octet(high: Digit, low: Digit, shift: int): Byte
    requires shift == 4 || shift == 16 || shift == 64
  {
    (high * shift + low * shift / 64) % 256
  }

  function Decode(t: Text): Option<Bytes> {
    if t == [] then Some([])
    else if |t| < 4 then None
    else match (Value(t[0]), Value(t[1]))
      case (Some(w), Some(x)) =>
        if t[2] == PAD then
          if t[3] == PAD && |t| == 4 then Some([Octet(w, x, 4)]) else None
        else (match Value(t[2])
          case None => None
          case Some(y) =>
            if t[3] == PAD then
              if |t| == 4 then Some([Octet(w, x, 4), Octet(x, y, 16)]) else None
            else match (Value(t[3]), Decode(t[4..]))
              case (Some(z), Some(rest)) => Some([Octet(w, x, 4), Octet(x, y, 16), Octet(y, z, 64)] + rest)
              case _ => None)
      case _ => None
  }

  lemma LetterValue(d: Digit)
    ensures Value(Letter(d)) == Some(d)
  {
  }

  lemma OctetsOf(a: Byte, b: Byte, c: Byte)
    ensures Octet(a / 4, a % 4 * 16 + b / 16, 4) == a
    ensures Octet(a % 4 * 16 + b / 16, b % 16 * 4 + c / 64, 16) == b
    ensures Octet(b % 16 * 4 + c / 64, c % 64, 64) == c
  {
    assert (a % 4 * 16 + b / 16) * 4 / 64 == a % 4;
    assert (b % 16 * 4 + c / 64) * 16 / 64 == b % 16;
    assert (a % 4 * 16 + b / 16) * 16 == a % 4 * 256 + b / 16 * 16;
    assert (b % 16 * 4 + c / 64) * 64 == b % 16 * 256 + c / 64 * 64;
  }

  lemma OneDecodes(a: Byte)
    ensures Decode([Letter(a / 4), Letter(a % 4 * 16), PAD, PAD]) == Some([a])
  {
    LetterValue(a / 4);
    LetterValue(a % 4 * 16);
    OctetsOf(a, 0, 0);
  }

  lemma TwoDecode(a: Byte, b: Byte)
    ensures Decode([Letter(a / 4), Letter(a % 4 * 16 + b / 16), Letter(b % 16 * 4), PAD]) == Some([a, b])
  {
    LetterValue(a / 4);
    LetterValue(a % 4 * 16 + b / 16);
    LetterValue(b % 16 * 4);
    OctetsOf(a, b, 0);
  }

  lemma ThreeDecode(a: Byte, b: Byte, c: Byte, rest: Text)
    requires Decode(rest).Some?
    ensures Decode([Letter(a / 4), Letter(a % 4 * 16 + b / 16), Letter(b % 16 * 4 + c / 64), Letter(c % 64)] + rest)
            == Some([a, b, c] + Decode(rest).value)
  {
    var w: Digit, x: Digit, y: Digit, z: Digit := a / 4, a % 4 * 16 + b / 16, b % 16 * 4 + c / 64, c % 64;
    var t := [Letter(w), Letter(x), Letter(y), Letter(z)] + rest;
    LetterValue(w);
    LetterValue(x);
    LetterValue(y);
    LetterValue(z);
    OctetsOf(a, b, c);
    assert t[0] == Letter(w) && t[1] == Letter(x) && t[2] == Letter(y) && t[3] == Letter(z) && t[4..] == rest;
  }

  lemma Spelled(b: Bytes)
    ensures |b| == 1 ==> b == [b[0]]
    ensures |b| == 2 ==> b == [b[0], b[1]]
    ensures |b| >= 3 ==> b == [b[0], b[1], b[2]] + b[3..]
  {
  }

  lemma {:induction false} Decodes(b: Bytes)
    ensures Decode(Encode(b)) == Some(b)
  {
    Spelled(b);
    if |b| == 1 {
      OneDecodes(b[0]);
    } else if |b| == 2 {
      TwoDecode(b[0], b[1]);
    } else if |b| >= 3 {
      Decodes(b[3..]);
      ThreeDecode(b[0], b[1], b[2], Encode(b[3..]));
    }
  }
}
