/** JSON strings (section 7 of RFC 8259): the escaping of AlternatorSerializer.java and an
    independent reader for them. */
module JsonString {
  import opened Options
  import opened Text

  const QUOTE: Unit := 0x22
  const BACKSLASH: Unit := 0x5C
  const COMMA: Unit := 0x2C
  const COLON: Unit := 0x3A
  const LBRACE: Unit := 0x7B
  const RBRACE: Unit := 0x7D
  const LBRACK: Unit := 0x5B
  const RBRACK: Unit := 0x5D

  // Character.forDigit(d, 16)
  function HexDigit(d: int): Unit
    requires 0 <= d < 16
  {
    if d < 10 then 0x30 + d else 0x57 + d
  }

  // One unit as appendJsonEscaped appends it.
  function Escape(c: Unit): Text {
    if c == QUOTE then [BACKSLASH, QUOTE]
    else if c == BACKSLASH then [BACKSLASH, BACKSLASH]
    else if c == 0x08 then [BACKSLASH, 0x62]
    else if c == 0x0C then [BACKSLASH, 0x66]
    else if c == 0x0A then [BACKSLASH, 0x6E]
    else if c == 0x0D then [BACKSLASH, 0x72]
    else if c == 0x09 then [BACKSLASH, 0x74]
    else if c < 0x20 then [BACKSLASH, 0x75, 0x30, 0x30, HexDigit(c / 16), HexDigit(c % 16)]
    else [c]
  }

  function Escaped(s: Text): Text {
    if s == [] then [] else Escape(s[0]) + Escaped(s[1..])
  }

  // --- Reading ---------------------------------------------------------------------------

  function HexValue(u: Unit): Option<int> {
    if 0x30 <= u <= 0x39 then Some(u - 0x30)
    else if 0x61 <= u <= 0x66 then Some(u - 0x57)
    else if 0x41 <= u <= 0x46 then Some(u - 0x37)
    else None
  }

  // The unit after a backslash, for the two-character escapes.
  function Unescape(u: Unit): Option<Unit> {
    if u == QUOTE || u == BACKSLASH || u == 0x2F then Some(u)
    else if u == 0x62 then Some(0x08)
    else if u == 0x66 then Some(0x0C)
    else if u == 0x6E then Some(0x0A)
    else if u == 0x72 then Some(0x0D)
    else if u == 0x74 then Some(0x09)
    else None
  }

  function HexUnit(s: Text): Option<Unit>
    requires |s| == 4
  {
    match (HexValue(s[0]), HexValue(s[1]), HexValue(s[2]), HexValue(s[3]))
    case (Some(a), Some(b), Some(c), Some(d)) =>
      var n := a * 4096 + b * 256 + c * 16 + d;
      if 0 <= n < 0x10000 then Some(n) else None
    case _ => None
  }

  // The first character of a string's inside, and how many units spell it.
  function FirstChar(s: Text): (r: Option<(Unit, nat)>)
    ensures r.Some? ==> 0 < r.value.1 <= |s|
  {
    if s == [] || s[0] < 0x20 || s[0] == QUOTE then None
    else if s[0] != BACKSLASH then Some((s[0], 1))
    else if |s| >= 6 && s[1] == 0x75 then
      (match HexUnit(s[2..6]) case Some(u) => Some((u, 6)) case None => None)
    else if |s| >= 2 then
      (match Unescape(s[1]) case Some(u) => Some((u, 2)) case None => None)
    else None
  }

  // The rest of a string after its opening quote: its content and what follows the closing one.
  function ReadString(s: Text): (r: Option<(Text, Text)>)
    ensures r.Some? ==> |r.value.1| + |r.value.0| < |s|
    decreases |s|
  {
    if s == [] then None
    else if s[0] == QUOTE then Some(([], s[1..]))
    else match FirstChar(s)
      case None => None
      case Some((u, n)) =>
        match ReadString(s[n..])
        case None => None
        case Some((rest, after)) => Some(([u] + rest, after))
  }

  // Can stand between quotes as it is.
  predicate Plain(s: Text) {
    forall i :: 0 <= i < |s| ==> s[i] >= 0x20 && s[i] != QUOTE && s[i] != BACKSLASH
  }

  // No control character, and no quote that is not part of an escape.
  predicate Sealed(s: Text) {
    s == [] ||
    (if s[0] == BACKSLASH then |s| >= 2 && s[1] >= 0x20 && Sealed(s[2..])
     else s[0] >= 0x20 && s[0] != QUOTE && Sealed(s[1..]))
  }

  lemma EscapeReads(c: Unit, rest: Text)
    ensures FirstChar(Escape(c) + rest) == Some((c, |Escape(c)|))
    ensures Escape(c)[0] != QUOTE
  {
    var s := Escape(c) + rest;
    if c < 0x20 && |Escape(c)| == 6 {
      assert s[2..6] == [0x30, 0x30, HexDigit(c / 16), HexDigit(c % 16)];
      assert HexValue(HexDigit(c / 16)) == Some(c / 16) && HexValue(HexDigit(c % 16)) == Some(c % 16);
      assert HexUnit(s[2..6]) == Some(c);
    }
  }

  lemma ReadStep(c: Unit, e: Text, tail: Text, t: Text, rest: Text)
    requires e != [] && e[0] != QUOTE && FirstChar(e + tail) == Some((c, |e|))
    requires ReadString(tail) == Some((t, rest))
    ensures ReadString(e + tail) == Some(([c] + t, rest))
  {
    assert (e + tail)[|e|..] == tail;
  }

  /** Reading an escaped string and whatever follows it gives back the string and what follows. */
  lemma {:induction false} EscapedReads(t: Text, rest: Text)
    ensures ReadString(Escaped(t) + [QUOTE] + rest) == Some((t, rest))
  {
    if t == [] {
      assert Escaped(t) + [QUOTE] + rest == [QUOTE] + rest;
    } else {
      var tail := Escaped(t[1..]) + [QUOTE] + rest;
      EscapedReads(t[1..], rest);
      EscapeReads(t[0], tail);
      ReadStep(t[0], Escape(t[0]), tail, t[1..], rest);
      assert Escaped(t) + [QUOTE] + rest == Escape(t[0]) + tail;
      assert t == [t[0]] + t[1..];
    }
  }

  lemma {:induction false} PlainSeals(x: Text, s: Text)
    requires Plain(x) && Sealed(s)
    ensures Sealed(x + s)
  {
    if x == [] {
      assert x + s == s;
    } else {
      PlainSeals(x[1..], s);
      assert (x + s)[1..] == x[1..] + s;
    }
  }

  lemma EscapeShape(c: Unit)
    ensures var e := Escape(c);
            (|e| == 1 && Plain(e)) || (|e| >= 2 && e[0] == BACKSLASH && e[1] >= 0x20 && Plain(e[2..]))
  {
  }

  lemma EscapeSeals(e: Text, s: Text)
    requires (|e| == 1 && Plain(e)) || (|e| >= 2 && e[0] == BACKSLASH && e[1] >= 0x20 && Plain(e[2..]))
    requires Sealed(s)
    ensures Sealed(e + s)
  {
    if |e| == 1 {
      PlainSeals(e, s);
    } else {
      PlainSeals(e[2..], s);
      assert (e + s)[2..] == e[2..] + s;
    }
  }

  /** An escaped string holds no raw quote and no control character. */
  lemma {:induction false} EscapedIsSealed(t: Text)
    ensures Sealed(Escaped(t))
  {
    if t != [] {
      EscapedIsSealed(t[1..]);
      EscapeShape(t[0]);
      EscapeSeals(Escape(t[0]), Escaped(t[1..]));
    }
  }

  lemma {:induction false} PlainReads(t: Text, rest: Text)
    requires Plain(t)
    ensures ReadString(t + [QUOTE] + rest) == Some((t, rest))
  {
    var s := t + [QUOTE] + rest;
    if t == [] {
      assert s == [QUOTE] + rest;
    } else {
      assert s == [t[0]] + (t[1..] + [QUOTE] + rest) && s[1..] == t[1..] + [QUOTE] + rest;
      PlainReads(t[1..], rest);
      assert t == [t[0]] + t[1..];
    }
  }

  // Reading up to the first raw quote yields a quote before that, or no more than was there.
  lemma {:induction false} ReadUpTo(x: Text, rest: Text, y: Text, after: Text)
    requires QUOTE !in x && ReadString(x + [QUOTE] + rest) == Some((y, after))
    ensures (exists j :: 0 <= j < |x| && j < |y| && y[j] == QUOTE) || |y| < |x| || (y == x && Plain(x))
    decreases |x|
  {
    var s := x + [QUOTE] + rest;
    if x == [] {
      assert s[0] == QUOTE;
    } else {
      assert s[0] == x[0] && x[0] in x;
      var (u, n) := FirstChar(s).value;
      if n > |x| {
        EscapeOverQuote(x, rest);
        assert y[0] == QUOTE;
      } else {
        assert s[n..] == x[n..] + [QUOTE] + rest;
        ReadUpTo(x[n..], rest, y[1..], after);
        if j :| 0 <= j < |x[n..]| && j < |y[1..]| && y[1..][j] == QUOTE {
          assert y[j + 1] == QUOTE;
        } else if n == 1 && y[1..] == x[1..] {
          assert x == [x[0]] + x[1..] && y == [y[0]] + y[1..];
        }
      }
    }
  }

  lemma EscapeOverQuote(x: Text, rest: Text)
    requires x != [] && QUOTE !in x
    requires FirstChar(x + [QUOTE] + rest).Some? && FirstChar(x + [QUOTE] + rest).value.1 > |x|
    ensures FirstChar(x + [QUOTE] + rest).value.0 == QUOTE
  {
    var s := x + [QUOTE] + rest;
    assert s[|x|] == QUOTE;
    assert x[0] in x;
  }

  /** A string that was appended without escaping is read back as it was exactly if it is plain. */
  lemma RawReadsIffPlain(t: Text, rest: Text)
    ensures (exists after :: ReadString(t + [QUOTE] + rest) == Some((t, after))) <==> Plain(t)
    ensures Plain(t) ==> ReadString(t + [QUOTE] + rest) == Some((t, rest))
  {
    if Plain(t) {
      PlainReads(t, rest);
    }
    var s := t + [QUOTE] + rest;
    if after :| ReadString(s) == Some((t, after)) {
      assert s == t + ([QUOTE] + rest);
      RawReadIsPlain(t, rest, after);
    }
  }

  // Nothing that holds a quote is read back from where the first one stood.
  lemma QuoteIsLost(t: Text, i: nat, more: Text, after: Text)
    requires i < |t| && t[i] == QUOTE && QUOTE !in t[..i]
    ensures ReadString(t[..i] + [QUOTE] + more) != Some((t, after))
  {
    forall j | 0 <= j < i ensures t[j] != QUOTE {
      assert t[..i][j] == t[j];
    }
    if ReadString(t[..i] + [QUOTE] + more) == Some((t, after)) {
      ReadUpTo(t[..i], more, t, after);
    }
  }

  lemma RawReadIsPlain(t: Text, rest: Text, after: Text)
    requires ReadString(t + ([QUOTE] + rest)) == Some((t, after))
    ensures Plain(t)
  {
    var i := FirstQuote(t);
    if i < |t| {
      SplitAround(t, i, [QUOTE] + rest);
      QuoteIsLost(t, i, t[i + 1..] + ([QUOTE] + rest), after);
    } else {
      assert t[..i] == t && t + ([QUOTE] + rest) == t + [QUOTE] + rest;
      ReadUpTo(t, rest, t, after);
    }
  }

  lemma SplitAround(t: Text, i: nat, tail: Text)
    requires i < |t|
    ensures t + tail == t[..i] + [t[i]] + (t[i + 1..] + tail)
  {
  }

  function FirstQuote(t: Text): (i: nat)
    ensures i <= |t| && QUOTE !in t[..i] && (i < |t| ==> t[i] == QUOTE)
  {
    if t == [] || t[0] == QUOTE then 0
    else
      var i := 1 + FirstQuote(t[1..]);
      assert t[..i] == [t[0]] + t[1..][..i - 1];
      i
  }
}
