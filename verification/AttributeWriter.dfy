/** appendJsonAttributeValue and appendJsonEscaped of AlternatorSerializer.java: appending to a
    shared builder, against the text that AttributeJson defines. */
module AttributeWriter {
  import opened Text
  import opened JsonString
  import opened AttributeJson
  import opened Sequences
  import Base64

  class Builder {
    var text: Text

    constructor ()
      ensures text == []
    {
      text := [];
    }

    method Append(t: Text)
      modifies this
      ensures text == old(text) + t
    {
      text := text + t;
    }

    method AppendJsonEscaped(s: Text)
      modifies this
      ensures text == old(text) + Escaped(s)
    {
      var i := 0;
      while i < |s|
        invariant 0 <= i <= |s|
        invariant text + Escaped(s[i..]) == old(text) + Escaped(s)
      {
        EscapedStep(text, s, i);
        AppendEscape(s[i]);
        i := i + 1;
      }
    }

    method AppendEscape(c: Unit)
      modifies this
      ensures text == old(text) + Escape(c)
    {
      match c {
        case 0x22 => Append([BACKSLASH, QUOTE]);
        case 0x5C => Append([BACKSLASH, BACKSLASH]);
        case 0x08 => Append([BACKSLASH, 0x62]);
        case 0x0C => Append([BACKSLASH, 0x66]);
        case 0x0A => Append([BACKSLASH, 0x6E]);
        case 0x0D => Append([BACKSLASH, 0x72]);
        case 0x09 => Append([BACKSLASH, 0x74]);
        case _ =>
          if c < 0x20 {
            var high, low := HexDigit(c / 16 % 16), HexDigit(c % 16);
            Append([BACKSLASH, 0x75, 0x30, 0x30]);
            Append([high]);
            Append([low]);
            Assoc(old(text) + [BACKSLASH, 0x75, 0x30, 0x30], [high], [low]);
            Assoc(old(text), [BACKSLASH, 0x75, 0x30, 0x30], [high] + [low]);
          } else {
            Append([c]);
          }
      }
    }

    method AppendQuoted(t: Text)
      modifies this
      ensures text == old(text) + Quoted(t)
    {
      Append([QUOTE]);
      Append(t);
      Append([QUOTE]);
    }

    method AppendQuotedEscaped(s: Text)
      modifies this
      ensures text == old(text) + Quoted(Escaped(s))
    {
      Append([QUOTE]);
      AppendJsonEscaped(s);
      Append([QUOTE]);
    }

    method Separate(more: bool)
      modifies this
      ensures text == old(text) + Lead(more)
    {
      if more { Append([COMMA]); }
    }

    method AppendStrings(ss: seq<Text>)
      modifies this
      ensures text == old(text) + Joined(Quotes(Escapes(ss)))
    {
      ghost var parts, whole := Quotes(Escapes(ss)), text + Joined(Quotes(Escapes(ss)));
      var i := 0;
      while i < |ss|
        invariant 0 <= i <= |ss|
        invariant text + Still(parts, i) == whole
      {
        StringPart(ss, i);
        StillStep(text, parts, i);
        Separate(i > 0);
        AppendQuotedEscaped(ss[i]);
        i := i + 1;
      }
    }

    method AppendNumbers(ns: seq<Text>)
      modifies this
      ensures text == old(text) + Joined(Quotes(ns))
    {
      ghost var parts, whole := Quotes(ns), text + Joined(Quotes(ns));
      var i := 0;
      while i < |ns|
        invariant 0 <= i <= |ns|
        invariant text + Still(parts, i) == whole
      {
        QuotePart(ns, i);
        StillStep(text, parts, i);
        Separate(i > 0);
        AppendQuoted(ns[i]);
        i := i + 1;
      }
    }

    method AppendBinaries(bs: seq<Bytes>)
      modifies this
      ensures text == old(text) + Joined(Quotes(Encodings(bs)))
    {
      ghost var parts, whole := Quotes(Encodings(bs)), text + Joined(Quotes(Encodings(bs)));
      var i := 0;
      while i < |bs|
        invariant 0 <= i <= |bs|
        invariant text + Still(parts, i) == whole
      {
        BinaryPart(bs, i);
        StillStep(text, parts, i);
        Separate(i > 0);
        AppendQuoted(Base64.Encode(bs[i]));
        i := i + 1;
      }
    }

    method AppendValues(l: seq<Attribute>) returns (ok: bool)
      modifies this
      decreases l, 2
      ensures ok <==> forall i :: 0 <= i < |l| ==> Supported(l[i])
      ensures ok ==> text == old(text) + Joined(Jsons(l))
    {
      ghost var parts, whole := Jsons(l), text + Joined(Jsons(l));
      var i := 0;
      while i < |l|
        invariant 0 <= i <= |l|
        invariant forall j :: 0 <= j < i ==> Supported(l[j])
        invariant text + Still(parts, i) == whole
      {
        JsonPart(l, i);
        StillStep(text, parts, i);
        ok := AppendValue(i > 0, l[i]);
        if !ok { return false; }
        i := i + 1;
      }
      ok := true;
    }

    method AppendValue(more: bool, v: Attribute) returns (ok: bool)
      modifies this
      decreases v, 3
      ensures ok <==> Supported(v)
      ensures ok ==> text == old(text) + Lead(more) + Json(v)
    {
      Separate(more);
      ok := AppendJsonAttributeValue(v);
    }

    method AppendEntries(m: seq<Entry>) returns (ok: bool)
      modifies this
      decreases m, 2
      ensures ok <==> forall i :: 0 <= i < |m| ==> Supported(m[i].value)
      ensures ok ==> text == old(text) + Joined(Pairs(m))
    {
      ghost var parts, whole := Pairs(m), text + Joined(Pairs(m));
      var first := true;
      var i := 0;
      while i < |m|
        invariant 0 <= i <= |m| && first == (i == 0)
        invariant forall j :: 0 <= j < i ==> Supported(m[j].value)
        invariant text + Still(parts, i) == whole
      {
        PairPart(m, i);
        StillStep(text, parts, i);
        ok := AppendNextEntry(!first, m[i]);
        first := false;
        if !ok { return false; }
        i := i + 1;
      }
      ok := true;
    }

    method AppendNextEntry(more: bool, e: Entry) returns (ok: bool)
      modifies this
      decreases e, 1
      ensures ok <==> Supported(e.value)
      ensures ok ==> text == old(text) + Lead(more) + Pair(e)
    {
      Separate(more);
      ok := AppendEntry(e);
    }

    method AppendEntry(e: Entry) returns (ok: bool)
      modifies this
      decreases e, 0
      ensures ok <==> Supported(e.value)
      ensures ok ==> text == old(text) + Pair(e)
    {
      AppendQuotedEscaped(e.key);
      Append([COLON]);
      ghost var before := text;
      ok := AppendJsonAttributeValue(e.value);
      if ok {
        PairFrom(old(text), e);
      }
    }

    /** Appends a value's JSON; false stands for the exception, raised exactly if some value in
        it has no field set. */
    method AppendJsonAttributeValue(v: Attribute) returns (ok: bool)
      modifies this
      decreases v, 2
      ensures ok <==> Supported(v)
      ensures ok ==> text == old(text) + Json(v)
    {
      if v == NoValue { return false; }
      Append([LBRACE]);
      AppendQuoted(Tag(v));
      Append([COLON]);
      ok := AppendPayload(v);
      if ok {
        Append([RBRACE]);
        JsonFrom(old(text), v);
      }
    }

    method AppendPayload(v: Attribute) returns (ok: bool)
      requires v != NoValue
      modifies this
      decreases v, 1
      ensures ok <==> Supported(v)
      ensures ok ==> text == old(text) + Payload(v)
    {
      ok := true;
      match v {
        case S(s) => AppendQuotedEscaped(s);
        case N(n) => AppendQuoted(n);
        case B(b) => AppendQuoted(Base64.Encode(b));
        case Bool(b) => Append(if b then TRUE else FALSE);
        case Null => Append(TRUE);
        case L(_) => ok := AppendNested(v);
        case M(_) => ok := AppendNested(v);
        case SS(_) => AppendSet(v);
        case NS(_) => AppendSet(v);
        case BS(_) => AppendSet(v);
      }
    }

    method AppendSet(v: Attribute)
      requires v.SS? || v.NS? || v.BS?
      modifies this
      ensures text == old(text) + Payload(v)
    {
      Append([LBRACK]);
      ghost var inside: Text;
      match v {
        case SS(ss) => AppendStrings(ss); inside := Joined(Quotes(Escapes(ss)));
        case NS(ns) => AppendNumbers(ns); inside := Joined(Quotes(ns));
        case BS(bs) => AppendBinaries(bs); inside := Joined(Quotes(Encodings(bs)));
      }
      Append([RBRACK]);
      Around(old(text), [LBRACK], inside, [RBRACK]);
    }

    method AppendNested(v: Attribute) returns (ok: bool)
      requires v.L? || v.M?
      modifies this
      decreases v, 0
      ensures ok <==> Supported(v)
      ensures ok ==> text == old(text) + Payload(v)
    {
      match v {
        case L(l) =>
          Append([LBRACK]);
          ok := AppendValues(l);
          if ok {
            Append([RBRACK]);
            Around(old(text), [LBRACK], Joined(Jsons(l)), [RBRACK]);
          }
        case M(m) =>
          Append([LBRACE]);
          ok := AppendEntries(m);
          if ok {
            Append([RBRACE]);
            Around(old(text), [LBRACE], Joined(Pairs(m)), [RBRACE]);
          }
      }
    }
  }

  // --- What a loop over parts still has to append -------------------------------------------

  ghost function Lead(more: bool): Text { if more then [COMMA] else [] }

  ghost function Still(parts: seq<Text>, i: nat): Text
    requires i <= |parts|
  {
    if i == |parts| then [] else Lead(i > 0) + Joined(parts[i..])
  }

  lemma StillFrom(parts: seq<Text>, i: nat)
    requires i < |parts|
    ensures Joined(parts[i..]) == parts[i] + Still(parts, i + 1)
  {
    var rest := parts[i..];
    assert rest[1..] == parts[i + 1..] && rest[0] == parts[i];
    if i + 1 == |parts| {
      Nothing(parts[i]);
    } else {
      Assoc(parts[i], [COMMA], Joined(parts[i + 1..]));
    }
  }

  lemma StillStep(done: Text, parts: seq<Text>, i: nat)
    requires i < |parts|
    ensures done + Still(parts, i) == done + Lead(i > 0) + parts[i] + Still(parts, i + 1)
  {
    StillFrom(parts, i);
    Assoc(done, Lead(i > 0), parts[i] + Still(parts, i + 1));
    Assoc(done + Lead(i > 0), parts[i], Still(parts, i + 1));
  }

  lemma EscapedStep(done: Text, s: Text, i: nat)
    requires i < |s|
    ensures done + Escaped(s[i..]) == done + Escape(s[i]) + Escaped(s[i + 1..])
  {
    assert s[i..][1..] == s[i + 1..];
    Assoc(done, Escape(s[i]), Escaped(s[i + 1..]));
  }

  lemma Around(before: Text, open: Text, inside: Text, close: Text)
    ensures before + open + inside + close == before + (open + inside + close)
  {
  }

  lemma PairFrom(before: Text, e: Entry)
    ensures before + Quoted(Escaped(e.key)) + [COLON] + Json(e.value) == before + Pair(e)
  {
    Around(before, Quoted(Escaped(e.key)), [COLON], Json(e.value));
  }

  lemma JsonFrom(before: Text, v: Attribute)
    ensures before + [LBRACE] + Quoted(Tag(v)) + [COLON] + Payload(v) + [RBRACE] == before + Json(v)
  {
    Around(before, [LBRACE], Quoted(Tag(v)), [COLON]);
    Around(before, [LBRACE] + Quoted(Tag(v)) + [COLON], Payload(v), [RBRACE]);
  }
}
