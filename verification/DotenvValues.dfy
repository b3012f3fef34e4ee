/** What the printer writes for a value is read back as that value. */
module DotenvValues {
  import opened JsStrings
  import opened TextLines
  import opened Dotenv
  import JsonStrings

  /** U+2028 and U+2029 stay unescaped in a JSON string but end a line for `.`. */
  predicate HasSeparator(v: JsString) {
    LINE_SEPARATOR in v || PARAGRAPH_SEPARATOR in v
  }

  /** What the editor may put behind a value: nothing, or a space and a trimmed comment. */
  predicate IsTail(tail: JsString) {
    tail == [] || (|tail| >= 2 && tail[0] == SPACE && tail[1] == HASH && !IsSpace(tail[|tail| - 1]))
  }

  function CommentBehind(length: nat, tail: JsString): Option<nat> {
    if tail == [] then None else Some(length + 1)
  }

  // ------------------------------------------------------------ finding the comment again

  lemma TailComment(tail: JsString, boundary: bool, escaped: bool)
    requires IsTail(tail)
    ensures FindComment(tail, boundary, None, escaped) == CommentBehind(0, tail)
  {
    if tail != [] {
      assert tail[1..][0] == HASH;
    }
  }

  lemma {:induction false} CommentBehindRaw(v: JsString, tail: JsString, boundary: bool, escaped: bool)
    requires !NeedsQuotes(v) && IsTail(tail)
    ensures FindComment(v + tail, boundary, None, escaped) == CommentBehind(|v|, tail)
    decreases |v|
  {
    if v == [] {
      assert v + tail == tail;
      TailComment(tail, boundary, escaped);
    } else {
      hide IsSpace;
      assert v[0] != HASH && v[0] != DOUBLE_QUOTE && v[0] != SINGLE_QUOTE;
      RawTail(v);
      assert (v + tail)[1..] == v[1..] + tail && (v + tail)[0] == v[0];
      CommentBehindRaw(v[1..], tail, IsSpace(v[0]), !escaped && v[0] == BACKSLASH);
    }
  }

  lemma RawTail(v: JsString)
    requires v != [] && !NeedsQuotes(v)
    ensures !NeedsQuotes(v[1..])
  {
    hide IsSpace;
    assert forall i :: 0 <= i < |v[1..]| ==> v[1..][i] == v[i + 1];
  }

  /** Inside double quotes: the result of scanning `text`. */
  function InQuotes(text: JsString, escaped: bool): Option<nat> {
    FindComment(text, false, Some(DOUBLE_QUOTE), escaped)
  }

  lemma BoundaryIrrelevant(text: JsString, boundary: bool, escaped: bool)
    ensures FindComment(text, boundary, Some(DOUBLE_QUOTE), escaped) == InQuotes(text, escaped)
  {}

  lemma QuotedPlain(c: CodeUnit, rest: JsString)
    requires c != DOUBLE_QUOTE && c != BACKSLASH
    ensures InQuotes([c] + rest, false) == Shift(InQuotes(rest, false), 1)
  {
    assert ([c] + rest)[1..] == rest;
    BoundaryIrrelevant(rest, IsSpace(c), false);
  }

  lemma QuotedEscape(c: CodeUnit, rest: JsString)
    ensures InQuotes([BACKSLASH, c] + rest, false) == Shift(InQuotes(rest, false), 2)
  {
    assert ([BACKSLASH, c] + rest)[1..] == [c] + rest && ([c] + rest)[1..] == rest;
    BoundaryIrrelevant([c] + rest, IsSpace(BACKSLASH), true);
    BoundaryIrrelevant(rest, IsSpace(c), false);
  }

  lemma HexIsPlain(n: int)
    requires 0 <= n < 16
    ensures JsonStrings.HexDigit(n) != DOUBLE_QUOTE && JsonStrings.HexDigit(n) != BACKSLASH
  {}

  lemma QuotedHex(h: CodeUnit, i: CodeUnit, j: CodeUnit, k: CodeUnit, rest: JsString)
    requires forall c :: c in [h, i, j, k] ==> c != DOUBLE_QUOTE && c != BACKSLASH
    ensures InQuotes([h, i, j, k] + rest, false) == Shift(InQuotes(rest, false), 4)
  {
    hide InQuotes;
    assert h in [h, i, j, k] && i in [h, i, j, k] && j in [h, i, j, k] && k in [h, i, j, k];
    QuotedPlain(k, rest);
    QuotedPlain(j, [k] + rest);
    QuotedPlain(i, [j] + ([k] + rest));
    QuotedPlain(h, [i] + ([j] + ([k] + rest)));
    assert [h, i, j, k] + rest == [h] + ([i] + ([j] + ([k] + rest)));
  }

  lemma QuotedUnit(c: CodeUnit, rest: JsString)
    ensures var unit := JsonStrings.EscapeUnit(c);
            InQuotes(unit + rest, false) == Shift(InQuotes(rest, false), |unit|)
  {
    hide InQuotes, JsonStrings.HexDigit;
    var unit := JsonStrings.EscapeUnit(c);
    if |unit| == 1 {
      QuotedPlain(c, rest);
    } else if |unit| == 2 {
      assert unit == [BACKSLASH, unit[1]];
      QuotedEscape(unit[1], rest);
    } else {
      var hex := JsonStrings.Hex4(c);
      var n := c as int;
      HexIsPlain(n / 0x1000);
      HexIsPlain(n / 0x100 % 0x10);
      HexIsPlain(n / 0x10 % 0x10);
      HexIsPlain(n % 0x10);
      QuotedHex(hex[0], hex[1], hex[2], hex[3], rest);
      QuotedEscape(JsonStrings.LOWER_U, hex + rest);
      assert unit + rest == [BACKSLASH, JsonStrings.LOWER_U] + (hex + rest);
    }
  }

  lemma SurrogatesArePlain(h: CodeUnit, l: CodeUnit)
    requires JsonStrings.IsHighSurrogate(h) && JsonStrings.IsLowSurrogate(l)
    ensures h != DOUBLE_QUOTE && h != BACKSLASH && l != DOUBLE_QUOTE && l != BACKSLASH
  {}

  lemma {:induction false} QuotedBody(s: JsString, rest: JsString)
    ensures var body := JsonStrings.EscapeBody(s);
            InQuotes(body + rest, false) == Shift(InQuotes(rest, false), |body|)
    decreases |s|
  {
    hide InQuotes, JsonStrings.EscapeUnit, JsonStrings.IsHighSurrogate, JsonStrings.IsLowSurrogate;
    var body := JsonStrings.EscapeBody(s);
    if s == [] {
      assert body + rest == rest;
    } else if |s| > 1 && JsonStrings.IsHighSurrogate(s[0]) && JsonStrings.IsLowSurrogate(s[1]) {
      var tail := JsonStrings.EscapeBody(s[2..]) + rest;
      QuotedBody(s[2..], rest);
      SurrogatesArePlain(s[0], s[1]);
      QuotedPlain(s[1], tail);
      QuotedPlain(s[0], [s[1]] + tail);
      assert body + rest == [s[0]] + ([s[1]] + tail);
    } else {
      QuotedBody(s[1..], rest);
      QuotedUnit(s[0], JsonStrings.EscapeBody(s[1..]) + rest);
      assert body + rest == JsonStrings.EscapeUnit(s[0]) + (JsonStrings.EscapeBody(s[1..]) + rest);
    }
  }

  lemma CommentBehindQuoted(s: JsString, tail: JsString)
    requires IsTail(tail)
    ensures InlineComment(JsonStrings.Stringify(s) + tail) == CommentBehind(|JsonStrings.Stringify(s)|, tail)
  {
    hide JsonStrings.EscapeBody, IsTail;
    var body := JsonStrings.EscapeBody(s);
    var inside := body + ([DOUBLE_QUOTE] + tail);
    assert JsonStrings.Stringify(s) + tail == [DOUBLE_QUOTE] + inside;
    assert ([DOUBLE_QUOTE] + inside)[1..] == inside && ([DOUBLE_QUOTE] + tail)[1..] == tail;
    BoundaryIrrelevant(inside, IsSpace(DOUBLE_QUOTE), false);
    QuotedBody(s, [DOUBLE_QUOTE] + tail);
    TailComment(tail, IsSpace(DOUBLE_QUOTE), false);
  }

  lemma CommentBehindEmpty(tail: JsString)
    requires IsTail(tail)
    ensures InlineComment([DOUBLE_QUOTE, DOUBLE_QUOTE] + tail) == CommentBehind(2, tail)
  {
    CommentBehindQuoted([], tail);
    assert JsonStrings.Stringify([]) == [DOUBLE_QUOTE, DOUBLE_QUOTE];
  }

  /** The comment behind a printed value is found where the editor put it. */
  lemma CommentBehindValue(v: JsString, tail: JsString)
    requires IsTail(tail)
    ensures InlineComment(SerializeValue(v) + tail) == CommentBehind(|SerializeValue(v)|, tail)
  {
    hide IsTail, FindComment, InlineComment, JsonStrings.Stringify, NeedsQuotes;
    if v == [] {
      CommentBehindEmpty(tail);
    } else if NeedsQuotes(v) {
      CommentBehindQuoted(v, tail);
    } else {
      CommentBehindRaw(v, tail, true, false);
      assert InlineComment(v + tail) == FindComment(v + tail, true, None, false) by { InlineCommentIs(v + tail); }
    }
  }

  lemma InlineCommentIs(s: JsString)
    ensures InlineComment(s) == FindComment(s, true, None, false)
  {}

  // ------------------------------------------------------------ reading the value back

  lemma TrimIdentity(s: JsString)
    requires s == [] || (!IsSpace(s[0]) && !IsSpace(s[|s| - 1]))
    ensures Trim(s) == s
  {
    assert s[0..] == s;
  }

  lemma DecodeEmpty()
    ensures DecodeValue([DOUBLE_QUOTE, DOUBLE_QUOTE]) == []
  {
    JsonStrings.ParseStringify([]);
    assert JsonStrings.Stringify([]) == [DOUBLE_QUOTE, DOUBLE_QUOTE];
  }

  lemma RawEnds(v: JsString)
    requires v != [] && !NeedsQuotes(v)
    ensures !IsSpace(v[0]) && !IsSpace(v[|v| - 1]) && v[0] != DOUBLE_QUOTE && v[0] != SINGLE_QUOTE
  {
    hide IsSpace;
  }

  lemma DecodeSerialized(v: JsString)
    ensures DecodeValue(SerializeValue(v)) == v
  {
    hide NeedsQuotes, JsonStrings.EscapeBody, JsonStrings.ParseBody;
    if v == [] {
      DecodeEmpty();
    } else if NeedsQuotes(v) {
      JsonStrings.ParseStringify(v);
    } else {
      RawEnds(v);
    }
  }

  lemma SerializedEnds(v: JsString)
    ensures var s := SerializeValue(v);
            s != [] && !IsSpace(s[0]) && !IsSpace(s[|s| - 1])
  {
    hide NeedsQuotes, JsonStrings.EscapeBody;
    if v != [] && !NeedsQuotes(v) {
      RawEnds(v);
    }
  }

  /** A printed value, with or without a comment behind it, is read back unchanged. */
  lemma UnquoteSerialized(v: JsString, tail: JsString)
    requires IsTail(tail)
    ensures UnquoteEnvValue(SerializeValue(v) + tail) == v
  {
    hide SerializeValue, DecodeValue, InlineComment, Trim;
    var s := SerializeValue(v);
    SerializedEnds(v);
    DecodeSerialized(v);
    CommentBehindValue(v, tail);
    TrimIdentity(s);
    TrimIdentity(s + tail);
    if tail == [] {
      assert s + tail == s;
    } else {
      TrimSpaceBehind(s);
      assert (s + tail)[..|s| + 1] == s + [SPACE];
    }
  }

  lemma TrimSpaceBehind(s: JsString)
    requires s != [] && !IsSpace(s[0]) && !IsSpace(s[|s| - 1])
    ensures Trim(s + [SPACE]) == s
  {
    assert (s + [SPACE])[0..] == s + [SPACE] && (s + [SPACE])[..|s|] == s;
    assert TrimEnd(s) == s;
  }

  // ------------------------------------------------------------ line terminators

  lemma TerminatorIsSpace(c: CodeUnit)
    ensures IsLineTerminator(c) ==> IsSpace(c)
  {}

  lemma RawHasNoTerminator(v: JsString)
    requires !NeedsQuotes(v)
    ensures !HasTerminator(v) && !HasSeparator(v)
  {
    forall i | 0 <= i < |v|
      ensures !IsLineTerminator(v[i])
    {
      TerminatorIsSpace(v[i]);
    }
  }

  lemma TerminatorIn(s: JsString)
    ensures HasTerminator(s) <==> exists c :: c in s && IsLineTerminator(c)
  {
    hide IsLineTerminator;
  }

  lemma StringifyTerminator(v: JsString)
    ensures HasTerminator(JsonStrings.Stringify(v)) <==> HasSeparator(v)
  {
    hide JsonStrings.EscapeBody, HasTerminator;
    var body := JsonStrings.EscapeBody(v);
    JsonStrings.EscapeTerminators(v);
    TerminatorIn(JsonStrings.Stringify(v));
    assert forall c :: c in JsonStrings.Stringify(v) <==> c == DOUBLE_QUOTE || c in body;
  }

  /** A printed value breaks the line exactly when the value holds U+2028 or U+2029. */
  lemma SerializedTerminator(v: JsString, tail: JsString)
    requires !HasTerminator(tail)
    ensures HasTerminator(SerializeValue(v) + tail) <==> HasSeparator(v)
  {
    hide JsonStrings.Stringify, NeedsQuotes;
    var s := SerializeValue(v);
    if v != [] && NeedsQuotes(v) {
      StringifyTerminator(v);
    } else if v != [] {
      RawHasNoTerminator(v);
    }
    assert HasTerminator(s + tail) <==> HasTerminator(s) by {
      forall i | 0 <= i < |s + tail|
        ensures (s + tail)[i] == if i < |s| then s[i] else tail[i - |s|]
      {}
    }
  }

  /** The comment the editor keeps is a tail without line terminators. */
  lemma KeptCommentIsTail(valuePart: JsString)
    requires !HasTerminator(valuePart)
    ensures IsTail(KeptComment(valuePart)) && !HasTerminator(KeptComment(valuePart))
  {
    hide IsLineTerminator, IsSpace;
    var index := InlineComment(valuePart);
    if index.Some? {
      var comment := valuePart[index.value..];
      var trimmed := Trim(comment);
      HashIsNotSpace();
      assert comment[0..] == comment && trimmed == TrimEnd(comment);
      TrimEndKeepsFirst(comment);
      SpaceIsNoTerminator();
      forall i | 0 <= i < |trimmed|
        ensures !IsLineTerminator(trimmed[i])
      {
        assert trimmed[i] == valuePart[index.value + i];
      }
    }
  }

  lemma HashIsNotSpace()
    ensures !IsSpace(HASH)
  {}

  lemma SpaceIsNoTerminator()
    ensures !IsLineTerminator(SPACE)
  {}

  lemma {:induction false} TrimEndKeepsFirst(s: JsString)
    requires s != [] && !IsSpace(s[0])
    ensures TrimEnd(s) != []
  {
    if IsSpace(s[|s| - 1]) {
      TrimEndKeepsFirst(s[..|s| - 1]);
    }
  }
}
