/** JSON string literals: section 7 of RFC 8259 as JSON.stringify and JSON.parse implement it. */
module JsonStrings {
  import opened JsStrings

  const LOWER_B: CodeUnit := 0x62
  const LOWER_F: CodeUnit := 0x66
  const LOWER_N: CodeUnit := 0x6E
  const LOWER_R: CodeUnit := 0x72
  const LOWER_T: CodeUnit := 0x74
  const LOWER_U: CodeUnit := 0x75

  predicate IsHighSurrogate(c: CodeUnit) {
    0xD800 <= c <= 0xDBFF
  }

  predicate IsLowSurrogate(c: CodeUnit) {
    0xDC00 <= c <= 0xDFFF
  }

  function HexDigit(n: int): CodeUnit
    requires 0 <= n < 16
  {
    if n < 10 then (0x30 + n) as CodeUnit else (0x57 + n) as CodeUnit
  }

  function HexValue(c: CodeUnit): Option<int> {
    if IsDigit(c) then Some(c as int - 0x30)
    else if 0x41 <= c <= 0x46 then Some(c as int - 0x37)
    else if 0x61 <= c <= 0x66 then Some(c as int - 0x57)
    else None
  }

  function Hex4(c: CodeUnit): JsString {
    var n := c as int;
    [HexDigit(n / 0x1000), HexDigit(n / 0x100 % 0x10), HexDigit(n / 0x10 % 0x10), HexDigit(n % 0x10)]
  }

  function EscapeUnit(c: CodeUnit): JsString {
    if c == 0x08 then [BACKSLASH, LOWER_B]
    else if c == TAB then [BACKSLASH, LOWER_T]
    else if c == LF then [BACKSLASH, LOWER_N]
    else if c == 0x0C then [BACKSLASH, LOWER_F]
    else if c == CR then [BACKSLASH, LOWER_R]
    else if c == DOUBLE_QUOTE || c == BACKSLASH then [BACKSLASH, c]
    else if c < 0x20 || IsHighSurrogate(c) || IsLowSurrogate(c) then [BACKSLASH, LOWER_U] + Hex4(c)
    else [c]
  }

  /** The inside of JSON.stringify(s): surrogate pairs stay, lone surrogates are escaped. */
  function EscapeBody(s: JsString): JsString
    decreases |s|
  {
    if s == [] then []
    else if |s| > 1 && IsHighSurrogate(s[0]) && IsLowSurrogate(s[1]) then [s[0], s[1]] + EscapeBody(s[2..])
    else EscapeUnit(s[0]) + EscapeBody(s[1..])
  }

  function Stringify(s: JsString): JsString {
    [DOUBLE_QUOTE] + (EscapeBody(s) + [DOUBLE_QUOTE])
  }

  function Prepend(c: CodeUnit, rest: Option<JsString>): Option<JsString> {
    match rest
    case None => None
    case Some(s) => Some([c] + s)
  }

  function SimpleEscape(c: CodeUnit): Option<CodeUnit> {
    if c == DOUBLE_QUOTE || c == BACKSLASH || c == SLASH then Some(c)
    else if c == LOWER_B then Some(0x08)
    else if c == LOWER_F then Some(0x0C)
    else if c == LOWER_N then Some(LF)
    else if c == LOWER_R then Some(CR)
    else if c == LOWER_T then Some(TAB)
    else None
  }

  function UnicodeEscape(h: CodeUnit, i: CodeUnit, j: CodeUnit, k: CodeUnit): Option<CodeUnit> {
    match (HexValue(h), HexValue(i), HexValue(j), HexValue(k))
    case (Some(a), Some(b), Some(c), Some(d)) =>
      var n := a * 0x1000 + b * 0x100 + c * 0x10 + d;
      if 0 <= n < 0x1_0000 then Some(n as CodeUnit) else None
    case _ => None
  }

  /** What follows the opening quote: characters up to a closing quote that ends the text. */
  function ParseBody(s: JsString): Option<JsString>
    decreases |s|
  {
    if s == [] || s[0] < 0x20 then None
    else if s[0] == DOUBLE_QUOTE then (if |s| == 1 then Some([]) else None)
    else if s[0] != BACKSLASH then Prepend(s[0], ParseBody(s[1..]))
    else if |s| == 1 then None
    else if s[1] == LOWER_U then
      if |s| < 6 then None
      else
        match UnicodeEscape(s[2], s[3], s[4], s[5])
        case None => None
        case Some(c) => Prepend(c, ParseBody(s[6..]))
    else
      match SimpleEscape(s[1])
      case None => None
      case Some(c) => Prepend(c, ParseBody(s[2..]))
  }

  /** JSON.parse of a text that starts with a quote: its value, or None for a syntax error. */
  function Parse(s: JsString): Option<JsString> {
    if s == [] || s[0] != DOUBLE_QUOTE then None else ParseBody(s[1..])
  }

  lemma HexDigitValue(n: int)
    requires 0 <= n < 16
    ensures HexValue(HexDigit(n)) == Some(n)
  {}

  lemma DivideTwice(n: int)
    ensures n / 0x10 / 0x10 == n / 0x100 && n / 0x100 / 0x10 == n / 0x1000
  {}

  lemma HexDigitsOf(n: int)
    ensures n == n / 0x1000 * 0x1000 + n / 0x100 % 0x10 * 0x100 + n / 0x10 % 0x10 * 0x10 + n % 0x10
  {
    DivideTwice(n);
    LastDigit(n);
    LastDigit(n / 0x10);
    LastDigit(n / 0x100);
  }

  lemma LastDigit(n: int)
    ensures n == n / 0x10 * 0x10 + n % 0x10
  {}

  lemma UnicodeEscapeOfHex4(c: CodeUnit)
    ensures UnicodeEscape(Hex4(c)[0], Hex4(c)[1], Hex4(c)[2], Hex4(c)[3]) == Some(c)
  {
    hide HexDigit, HexValue;
    var n := c as int;
    HexDigitsOf(n);
    HexDigitValue(n / 0x1000);
    HexDigitValue(n / 0x100 % 0x10);
    HexDigitValue(n / 0x10 % 0x10);
    HexDigitValue(n % 0x10);
  }

  lemma ParseUnicode(c: CodeUnit, rest: JsString)
    ensures ParseBody(([BACKSLASH, LOWER_U] + Hex4(c)) + rest) == Prepend(c, ParseBody(rest))
  {
    hide UnicodeEscape, HexDigit;
    var s := ([BACKSLASH, LOWER_U] + Hex4(c)) + rest;
    UnicodeEscapeOfHex4(c);
    assert s[6..] == rest;
  }

  lemma ParseUnit(c: CodeUnit, rest: JsString)
    ensures ParseBody(EscapeUnit(c) + rest) == Prepend(c, ParseBody(rest))
  {
    hide Hex4, UnicodeEscape;
    var s := EscapeUnit(c) + rest;
    if EscapeUnit(c) == [BACKSLASH, LOWER_U] + Hex4(c) {
      ParseUnicode(c, rest);
    } else if |EscapeUnit(c)| == 1 {
      ParsePlain(c, rest);
    } else {
      assert s[2..] == rest;
    }
  }

  lemma ParseClosing()
    ensures ParseBody([DOUBLE_QUOTE]) == Some([])
  {}

  lemma ParsePlain(c: CodeUnit, rest: JsString)
    requires c >= 0x20 && c != DOUBLE_QUOTE && c != BACKSLASH
    ensures ParseBody([c] + rest) == Prepend(c, ParseBody(rest))
  {
    assert ([c] + rest)[1..] == rest;
  }

  lemma ParsePair(high: CodeUnit, low: CodeUnit, rest: JsString)
    requires IsHighSurrogate(high) && IsLowSurrogate(low)
    ensures ParseBody([high, low] + rest) == Prepend(high, Prepend(low, ParseBody(rest)))
  {
    assert [high, low] + rest == [high] + ([low] + rest);
    ParsePlain(low, rest);
    ParsePlain(high, [low] + rest);
  }

  lemma {:induction false} ParseEscaped(s: JsString)
    ensures ParseBody(EscapeBody(s) + [DOUBLE_QUOTE]) == Some(s)
    decreases |s|
  {
    hide ParseBody, EscapeUnit, IsHighSurrogate, IsLowSurrogate;
    if s == [] {
      assert EscapeBody(s) + [DOUBLE_QUOTE] == [DOUBLE_QUOTE];
      ParseClosing();
    } else if |s| > 1 && IsHighSurrogate(s[0]) && IsLowSurrogate(s[1]) {
      var rest := EscapeBody(s[2..]) + [DOUBLE_QUOTE];
      ParseEscaped(s[2..]);
      assert EscapeBody(s) + [DOUBLE_QUOTE] == [s[0], s[1]] + rest;
      ParsePair(s[0], s[1], rest);
      assert s == [s[0]] + ([s[1]] + s[2..]);
    } else {
      ParseEscaped(s[1..]);
      ParseUnit(s[0], EscapeBody(s[1..]) + [DOUBLE_QUOTE]);
      assert s == [s[0]] + s[1..];
      assert EscapeBody(s) + [DOUBLE_QUOTE] == EscapeUnit(s[0]) + (EscapeBody(s[1..]) + [DOUBLE_QUOTE]);
    }
  }

  /** JSON.parse(JSON.stringify(s)) is s for every string. */
  lemma ParseStringify(s: JsString)
    ensures Parse(Stringify(s)) == Some(s)
  {
    ParseEscaped(s);
    assert Stringify(s)[1..] == EscapeBody(s) + [DOUBLE_QUOTE];
  }

  /** The only line terminators in a literal are the separators that were in the string already. */
  lemma {:induction false} EscapeTerminators(s: JsString)
    ensures forall c :: c in EscapeBody(s) && IsLineTerminator(c) ==> c in s && (c == LINE_SEPARATOR || c == PARAGRAPH_SEPARATOR)
    ensures forall c :: c in s && (c == LINE_SEPARATOR || c == PARAGRAPH_SEPARATOR) ==> c in EscapeBody(s)
    decreases |s|
  {
    if s == [] {
    } else if |s| > 1 && IsHighSurrogate(s[0]) && IsLowSurrogate(s[1]) {
      EscapeTerminators(s[2..]);
      assert s == [s[0], s[1]] + s[2..];
    } else {
      EscapeTerminators(s[1..]);
      assert s == [s[0]] + s[1..];
    }
  }
}
