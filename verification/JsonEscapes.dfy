/** The escapes of JSON strings, as section 7 of RFC 8259 lists them: how each is read, and which are written. */
module JsonEscapes {
  import opened JsStrings
  import opened JsonStrings

  // ------------------------------------------------------------ reading

  const ESCAPE_LETTERS := Js("\"\\/bfnrt")

  const ESCAPED_UNITS: JsString := [0x22, 0x5C, 0x2F, 0x08, 0x0C, 0x0A, 0x0D, 0x09]

  const LOWER_HEX := Js("0123456789abcdef")
  const UPPER_HEX := Js("0123456789ABCDEF")

  /** The digit `n`, in either case. */
  predicate IsHexDigit(c: CodeUnit, n: int) {
    0 <= n < 16 && (c == LOWER_HEX[n] || c == UPPER_HEX[n])
  }

  lemma HexUnits(n: int)
    requires 0 <= n < 16
    ensures LOWER_HEX[n] as int == if n < 10 then 0x30 + n else 0x57 + n
    ensures UPPER_HEX[n] as int == if n < 10 then 0x30 + n else 0x37 + n
  {}

  lemma HexExactly(c: CodeUnit, n: int)
    ensures HexValue(c) == Some(n) <==> IsHexDigit(c, n)
  {
    hide LOWER_HEX, UPPER_HEX;
    if 0 <= n < 16 {
      HexUnits(n);
    }
  }

  /** The two-unit escapes. */
  lemma LettersExactly(k: nat, rest: JsString)
    requires k < |ESCAPE_LETTERS|
    ensures |ESCAPE_LETTERS| == |ESCAPED_UNITS|
    ensures ParseBody([BACKSLASH, ESCAPE_LETTERS[k]] + rest) == Prepend(ESCAPED_UNITS[k], ParseBody(rest))
  {
    hide Prepend;
    var s := [BACKSLASH, ESCAPE_LETTERS[k]] + rest;
    assert s[2..] == rest;
    LetterUnits(k);
  }

  lemma LetterUnits(k: nat)
    requires k < |ESCAPE_LETTERS|
    ensures SimpleEscape(ESCAPE_LETTERS[k]) == Some(ESCAPED_UNITS[k]) && ESCAPE_LETTERS[k] != LOWER_U
  {}

  /** The four digits behind `u` give the unit with that number. */
  lemma UnicodeExactly(h: CodeUnit, i: CodeUnit, j: CodeUnit, k: CodeUnit, a: int, b: int, c: int, d: int, rest: JsString)
    requires IsHexDigit(h, a) && IsHexDigit(i, b) && IsHexDigit(j, c) && IsHexDigit(k, d)
    ensures 0 <= 0x1000 * a + 0x100 * b + 0x10 * c + d < 0x1_0000
    ensures ParseBody([BACKSLASH, LOWER_U, h, i, j, k] + rest)
         == Prepend((0x1000 * a + 0x100 * b + 0x10 * c + d) as CodeUnit, ParseBody(rest))
  {
    hide Prepend, HexValue, IsHexDigit;
    InRange(h, a);
    InRange(i, b);
    InRange(j, c);
    InRange(k, d);
    var s := [BACKSLASH, LOWER_U, h, i, j, k] + rest;
    assert s[6..] == rest;
  }

  lemma InRange(c: CodeUnit, n: int)
    requires IsHexDigit(c, n)
    ensures 0 <= n < 16 && HexValue(c) == Some(n)
  {
    HexExactly(c, n);
  }

  /** Other units stand for themselves; control units, and anything behind the closing quote, are errors. */
  lemma PlainExactly(c: CodeUnit, rest: JsString)
    ensures c as int < ' ' as int ==> ParseBody([c] + rest) == None
    ensures c as int >= ' ' as int && c as int !in {'"' as int, '\\' as int} ==>
              ParseBody([c] + rest) == Prepend(c, ParseBody(rest))
    ensures c as int == '"' as int ==> ParseBody([c] + rest) == if rest == [] then Some([]) else None
    ensures ParseBody([]) == None
  {
    assert ([c] + rest)[1..] == rest;
  }

  /** A backslash in front of anything else is an error. */
  lemma OtherEscapesFail(s: JsString)
    requires s != [] && s[0] == BACKSLASH
    requires |s| == 1 || (s[1] !in ESCAPE_LETTERS && (s[1] != LOWER_U || |s| < 6
               || exists k :: 2 <= k < 6 && HexValue(s[k]) == None))
    ensures ParseBody(s) == None
  {
    if |s| > 1 && s[1] !in ESCAPE_LETTERS {
      OtherLetters(s[1]);
    }
    hide ESCAPE_LETTERS, HexValue, Prepend, SimpleEscape;
  }

  lemma OtherLetters(c: CodeUnit)
    requires c !in ESCAPE_LETTERS
    ensures SimpleEscape(c) == None
  {
    assert ESCAPE_LETTERS[0] == DOUBLE_QUOTE && ESCAPE_LETTERS[1] == BACKSLASH && ESCAPE_LETTERS[2] == SLASH;
    assert ESCAPE_LETTERS[3] == LOWER_B && ESCAPE_LETTERS[4] == LOWER_F && ESCAPE_LETTERS[5] == LOWER_N;
    assert ESCAPE_LETTERS[6] == LOWER_R && ESCAPE_LETTERS[7] == LOWER_T;
  }

  // ------------------------------------------------------------ writing

  /** Nothing is escaped but quotes, backslashes, control units and lone surrogates. */
  lemma WritesExactly(c: CodeUnit)
    ensures EscapeUnit(c) == [c] <==>
              && c as int >= ' ' as int && c as int !in {'"' as int, '\\' as int}
              && !(0xD800 <= c <= 0xDFFF)
  {}
}
