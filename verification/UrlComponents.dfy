/** Percent-encoded passwords are decoded to themselves, and fit in a URL. */
module UrlComponents {
  import opened JsStrings
  import opened EnvTopology
  import JsonStrings

  // ------------------------------------------------------------ decoding, as in section 2.1 of RFC 3986

  function HexValue(c: CodeUnit): Option<int> {
    if 0x30 <= c <= 0x39 then Some(c as int - 0x30)
    else if 0x41 <= c <= 0x46 then Some(c as int - 0x37)
    else if 0x61 <= c <= 0x66 then Some(c as int - 0x57)
    else None
  }

  /** The byte of a percent triplet and the text behind it. */
  function TakeByte(s: JsString): (r: Option<(int, JsString)>)
    ensures r.Some? ==> |r.value.1| < |s|
  {
    if |s| < 3 || s[0] as int != '%' as int || HexValue(s[1]).None? || HexValue(s[2]).None? then None
    else Some((0x10 * HexValue(s[1]).value + HexValue(s[2]).value, s[3..]))
  }

  /** The six bits of one more UTF-8 byte are appended to `n`. */
  function TakeMore(n: int, s: JsString): (r: Option<(int, JsString)>)
    ensures r.Some? ==> |r.value.1| < |s|
  {
    match TakeByte(s)
    case None => None
    case Some((b, rest)) => if 0x80 <= b < 0xC0 then Some((0x40 * n + (b - 0x80), rest)) else None
  }

  /** A scalar value from its UTF-8 bytes, as in section 3 of RFC 3629. */
  function TakeScalar(s: JsString): (r: Option<(int, JsString)>)
    ensures r.Some? ==> |r.value.1| < |s|
  {
    match TakeByte(s)
    case None => None
    case Some((b, rest)) =>
      if 0 <= b < 0x80 then Some((b, rest))
      else if 0xC0 <= b < 0xE0 then TakeMore(b - 0xC0, rest)
      else if 0xE0 <= b < 0xF0 then
        match TakeMore(b - 0xE0, rest)
        case None => None
        case Some((n, more)) => TakeMore(n, more)
      else if 0xF0 <= b < 0xF8 then
        match TakeMore(b - 0xF0, rest)
        case None => None
        case Some((n, more)) =>
          match TakeMore(n, more)
          case None => None
          case Some((m, last)) => TakeMore(m, last)
      else None
  }

  /** The UTF-16 form of a scalar value. */
  function Utf16(n: int): Option<JsString> {
    if 0 <= n < 0x1_0000 then Some([n as CodeUnit])
    else if 0x1_0000 <= n < 0x11_0000 then
      Some([(0xD800 + (n - 0x1_0000) / 0x400) as CodeUnit, (0xDC00 + (n - 0x1_0000) % 0x400) as CodeUnit])
    else None
  }

  function DecodeUrlComponent(s: JsString): Option<JsString>
    decreases |s|
  {
    if s == [] then Some([])
    else if s[0] as int != '%' as int then JsonStrings.Prepend(s[0], DecodeUrlComponent(s[1..]))
    else
      match TakeScalar(s)
      case None => None
      case Some((n, rest)) =>
        match (Utf16(n), DecodeUrlComponent(rest))
        case (Some(units), Some(decoded)) => Some(units + decoded)
        case _ => None
  }

  // ------------------------------------------------------------ one byte, one scalar value

  lemma HexDigitValue(n: int)
    requires 0 <= n < 16
    ensures HexValue(UpperHexDigit(n)) == Some(n)
  {}

  lemma TakePercent(b: int, rest: JsString)
    requires 0 <= b < 0x100
    ensures TakeByte(PercentByte(b) + rest) == Some((b, rest))
  {
    hide UpperHexDigit, HexValue;
    HexDigitValue(b / 0x10);
    HexDigitValue(b % 0x10);
    assert (PercentByte(b) + rest)[3..] == rest;
  }

  lemma TakeContinuation(n: int, k: int, rest: JsString)
    requires 0 <= k < 0x40
    ensures TakeMore(n, PercentByte(0x80 + k) + rest) == Some((0x40 * n + k, rest))
  {
    hide PercentByte, TakeByte;
    TakePercent(0x80 + k, rest);
  }

  lemma SixBits(n: int)
    ensures 0x40 * (n / 0x40) + n % 0x40 == n && n / 0x40 / 0x40 == n / 0x1000 && n / 0x1000 / 0x40 == n / 0x4_0000
  {}

  lemma TakeOne(n: int, rest: JsString)
    requires 0 <= n < 0x80
    ensures TakeScalar(PercentScalar(n) + rest) == Some((n, rest))
  {
    hide PercentByte, TakeByte, TakeMore;
    TakePercent(n, rest);
  }

  lemma TakeTwo(n: int, rest: JsString)
    requires 0x80 <= n < 0x800
    ensures TakeScalar(PercentScalar(n) + rest) == Some((n, rest))
  {
    hide PercentByte, TakeByte, TakeMore;
    var second := PercentByte(0x80 + n % 0x40) + rest;
    assert PercentScalar(n) + rest == PercentByte(0xC0 + n / 0x40) + second;
    TakePercent(0xC0 + n / 0x40, second);
    TakeContinuation(n / 0x40, n % 0x40, rest);
    SixBits(n);
  }

  lemma TakeThree(n: int, rest: JsString)
    requires 0x800 <= n < 0x1_0000
    ensures TakeScalar(PercentScalar(n) + rest) == Some((n, rest))
  {
    hide PercentByte, TakeByte, TakeMore;
    var third := PercentByte(0x80 + n % 0x40) + rest;
    var second := PercentByte(0x80 + n / 0x40 % 0x40) + third;
    assert PercentScalar(n) + rest == PercentByte(0xE0 + n / 0x1000) + second;
    TakePercent(0xE0 + n / 0x1000, second);
    TakeContinuation(n / 0x1000, n / 0x40 % 0x40, third);
    TakeContinuation(n / 0x40, n % 0x40, rest);
    SixBits(n);
    SixBits(n / 0x40);
  }

  lemma TakeFour(n: int, rest: JsString)
    requires 0x1_0000 <= n < 0x11_0000
    ensures TakeScalar(PercentScalar(n) + rest) == Some((n, rest))
  {
    hide PercentByte, TakeByte, TakeMore;
    var fourth := PercentByte(0x80 + n % 0x40) + rest;
    var third := PercentByte(0x80 + n / 0x40 % 0x40) + fourth;
    var second := PercentByte(0x80 + n / 0x1000 % 0x40) + third;
    assert PercentScalar(n) + rest == PercentByte(0xF0 + n / 0x4_0000) + second;
    TakePercent(0xF0 + n / 0x4_0000, second);
    TakeContinuation(n / 0x4_0000, n / 0x1000 % 0x40, third);
    TakeContinuation(n / 0x1000, n / 0x40 % 0x40, fourth);
    TakeContinuation(n / 0x40, n % 0x40, rest);
    SixBits(n);
    SixBits(n / 0x40);
    SixBits(n / 0x1000);
  }

  lemma TakeEncoded(n: int, rest: JsString)
    requires 0 <= n < 0x11_0000
    ensures TakeScalar(PercentScalar(n) + rest) == Some((n, rest))
    ensures PercentScalar(n) != [] && PercentScalar(n)[0] as int == '%' as int
  {
    hide TakeScalar;
    if n < 0x80 {
      TakeOne(n, rest);
    } else if n < 0x800 {
      TakeTwo(n, rest);
    } else if n < 0x1_0000 {
      TakeThree(n, rest);
    } else {
      TakeFour(n, rest);
    }
  }

  // ------------------------------------------------------------ the round trip

  lemma DecodeEncoded(n: int, rest: JsString)
    requires 0 <= n < 0x11_0000 && DecodeUrlComponent(rest).Some?
    ensures DecodeUrlComponent(PercentScalar(n) + rest) == Some(Utf16(n).value + DecodeUrlComponent(rest).value)
  {
    hide PercentScalar, TakeScalar;
    TakeEncoded(n, rest);
  }

  lemma DecodePlain(c: CodeUnit, rest: JsString)
    requires Unreserved(c)
    ensures DecodeUrlComponent([c] + rest) == JsonStrings.Prepend(c, DecodeUrlComponent(rest))
  {
    assert ([c] + rest)[1..] == rest;
  }

  function Pair(high: CodeUnit, low: CodeUnit): int {
    0x1_0000 + (high as int - 0xD800) * 0x400 + (low as int - 0xDC00)
  }

  lemma PairIs(high: CodeUnit, low: CodeUnit)
    requires JsonStrings.IsHighSurrogate(high) && JsonStrings.IsLowSurrogate(low)
    ensures 0x1_0000 <= Pair(high, low) < 0x11_0000 && Utf16(Pair(high, low)) == Some([high, low])
  {
    var n := (high as int - 0xD800) * 0x400 + (low as int - 0xDC00);
    assert n / 0x400 == high as int - 0xD800 && n % 0x400 == low as int - 0xDC00;
  }

  lemma EncodeCons(s: JsString)
    requires s != []
    ensures EncodeUrlComponent(s) ==
            if Unreserved(s[0]) then JsonStrings.Prepend(s[0], EncodeUrlComponent(s[1..]))
            else if |s| > 1 && JsonStrings.IsHighSurrogate(s[0]) && JsonStrings.IsLowSurrogate(s[1]) then
              match EncodeUrlComponent(s[2..])
              case None => None
              case Some(rest) => Some(PercentScalar(Pair(s[0], s[1])) + rest)
            else if JsonStrings.IsHighSurrogate(s[0]) || JsonStrings.IsLowSurrogate(s[0]) then None
            else
              match EncodeUrlComponent(s[1..])
              case None => None
              case Some(rest) => Some(PercentScalar(s[0] as int) + rest)
  {
    hide Unreserved, PercentScalar;
  }

  /** Decoding gives the encoded text back. */
  lemma {:induction false} DecodeEncode(s: JsString)
    requires EncodeUrlComponent(s).Some?
    ensures DecodeUrlComponent(EncodeUrlComponent(s).value) == Some(s)
    decreases |s|
  {
    hide Unreserved, PercentScalar, EncodeUrlComponent, DecodeUrlComponent, JsonStrings.IsHighSurrogate, JsonStrings.IsLowSurrogate;
    if s == [] {
      NothingEncoded();
    } else if Unreserved(s[0]) {
      EncodeCons(s);
      DecodeEncode(s[1..]);
      DecodePlain(s[0], EncodeUrlComponent(s[1..]).value);
      assert s == [s[0]] + s[1..];
    } else if |s| > 1 && JsonStrings.IsHighSurrogate(s[0]) && JsonStrings.IsLowSurrogate(s[1]) {
      EncodeCons(s);
      DecodeEncode(s[2..]);
      PairIs(s[0], s[1]);
      DecodeEncoded(Pair(s[0], s[1]), EncodeUrlComponent(s[2..]).value);
      assert s == [s[0], s[1]] + s[2..];
    } else {
      EncodeCons(s);
      DecodeEncode(s[1..]);
      DecodeEncoded(s[0] as int, EncodeUrlComponent(s[1..]).value);
      assert s == [s[0]] + s[1..];
    }
  }

  lemma NothingEncoded()
    ensures EncodeUrlComponent([]) == Some([]) && DecodeUrlComponent([]) == Some([])
  {}

  // ------------------------------------------------------------ what is encoded, and how it looks

  /** A surrogate at this place is half of a pair. */
  predicate Paired(s: JsString, i: nat)
    requires i < |s|
  {
    && (0xD800 <= s[i] < 0xDC00 ==> i + 1 < |s| && 0xDC00 <= s[i + 1] < 0xE000)
    && (0xDC00 <= s[i] < 0xE000 ==> i > 0 && 0xD800 <= s[i - 1] < 0xDC00)
  }

  ghost predicate PairedSurrogates(s: JsString) {
    forall i :: 0 <= i < |s| ==> Paired(s, i)
  }

  predicate IsSurrogate(c: CodeUnit) {
    0xD800 <= c < 0xE000
  }

  lemma PlainFirst(s: JsString)
    requires s != [] && !IsSurrogate(s[0])
    ensures PairedSurrogates(s) <==> PairedSurrogates(s[1..])
  {
    var rest := s[1..];
    assert forall i :: 0 <= i < |rest| ==> (Paired(s, i + 1) <==> Paired(rest, i));
    if PairedSurrogates(rest) {
      assert forall i :: 0 < i < |s| ==> (Paired(s, i) <==> Paired(rest, i - 1));
    }
  }

  lemma PairFirst(s: JsString)
    requires |s| > 1 && 0xD800 <= s[0] < 0xDC00 <= s[1] < 0xE000
    ensures PairedSurrogates(s) <==> PairedSurrogates(s[2..])
  {
    var rest := s[2..];
    assert forall i :: 0 <= i < |rest| ==> (Paired(s, i + 2) <==> Paired(rest, i));
    if PairedSurrogates(rest) {
      assert forall i :: 1 < i < |s| ==> (Paired(s, i) <==> Paired(rest, i - 2));
    }
  }

  /** Encoding fails exactly on a lone surrogate. */
  lemma {:induction false} EncodesExactly(s: JsString)
    ensures EncodeUrlComponent(s).Some? <==> PairedSurrogates(s)
    decreases |s|
  {
    hide EncodeUrlComponent, PercentScalar, PairedSurrogates;
    if s == [] {
      NothingEncoded();
      NothingIsPaired();
    } else {
      EncodeCons(s);
      if !IsSurrogate(s[0]) {
        PlainFirst(s);
        EncodesExactly(s[1..]);
      } else if |s| > 1 && 0xD800 <= s[0] < 0xDC00 <= s[1] < 0xE000 {
        PairFirst(s);
        EncodesExactly(s[2..]);
      } else {
        LoneFirst(s);
      }
    }
  }

  lemma NothingIsPaired()
    ensures PairedSurrogates([])
  {}

  lemma LoneFirst(s: JsString)
    requires s != [] && IsSurrogate(s[0])
    requires |s| > 1 ==> !(0xD800 <= s[0] < 0xDC00 <= s[1] < 0xE000)
    ensures !PairedSurrogates(s)
  {
    assert !Paired(s, 0);
  }

  /** Nothing in the encoded text can be taken for a delimiter of a URL: letters, digits, `-`, `.`, `_`, `~` and `%`. */
  predicate UrlSafe(c: CodeUnit) {
    || 0x30 <= c <= 0x39 || 0x41 <= c <= 0x5A || 0x61 <= c <= 0x7A
    || c as int in {'-' as int, '.' as int, '_' as int, '~' as int, '%' as int}
  }

  lemma PercentIsSafe(n: int)
    requires 0 <= n < 0x11_0000
    ensures forall c :: c in PercentScalar(n) ==> UrlSafe(c)
  {
    hide PercentByte;
    forall b | 0 <= b < 0x100
      ensures forall c :: c in PercentByte(b) ==> UrlSafe(c)
    {
      ByteIsSafe(b);
    }
  }

  lemma ByteIsSafe(b: int)
    requires 0 <= b < 0x100
    ensures forall c :: c in PercentByte(b) ==> UrlSafe(c)
  {}

  lemma {:induction false} EncodedIsSafe(s: JsString)
    requires EncodeUrlComponent(s).Some?
    ensures forall c :: c in EncodeUrlComponent(s).value ==> UrlSafe(c)
    decreases |s|
  {
    hide EncodeUrlComponent, PercentScalar, UrlSafe, JsonStrings.IsHighSurrogate, JsonStrings.IsLowSurrogate, Unreserved;
    if s == [] {
      NothingEncoded();
    } else {
      EncodeCons(s);
      if Unreserved(s[0]) {
        EncodedIsSafe(s[1..]);
        UnreservedIsSafe(s[0]);
      } else if |s| > 1 && JsonStrings.IsHighSurrogate(s[0]) && JsonStrings.IsLowSurrogate(s[1]) {
        EncodedIsSafe(s[2..]);
        PairIs(s[0], s[1]);
        PercentIsSafe(Pair(s[0], s[1]));
      } else {
        EncodedIsSafe(s[1..]);
        PercentIsSafe(s[0] as int);
      }
    }
  }

  lemma UnreservedIsSafe(c: CodeUnit)
    ensures Unreserved(c) ==> UrlSafe(c)
  {}
}
