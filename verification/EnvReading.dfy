/** How the launcher reads values that were written by hand: without quotes, in single quotes, or in broken double quotes. */
module EnvReading {
  import opened JsStrings
  import opened Dotenv
  import JsonStrings

  // ------------------------------------------------------------ escaped quotes

  /** Exactly `count` backslashes stand in front of the place. */
  predicate BackslashesBefore(value: JsString, index: nat, count: nat)
    requires index <= |value|
  {
    && count <= index
    && (forall i :: index - count <= i < index ==> value[i] as int == '\\' as int)
    && (count < index ==> value[index - count - 1] as int != '\\' as int)
  }

  lemma {:induction false} OddExactly(value: JsString, index: nat, count: nat)
    requires index <= |value| && BackslashesBefore(value, index, count)
    ensures OddBackslashRunBefore(value, index) <==> count % 2 == 1
    decreases index
  {
    if count > 0 {
      OddExactly(value, index - 1, count - 1);
    }
  }

  /** A quote that closes: an even number of backslashes stands in front of it. */
  ghost predicate Closes(value: JsString, quote: CodeUnit, i: nat) {
    i < |value| && value[i] == quote && exists count :: BackslashesBefore(value, i, count) && count % 2 == 0
  }

  lemma {:induction false} RunLength(value: JsString, index: nat) returns (count: nat)
    requires index <= |value|
    ensures BackslashesBefore(value, index, count)
    decreases index
  {
    count := 0;
    if index > 0 && value[index - 1] == BACKSLASH {
      var shorter := RunLength(value, index - 1);
      count := shorter + 1;
    }
  }

  lemma ClosesExactly(value: JsString, quote: CodeUnit, i: nat)
    ensures Closes(value, quote, i) <==> i < |value| && value[i] == quote && !OddBackslashRunBefore(value, i)
  {
    hide OddBackslashRunBefore, BackslashesBefore;
    if i < |value| {
      var count := RunLength(value, i);
      forall n | BackslashesBefore(value, i, n)
        ensures OddBackslashRunBefore(value, i) <==> n % 2 == 1
      {
        OddExactly(value, i, n);
      }
    }
  }

  /** The first quote that closes, or the end of the value. */
  lemma {:induction false} ClosingExactly(value: JsString, quote: CodeUnit, from: nat)
    requires from <= |value|
    ensures var i := ClosingIndex(value, quote, from);
            && (i < |value| ==> Closes(value, quote, i))
            && forall j :: from <= j < i ==> !Closes(value, quote, j)
    decreases |value| - from
  {
    hide Closes;
    ClosesExactly(value, quote, from);
    if from < |value| && !(value[from] == quote && !OddBackslashRunBefore(value, from)) {
      ClosingExactly(value, quote, from + 1);
    }
  }

  // ------------------------------------------------------------ replacing

  lemma EscapeCons(c: CodeUnit, s: JsString)
    ensures EscapeQuotes([c] + s) == (if c as int == '"' as int then Js("\\\"") else [c]) + EscapeQuotes(s)
    ensures EscapeQuotes([]) == []
  {
    assert ([c] + s)[1..] == s;
    assert Js("\\\"") == [BACKSLASH, DOUBLE_QUOTE];
  }

  /** An escaped unit loses its backslash; every other unit stays. */
  lemma DropCons(c: CodeUnit, s: JsString, escaped: CodeUnit)
    ensures DropEscape([BACKSLASH, escaped] + s, escaped) == [escaped] + DropEscape(s, escaped)
    ensures c as int != '\\' as int || s == [] || s[0] != escaped ==>
              DropEscape([c] + s, escaped) == [c] + DropEscape(s, escaped)
    ensures DropEscape([], escaped) == []
  {
    var pair := [BACKSLASH, escaped] + s;
    assert pair[2..] == s;
    assert ([c] + s)[1..] == s;
  }

  // ------------------------------------------------------------ values

  /** A value that begins with no quote is taken as it is. */
  lemma BareReads(value: JsString)
    requires value == [] || value[0] as int !in {'"' as int, '\'' as int}
    ensures DecodeValue(value) == value
  {}

  /** A value in single quotes is what stands before the quote that closes, and all of it when none does. */
  lemma SingleQuotedReads(value: JsString, end: nat)
    requires value != [] && value[0] as int == '\'' as int && 1 <= end <= |value|
    requires end < |value| ==> Closes(value, value[0], end)
    requires forall i :: 1 <= i < end ==> !Closes(value, value[0], i)
    ensures DecodeValue(value) == value[1..end]
  {
    hide ClosingIndex, Closes;
    ClosingExactly(value, value[0], 1);
    assert ClosingIndex(value, value[0], 1) == end;
  }

  /**
   A value in double quotes that is no JSON string ends in the same way. With its
   quotes escaped it is tried as one again; failing that, escaped quotes and
   backslashes lose their backslash.
   */
  lemma BrokenQuotesRead(value: JsString, end: nat)
    requires value != [] && value[0] as int == '"' as int && 1 <= end <= |value|
    requires value[|value| - 1] as int == '"' as int ==> JsonStrings.Parse(value) == None
    requires end < |value| ==> Closes(value, value[0], end)
    requires forall i :: 1 <= i < end ==> !Closes(value, value[0], i)
    ensures var inner := value[1..end];
            var again := JsonStrings.Parse(Js("\"") + EscapeQuotes(inner) + Js("\""));
            DecodeValue(value) == if again.Some? then again.value
                                  else DropEscape(DropEscape(inner, Js("\"")[0]), Js("\\")[0])
  {
    hide ClosingIndex, Closes, JsonStrings.Parse, EscapeQuotes, DropEscape;
    ClosingExactly(value, value[0], 1);
    assert ClosingIndex(value, value[0], 1) == end;
    assert Js("\"") == [DOUBLE_QUOTE] && Js("\\") == [BACKSLASH];
  }
}
