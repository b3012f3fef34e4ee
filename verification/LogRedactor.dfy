/**
 The streaming log redactor of electron/server-manager.js.

 Output is a sequence of tokens, so that a secret spelled like the marker
 cannot be confused with the marker itself.
 */
module LogRedactor {
  import opened JsStrings

  datatype Token = Lit(unit: CodeUnit) | Redacted

  // ------------------------------------------------------------ secrets

  /** Regular-expression alternatives: non-empty, tried from the longest to the shortest. */
  ghost predicate Alternatives(secrets: seq<JsString>) {
    && (forall i :: 0 <= i < |secrets| ==> secrets[i] != [])
    && (forall i, j :: 0 <= i < j < |secrets| ==> |secrets[i]| >= |secrets[j]|)
  }

  function InsertByLength(secrets: seq<JsString>, s: JsString): (r: seq<JsString>)
    requires Alternatives(secrets) && s != []
    ensures Alternatives(r)
    ensures forall x :: x in r <==> x in secrets || x == s
    ensures forall i :: 0 <= i < |r| ==> |r[i]| <= |s| || (secrets != [] && |r[i]| <= |secrets[0]|)
  {
    if secrets == [] then [s]
    else if |secrets[0]| < |s| then [s] + secrets
    else
      var tail := InsertByLength(secrets[1..], s);
      assert forall x :: x in secrets <==> x == secrets[0] || x in secrets[1..];
      [secrets[0]] + tail
  }

  /** Deduplicate, drop empty values and sort by decreasing length. */
  function NormalizeSecrets(values: seq<JsString>): (r: seq<JsString>)
    ensures Alternatives(r)
    ensures forall x :: x in r <==> x in values && x != []
    decreases |values|
  {
    if values == [] then []
    else
      var last := values[|values| - 1];
      var front := values[..|values| - 1];
      assert values == front + [last];
      var r := NormalizeSecrets(front);
      if last == [] || last in r then r else InsertByLength(r, last)
  }

  // ------------------------------------------------------------ matching

  /** Length of the first alternative that matches at the start of `text`, 0 when none does. */
  function MatchLength(secrets: seq<JsString>, text: JsString): (n: nat)
    ensures n <= |text|
  {
    if secrets == [] then 0
    else if secrets[0] <= text then |secrets[0]|
    else MatchLength(secrets[1..], text)
  }

  /** A match is a secret, and no secret that matches at the same place is longer. */
  lemma {:induction false} LongestMatch(secrets: seq<JsString>, text: JsString)
    requires Alternatives(secrets)
    ensures var n := MatchLength(secrets, text);
            && (n > 0 ==> text[..n] in secrets)
            && (forall s :: s in secrets && s <= text ==> 0 < |s| <= n)
  {
    if secrets != [] {
      if secrets[0] <= text {
        assert text[..|secrets[0]|] == secrets[0];
      } else {
        LongestMatch(secrets[1..], text);
        assert forall s :: s in secrets ==> s == secrets[0] || s in secrets[1..];
      }
    }
  }

  predicate MatchesAt(secrets: seq<JsString>, text: JsString, i: nat)
    requires i <= |text|
  {
    MatchLength(secrets, text[i..]) > 0
  }

  /** Index of the leftmost match at or after `from`, |text| when there is none. */
  function NextMatch(secrets: seq<JsString>, text: JsString, from: nat): (i: nat)
    requires from <= |text|
    ensures from <= i <= |text|
    ensures forall j :: from <= j < i ==> !MatchesAt(secrets, text, j)
    ensures i < |text| ==> MatchesAt(secrets, text, i)
    decreases |text| - from
  {
    if from == |text| || MatchesAt(secrets, text, from) then from
    else NextMatch(secrets, text, from + 1)
  }

  function Lits(text: JsString): (r: seq<Token>)
    ensures |r| == |text|
    ensures forall i :: 0 <= i < |text| ==> r[i] == Lit(text[i])
  {
    seq(|text|, i requires 0 <= i < |text| => Lit(text[i]))
  }

  /** One-shot redaction of a complete text: leftmost matches, longest alternative first. */
  function Redact(secrets: seq<JsString>, text: JsString): seq<Token>
    requires Alternatives(secrets)
    decreases |text|
  {
    if text == [] then []
    else
      var n := MatchLength(secrets, text);
      if n > 0 then [Redacted] + Redact(secrets, text[n..])
      else [Lit(text[0])] + Redact(secrets, text[1..])
  }

  // ------------------------------------------------------------ one call

  /** Where the match loop started at `cursor` leaves the cursor: after the last match. */
  function ScanEnd(secrets: seq<JsString>, text: JsString, cursor: nat): (end: nat)
    requires Alternatives(secrets) && cursor <= |text|
    ensures cursor <= end <= |text|
    decreases |text| - cursor
  {
    var i := NextMatch(secrets, text, cursor);
    if i == |text| then cursor else ScanEnd(secrets, text, i + MatchLength(secrets, text[i..]))
  }

  /** What the match loop started at `cursor` emits. */
  function ScanOutput(secrets: seq<JsString>, text: JsString, cursor: nat): (tokens: seq<Token>)
    requires Alternatives(secrets) && cursor <= |text|
    decreases |text| - cursor
  {
    var i := NextMatch(secrets, text, cursor);
    if i == |text| then []
    else
      Lits(text[cursor..i]) + ([Redacted] + ScanOutput(secrets, text, i + MatchLength(secrets, text[i..])))
  }

  function Suffix(text: JsString, length: nat): (r: JsString)
    requires length <= |text|
    ensures |r| == length
  {
    text[|text| - length..]
  }

  predicate BeginsSecret(secrets: seq<JsString>, text: JsString) {
    exists i :: 0 <= i < |secrets| && text <= secrets[i]
  }

  /** The longest suffix of at most `bound` units that some secret starts with. */
  function RetainedLength(secrets: seq<JsString>, text: JsString, bound: nat): (k: nat)
    requires bound <= |text|
    ensures k <= bound
    ensures k > 0 ==> BeginsSecret(secrets, Suffix(text, k))
    ensures forall m :: k < m <= bound ==> !BeginsSecret(secrets, Suffix(text, m))
    decreases bound
  {
    if bound == 0 || BeginsSecret(secrets, Suffix(text, bound)) then bound
    else RetainedLength(secrets, text, bound - 1)
  }

  function RetainBound(secrets: seq<JsString>, text: JsString): (b: nat)
    ensures b <= |text|
  {
    var longest := if secrets == [] || secrets[0] == [] then 0 else |secrets[0]| - 1;
    if |text| < longest then |text| else longest
  }

  /** The text after the last match. */
  function ScanRest(secrets: seq<JsString>, text: JsString): JsString
    requires Alternatives(secrets)
  {
    text[ScanEnd(secrets, text, 0)..]
  }

  /** How much of a text without matches is emitted at once. */
  function EmitLength(secrets: seq<JsString>, rest: JsString): (emit: nat)
    ensures emit <= |rest|
  {
    |rest| - RetainedLength(secrets, rest, RetainBound(secrets, rest))
  }

  /** Output of one `push`. */
  function PushOutput(secrets: seq<JsString>, text: JsString): seq<Token>
    requires Alternatives(secrets)
  {
    var rest := ScanRest(secrets, text);
    ScanOutput(secrets, text, 0) + Lits(rest[..EmitLength(secrets, rest)])
  }

  /** The text one `push` holds back. */
  function PushRetained(secrets: seq<JsString>, text: JsString): JsString
    requires Alternatives(secrets)
  {
    var rest := ScanRest(secrets, text);
    rest[EmitLength(secrets, rest)..]
  }

  /** Output of `flush`. */
  function FlushOutput(secrets: seq<JsString>, text: JsString): seq<Token>
    requires Alternatives(secrets)
  {
    ScanOutput(secrets, text, 0) + Lits(ScanRest(secrets, text))
  }

  lemma ScanUnfold(secrets: seq<JsString>, text: JsString, cursor: nat)
    requires Alternatives(secrets) && cursor <= |text| && NextMatch(secrets, text, cursor) < |text|
    ensures var i := NextMatch(secrets, text, cursor);
            var next := i + MatchLength(secrets, text[i..]);
            && ScanOutput(secrets, text, cursor)
               == Lits(text[cursor..i]) + ([Redacted] + ScanOutput(secrets, text, next))
            && ScanEnd(secrets, text, cursor) == ScanEnd(secrets, text, next)
  {}

  lemma ScanStep(secrets: seq<JsString>, text: JsString, cursor: nat, output: seq<Token>)
    requires Alternatives(secrets) && cursor <= |text| && NextMatch(secrets, text, cursor) < |text|
    ensures var i := NextMatch(secrets, text, cursor);
            var next := i + MatchLength(secrets, text[i..]);
            && output + ScanOutput(secrets, text, cursor)
               == output + Lits(text[cursor..i]) + [Redacted] + ScanOutput(secrets, text, next)
            && ScanEnd(secrets, text, cursor) == ScanEnd(secrets, text, next)
  {
    var i := NextMatch(secrets, text, cursor);
    var next := ScanOutput(secrets, text, i + MatchLength(secrets, text[i..]));
    assert output + (Lits(text[cursor..i]) + ([Redacted] + next))
        == output + Lits(text[cursor..i]) + [Redacted] + next;
  }

  lemma ScanStop(secrets: seq<JsString>, text: JsString, cursor: nat, output: seq<Token>)
    requires Alternatives(secrets) && cursor <= |text| && NextMatch(secrets, text, cursor) == |text|
    ensures output + ScanOutput(secrets, text, cursor) == output && ScanEnd(secrets, text, cursor) == cursor
  {}

  // ------------------------------------------------------------ the object

  class Redactor {
    const secrets: seq<JsString>
    var pending: JsString

    ghost predicate Valid()
      reads this
    {
      Alternatives(secrets) && (secrets == [] ==> pending == [])
    }

    constructor (secretValues: seq<JsString>)
      ensures Valid() && secrets == NormalizeSecrets(secretValues) && pending == []
    {
      secrets := NormalizeSecrets(secretValues);
      pending := [];
    }

    /** The search for the suffix to hold back, longest candidate first. */
    method LongestRetained(text: JsString) returns (length: nat)
      ensures length == RetainedLength(secrets, text, RetainBound(secrets, text))
    {
      length := RetainBound(secrets, text);
      while length > 0 && !BeginsSecret(secrets, Suffix(text, length))
        invariant 0 <= length <= |text|
        invariant RetainedLength(secrets, text, length) ==
                  RetainedLength(secrets, text, RetainBound(secrets, text))
      {
        length := length - 1;
      }
    }

    method Consume(flush: bool) returns (output: seq<Token>)
      requires Alternatives(secrets)
      modifies this
      ensures flush ==> output == FlushOutput(secrets, old(pending)) && pending == []
      ensures !flush ==> output == PushOutput(secrets, old(pending))
      ensures !flush ==> pending == PushRetained(secrets, old(pending))
    {
      hide ScanOutput, ScanEnd, MatchLength, NextMatch, RetainedLength, RetainBound, BeginsSecret;
      output := [];
      var cursor := 0;
      var index := NextMatch(secrets, pending, cursor);
      while index < |pending|
        invariant 0 <= cursor <= index <= |pending| && pending == old(pending)
        invariant index == NextMatch(secrets, pending, cursor)
        invariant ScanEnd(secrets, pending, 0) == ScanEnd(secrets, pending, cursor)
        invariant ScanOutput(secrets, pending, 0) == output + ScanOutput(secrets, pending, cursor)
        decreases |pending| - cursor
      {
        var length := MatchLength(secrets, pending[index..]);
        ScanStep(secrets, pending, cursor, output);
        output := output + Lits(pending[cursor..index]) + [Redacted];
        cursor := index + length;
        index := NextMatch(secrets, pending, cursor);
      }
      ScanStop(secrets, pending, cursor, output);
      pending := pending[cursor..];
      if flush {
        output := output + Lits(pending);
        pending := [];
        return;
      }
      var length := LongestRetained(pending);
      var emit := |pending| - length;
      output := output + Lits(pending[..emit]);
      pending := pending[emit..];
    }

    method Push(text: JsString) returns (output: seq<Token>)
      requires Valid()
      modifies this
      ensures Valid() && output == PushOutput(secrets, old(pending) + text)
      ensures pending == PushRetained(secrets, old(pending) + text)
    {
      if secrets == [] {
        assert pending + text == text;
        NoSecrets(text);
        return Lits(text);
      }
      pending := pending + text;
      output := Consume(false);
    }

    method Flush() returns (output: seq<Token>)
      requires Valid()
      modifies this
      ensures Valid() && output == FlushOutput(secrets, old(pending)) && pending == []
    {
      if secrets == [] {
        NoSecrets([]);
        return [];
      }
      output := Consume(true);
    }
  }

  /** Without secrets the pass-through object and the general one agree. */
  lemma NoSecrets(text: JsString)
    ensures PushOutput([], text) == Lits(text) && PushRetained([], text) == []
    ensures FlushOutput([], text) == Lits(text)
  {
    assert NextMatch([], text, 0) == |text|;
    assert text[0..] == text == text[..|text|] && text[|text|..] == [];
    assert [] + Lits(text) == Lits(text);
  }
}
