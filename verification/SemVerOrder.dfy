/** The precedence of versions without comparison functions, and the names that versions are written under. */
module SemVerOrder {
  import opened JsStrings
  import opened TextLines
  import opened Versions
  import opened SemVer

  // ------------------------------------------------------------ the order of the standard, section 11

  /** ASCII order: `s` is smaller at the first difference, or ends there. */
  ghost predicate TextBelow(s: JsString, t: JsString) {
    exists i: nat :: TextBelowAt(s, t, i)
  }

  predicate TextBelowAt(s: JsString, t: JsString, i: nat) {
    i <= |s| && i < |t| && s[..i] == t[..i] && (i == |s| || s[i] < t[i])
  }

  ghost predicate IdentifierBelow(a: Identifier, b: Identifier) {
    match (a, b)
    case (Numeric(m), Numeric(n)) => m < n
    case (Numeric(_), Alphanumeric(_)) => true
    case (Alphanumeric(_), Numeric(_)) => false
    case (Alphanumeric(s), Alphanumeric(t)) => TextBelow(s, t)
  }

  ghost predicate ListBelow(a: seq<Identifier>, b: seq<Identifier>) {
    exists i: nat :: ListBelowAt(a, b, i)
  }

  ghost predicate ListBelowAt(a: seq<Identifier>, b: seq<Identifier>, i: nat) {
    i <= |a| && i < |b| && a[..i] == b[..i] && (i == |a| || IdentifierBelow(a[i], b[i]))
  }

  /** Major, minor and patch numerically; then a prerelease below its release; then the prereleases. */
  ghost predicate Below(v: SemVer, w: SemVer) {
    if v.major != w.major then v.major < w.major
    else if v.minor != w.minor then v.minor < w.minor
    else if v.patch != w.patch then v.patch < w.patch
    else if v.prerelease == [] || w.prerelease == [] then v.prerelease != [] && w.prerelease == []
    else ListBelow(v.prerelease, w.prerelease)
  }

  // ------------------------------------------------------------ it is the precedence

  lemma TextBelowCons(s: JsString, t: JsString, i: nat)
    requires s != [] && t != []
    ensures TextBelowAt(s, t, i + 1) <==> s[0] == t[0] && TextBelowAt(s[1..], t[1..], i)
  {
    if i < |s| && i < |t| {
      assert s[..i + 1] == [s[0]] + s[1..][..i] && t[..i + 1] == [t[0]] + t[1..][..i];
    }
  }

  lemma {:induction false} TextsExactly(s: JsString, t: JsString)
    ensures CompareTexts(s, t) < 0 <==> TextBelow(s, t)
    ensures CompareTexts(s, t) == 0 <==> s == t
    decreases |s|
  {
    hide TextBelowAt;
    CompareTextsIsThreeWay(s, t);
    AtTheStart(s, t);
    if s != [] && t != [] {
      TextsExactly(s[1..], t[1..]);
      forall i: nat
        ensures TextBelowAt(s, t, i + 1) <==> s[0] == t[0] && TextBelowAt(s[1..], t[1..], i)
      {
        TextBelowCons(s, t, i);
      }
      TextBelowBehind(s, t);
    } else if t == [] {
      NothingBelowEmpty(s);
    }
  }

  lemma AtTheStart(s: JsString, t: JsString)
    ensures TextBelowAt(s, t, 0) <==> t != [] && (s == [] || s[0] < t[0])
  {}

  lemma NothingBelowEmpty(s: JsString)
    ensures forall i: nat :: !TextBelowAt(s, [], i)
  {}

  lemma TextBelowBehind(s: JsString, t: JsString)
    requires s != [] && t != []
    ensures TextBelow(s, t) <==> s[0] < t[0] || (s[0] == t[0] && TextBelow(s[1..], t[1..]))
  {
    hide TextBelowAt;
    AtTheStart(s, t);
    if TextBelow(s, t) {
      var i: nat :| TextBelowAt(s, t, i);
      if i > 0 {
        TextBelowCons(s, t, i - 1);
      }
    }
    if s[0] == t[0] && TextBelow(s[1..], t[1..]) {
      var i: nat :| TextBelowAt(s[1..], t[1..], i);
      TextBelowCons(s, t, i);
    }
  }

  lemma IdentifiersExactly(a: Identifier, b: Identifier)
    ensures IdentifierPrecedence(a, b) < 0 <==> IdentifierBelow(a, b)
    ensures IdentifierPrecedence(a, b) == 0 <==> a == b
  {
    hide TextBelow, CompareTexts;
    if a.Alphanumeric? && b.Alphanumeric? {
      TextsExactly(a.text, b.text);
    }
  }

  lemma ListBelowCons(a: seq<Identifier>, b: seq<Identifier>, i: nat)
    requires a != [] && b != []
    ensures ListBelowAt(a, b, i + 1) <==> a[0] == b[0] && ListBelowAt(a[1..], b[1..], i)
    ensures ListBelowAt(a, b, 0) <==> IdentifierBelow(a[0], b[0])
  {
    hide IdentifierBelow;
    if i < |a| && i < |b| {
      assert a[..i + 1] == [a[0]] + a[1..][..i] && b[..i + 1] == [b[0]] + b[1..][..i];
    }
  }

  lemma ListBelowBehind(a: seq<Identifier>, b: seq<Identifier>)
    requires a != [] && b != []
    ensures ListBelow(a, b) <==> IdentifierBelow(a[0], b[0]) || (a[0] == b[0] && ListBelow(a[1..], b[1..]))
  {
    hide ListBelowAt, IdentifierBelow;
    ListBelowCons(a, b, 0);
    if ListBelow(a, b) {
      var i: nat :| ListBelowAt(a, b, i);
      if i > 0 {
        ListBelowCons(a, b, i - 1);
      }
    }
    if a[0] == b[0] && ListBelow(a[1..], b[1..]) {
      var i: nat :| ListBelowAt(a[1..], b[1..], i);
      ListBelowCons(a, b, i);
    }
  }

  lemma ListBelowEnds(a: seq<Identifier>, b: seq<Identifier>)
    requires a == [] || b == []
    ensures ListBelow(a, b) <==> b != []
  {
    if b != [] {
      assert ListBelowAt(a, b, 0);
    }
  }

  lemma {:induction false} ListsExactly(a: seq<Identifier>, b: seq<Identifier>)
    ensures ListPrecedence(a, b) < 0 <==> ListBelow(a, b)
    ensures ListPrecedence(a, b) == 0 <==> a == b
    decreases |a|
  {
    hide IdentifierPrecedence, IdentifierBelow, ListBelow;
    if a == [] || b == [] {
      ListBelowEnds(a, b);
    } else {
      IdentifiersExactly(a[0], b[0]);
      ListsExactly(a[1..], b[1..]);
      ListBelowBehind(a, b);
      assert a == [a[0]] + a[1..] && b == [b[0]] + b[1..];
    }
  }

  /** The precedence is negative exactly below, and level exactly for equal versions. */
  lemma PrecedenceExactly(v: SemVer, w: SemVer)
    ensures Precedence(v, w) < 0 <==> Below(v, w)
    ensures Precedence(v, w) == 0 <==> v == w
  {
    hide ListPrecedence, ListBelow;
    ListsExactly(v.prerelease, w.prerelease);
  }

  /** So versions without a hyphen in the prerelease are compared as the standard orders them. */
  lemma ComparesByStandard(v: SemVer, w: SemVer)
    requires Valid(v) && Valid(w) && HyphenFree(v) && HyphenFree(w)
    ensures CompareVersions(Text(v), Text(w)) < 0 <==> Below(v, w)
    ensures CompareVersions(Text(v), Text(w)) == 0 <==> v == w
    ensures CompareVersions(Text(v), Text(w)) > 0 <==> Below(w, v)
  {
    hide Valid, HyphenFree, CompareVersions, Text, Precedence, Below;
    AgreesWithSemVer(v, w);
    VersionOrder(Text(v), Text(w), Text(w));
    AgreesWithSemVer(w, v);
    PrecedenceExactly(v, w);
    PrecedenceExactly(w, v);
  }

  // ------------------------------------------------------------ tags

  const TAG_WORDS: seq<JsString> := [Js("server-launcher-v"), Js("launcher-v"), Js("v")]

  predicate SpelledAnyCase(s: JsString, word: JsString) {
    && |s| == |word|
    && forall i :: 0 <= i < |s| ==> s[i] == word[i] || (0x41 <= s[i] <= 0x5A && s[i] + 0x20 == word[i])
  }

  lemma TagWords()
    ensures TAG_WORDS == [SERVER_LAUNCHER_V, LAUNCHER_V, LETTER_V]
    ensures |SERVER_LAUNCHER_V| == 17 && |LAUNCHER_V| == 10 && |LETTER_V| == 1
    ensures SERVER_LAUNCHER_V[0] as int == 's' as int && LAUNCHER_V[0] as int == 'l' as int && LETTER_V[0] as int == 'v' as int
  {}

  lemma WordUnits(k: nat)
    requires k < |TAG_WORDS|
    ensures forall i :: 0 <= i < |TAG_WORDS[k]| ==> 0x61 <= TAG_WORDS[k][i] <= 0x7A || TAG_WORDS[k][i] == HYPHEN
  {}

  lemma StartsExactly(s: JsString, k: nat)
    requires k < |TAG_WORDS|
    ensures StartsIgnoringCase(s, TAG_WORDS[k]) <==>
              |TAG_WORDS[k]| <= |s| && SpelledAnyCase(s[..|TAG_WORDS[k]|], TAG_WORDS[k])
  {
    hide TAG_WORDS;
    WordUnits(k);
  }

  /** The name of a release without the word in front of its version, if it has one. */
  lemma NormalizesExactly(value: JsString, k: nat)
    requires k < |TAG_WORDS|
    ensures var s, n := Trim(value), |TAG_WORDS[k]|;
            n <= |s| && SpelledAnyCase(s[..n], TAG_WORDS[k]) ==> NormalizeVersion(value) == s[n..]
    ensures (forall j :: 0 <= j < |TAG_WORDS| ==>
               !(|TAG_WORDS[j]| <= |Trim(value)| && SpelledAnyCase(Trim(value)[..|TAG_WORDS[j]|], TAG_WORDS[j]))) ==>
            NormalizeVersion(value) == Trim(value)
  {
    hide Trim, TAG_WORDS, SERVER_LAUNCHER_V, LAUNCHER_V, LETTER_V, SpelledAnyCase;
    var s := Trim(value);
    TagWords();
    StartsExactly(s, 0);
    StartsExactly(s, 1);
    StartsExactly(s, 2);
    if s != [] {
      FirstUnits(s);
    }
  }

  lemma FirstUnits(s: JsString)
    requires s != []
    ensures StartsIgnoringCase(s, SERVER_LAUNCHER_V) ==> LowerAscii(s[0]) as int == 's' as int
    ensures StartsIgnoringCase(s, LAUNCHER_V) ==> LowerAscii(s[0]) as int == 'l' as int
    ensures StartsIgnoringCase(s, LETTER_V) ==> LowerAscii(s[0]) as int == 'v' as int
  {
    TagWords();
  }

  /** Missing parts count as zero. */
  lemma MissingPartsAreZero(n: nat)
    ensures CompareVersions(Digits(n), Text(SemVer(n, 0, 0, []))) == 0
  {
    hide SplitOn, Digits, NormalizeVersion, ParseInt, IsSpace, Text, CompareVersions;
    var s := Digits(n);
    DigitsAreDigits(n);
    assert s[0] in s && s[|s| - 1] in s;
    DigitIsNotSpace();
    NormalizedIsSame(s);
    NoSeparatorInDigits(n);
    SplitOnCons(s, HYPHEN, []);
    SplitOnCons(s, DOT, []);
    ParseDigits(n);
    ParseText(SemVer(n, 0, 0, []));
    assert ParseVersion(s) == ParseVersion(Text(SemVer(n, 0, 0, [])));
    LevelWithItself(s, Text(SemVer(n, 0, 0, [])));
  }

  lemma LevelWithItself(a: JsString, b: JsString)
    requires ParseVersion(a) == ParseVersion(b)
    ensures CompareVersions(a, b) == 0
  {
    hide ParseVersion, ComparePrereleases, CompareParsed;
    VersionOrder(a, a, a);
  }
}
