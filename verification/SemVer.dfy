/** Precedence of Semantic Versioning 2.0.0 (section 11), and where the version comparison agrees with it. */
module SemVer {
  import opened JsStrings
  import opened TextLines
  import opened Versions

  // ------------------------------------------------------------ the standard

  datatype Identifier = Numeric(value: nat) | Alphanumeric(text: JsString)

  datatype SemVer = SemVer(major: nat, minor: nat, patch: nat, prerelease: seq<Identifier>)

  predicate IsIdentifierUnit(c: CodeUnit) {
    IsDigit(c) || IsLetter(c) || c == HYPHEN
  }

  predicate ValidIdentifier(id: Identifier) {
    id.Alphanumeric? ==>
      id.text != [] && (forall c :: c in id.text ==> IsIdentifierUnit(c)) && !(forall c :: c in id.text ==> IsDigit(c))
  }

  predicate Valid(v: SemVer) {
    forall id :: id in v.prerelease ==> ValidIdentifier(id)
  }

  predicate Hyphenated(id: Identifier) {
    id.Alphanumeric? && HYPHEN in id.text
  }

  predicate HyphenFree(v: SemVer) {
    forall id :: id in v.prerelease ==> !Hyphenated(id)
  }

  function IdentifierPrecedence(a: Identifier, b: Identifier): int {
    match (a, b)
    case (Numeric(m), Numeric(n)) => CompareInts(m, n)
    case (Numeric(_), Alphanumeric(_)) => -1
    case (Alphanumeric(_), Numeric(_)) => 1
    case (Alphanumeric(s), Alphanumeric(t)) => CompareTexts(s, t)
  }

  /** Field by field; the longer list is higher when all fields of the shorter one are equal. */
  function ListPrecedence(a: seq<Identifier>, b: seq<Identifier>): int {
    if a == [] || b == [] then CompareInts(|a|, |b|)
    else Then(IdentifierPrecedence(a[0], b[0]), ListPrecedence(a[1..], b[1..]))
  }

  function PrereleasePrecedence(a: seq<Identifier>, b: seq<Identifier>): int {
    if a == [] && b == [] then 0
    else if b == [] then -1
    else if a == [] then 1
    else ListPrecedence(a, b)
  }

  function Precedence(v: SemVer, w: SemVer): int {
    Then(CompareInts(v.major, w.major),
         Then(CompareInts(v.minor, w.minor),
              Then(CompareInts(v.patch, w.patch), PrereleasePrecedence(v.prerelease, w.prerelease))))
  }

  // ------------------------------------------------------------ writing versions

  function Digits(n: nat): (s: JsString)
    ensures s != []
  {
    if n < 10 then [(0x30 + n) as CodeUnit] else Digits(n / 10) + [(0x30 + n % 10) as CodeUnit]
  }

  function IdentifierText(id: Identifier): JsString {
    match id
    case Numeric(value) => Digits(value)
    case Alphanumeric(text) => text
  }

  function Texts(ids: seq<Identifier>): (r: seq<JsString>)
    ensures |r| == |ids|
  {
    if ids == [] then [] else [IdentifierText(ids[0])] + Texts(ids[1..])
  }

  function Dotted(texts: seq<JsString>): JsString {
    if texts == [] then []
    else if |texts| == 1 then texts[0]
    else texts[0] + ([DOT] + Dotted(texts[1..]))
  }

  function Core(v: SemVer): JsString {
    Digits(v.major) + ([DOT] + (Digits(v.minor) + ([DOT] + Digits(v.patch))))
  }

  /** The version without build metadata. */
  function Text(v: SemVer): JsString {
    Core(v) + if v.prerelease == [] then [] else [HYPHEN] + Dotted(Texts(v.prerelease))
  }

  // ------------------------------------------------------------ reading them back

  lemma {:induction false} DigitsAreDigits(n: nat)
    ensures forall c :: c in Digits(n) ==> IsDigit(c)
    ensures DigitsValue(Digits(n)) == n
    decreases n
  {
    if n >= 10 {
      DigitsAreDigits(n / 10);
      var s := Digits(n);
      assert s[..|s| - 1] == Digits(n / 10);
    } else {
      var s := Digits(n);
      assert s[..|s| - 1] == [];
    }
  }

  lemma {:induction false} DigitRunAll(s: JsString, rest: JsString)
    requires forall c :: c in s ==> IsDigit(c)
    requires rest == [] || !IsDigit(rest[0])
    ensures DigitRun(s + rest) == |s|
    decreases |s|
  {
    if s == [] {
      assert s + rest == rest;
    } else {
      assert s[0] in s && (s + rest)[1..] == s[1..] + rest;
      DigitRunAll(s[1..], rest);
    }
  }

  lemma ParseDigits(n: nat)
    ensures ParseInt(Digits(n)) == n
  {
    var s := Digits(n);
    DigitsAreDigits(n);
    assert s[0] in s && IsDigit(s[0]);
    assert s[SpaceRun(s)..] == s;
    DigitRunAll(s, []);
    assert s + [] == s && s[..|s|] == s;
  }

  lemma IndexAfter(a: JsString, c: CodeUnit, b: JsString)
    requires c !in a
    ensures IndexOf(a + ([c] + b), c) == |a| && IndexOf(a, c) == |a|
    decreases |a|
  {
    if a == [] {
      assert a + ([c] + b) == [c] + b;
    } else {
      assert a[0] in a && (a + ([c] + b))[1..] == a[1..] + ([c] + b);
      IndexAfter(a[1..], c, b);
    }
  }

  lemma SplitOnCons(a: JsString, c: CodeUnit, b: JsString)
    requires c !in a
    ensures SplitOn(a + ([c] + b), c) == [a] + SplitOn(b, c)
    ensures SplitOn(a, c) == [a]
  {
    IndexAfter(a, c, b);
    var s := a + ([c] + b);
    assert s[..|a|] == a && s[|a| + 1..] == b;
  }

  lemma {:induction false} SplitDotted(texts: seq<JsString>)
    requires texts != [] && forall text :: text in texts ==> DOT !in text
    ensures SplitOn(Dotted(texts), DOT) == texts
    decreases |texts|
  {
    hide SplitOn;
    assert texts[0] in texts;
    SplitOnCons(texts[0], DOT, Dotted(texts[1..]));
    if |texts| > 1 {
      SplitDotted(texts[1..]);
      assert texts == [texts[0]] + texts[1..];
    } else {
      assert texts == [texts[0]];
    }
  }

  lemma NoSeparatorInDigits(n: nat)
    ensures DOT !in Digits(n) && HYPHEN !in Digits(n)
  {
    DigitsAreDigits(n);
    assert !IsDigit(DOT) && !IsDigit(HYPHEN);
  }

  lemma CoreParts(v: SemVer)
    ensures SplitOn(Core(v), DOT) == [Digits(v.major), Digits(v.minor), Digits(v.patch)]
    ensures HYPHEN !in Core(v)
  {
    hide SplitOn, Digits;
    NoSeparatorInDigits(v.major);
    NoSeparatorInDigits(v.minor);
    NoSeparatorInDigits(v.patch);
    SplitOnCons(Digits(v.major), DOT, Digits(v.minor) + ([DOT] + Digits(v.patch)));
    SplitOnCons(Digits(v.minor), DOT, Digits(v.patch));
    SplitOnCons(Digits(v.patch), DOT, []);
  }

  lemma StartsWithDigit(s: JsString)
    requires s != [] && IsDigit(s[0])
    ensures !StartsIgnoringCase(s, SERVER_LAUNCHER_V) && !StartsIgnoringCase(s, LAUNCHER_V)
    ensures !StartsIgnoringCase(s, LETTER_V)
    ensures SpaceRun(s) == 0
  {
    assert LowerAscii(s[0]) == s[0];
    assert SERVER_LAUNCHER_V[0] as int == 's' as int && LAUNCHER_V[0] as int == 'l' as int;
    assert LETTER_V[0] as int == 'v' as int;
  }

  /** A text that starts with a digit and does not end with white space is its own normal form. */
  lemma NormalizedIsSame(s: JsString)
    requires s != [] && IsDigit(s[0]) && !IsSpace(s[|s| - 1])
    ensures NormalizeVersion(s) == s
  {
    hide SpaceRun, StartsIgnoringCase, SERVER_LAUNCHER_V, LAUNCHER_V, LETTER_V;
    StartsWithDigit(s);
    assert s[0..] == s;
  }

  lemma DigitIsNotSpace()
    ensures forall c :: IsIdentifierUnit(c) ==> !IsSpace(c)
    ensures forall c :: IsDigit(c) ==> IsIdentifierUnit(c)
  {}

  lemma {:induction false} DottedShape(texts: seq<JsString>)
    requires texts != [] && forall text :: text in texts ==> text != [] && forall c :: c in text ==> IsIdentifierUnit(c)
    ensures var s := Dotted(texts); s != [] && IsIdentifierUnit(s[|s| - 1])
    decreases |texts|
  {
    hide IsIdentifierUnit;
    var first := texts[0];
    assert first in texts && first[|first| - 1] in first;
    if |texts| > 1 {
      assert forall text :: text in texts[1..] ==> text in texts;
      DottedShape(texts[1..]);
      var s, rest := Dotted(texts), Dotted(texts[1..]);
      assert s[|s| - 1] == rest[|rest| - 1];
    }
  }

  lemma {:induction false} TextsShape(ids: seq<Identifier>)
    requires forall id :: id in ids ==> ValidIdentifier(id)
    ensures forall text :: text in Texts(ids) ==> text != [] && forall c :: c in text ==> IsIdentifierUnit(c)
    decreases |ids|
  {
    hide IsIdentifierUnit;
    if ids != [] {
      assert ids[0] in ids;
      if ids[0].Numeric? {
        DigitsAreDigits(ids[0].value);
        DigitIsNotSpace();
      }
      TextsShape(ids[1..]);
    }
  }

  lemma TextShape(v: SemVer)
    requires Valid(v)
    ensures var s := Text(v); s != [] && IsDigit(s[0]) && !IsSpace(s[|s| - 1])
  {
    hide IsSpace, IsIdentifierUnit, ValidIdentifier, Digits, Dotted, Texts;
    DigitIsNotSpace();
    DigitsAreDigits(v.major);
    DigitsAreDigits(v.patch);
    var s, core := Text(v), Core(v);
    assert core[0] == Digits(v.major)[0] && Digits(v.major)[0] in Digits(v.major);
    var patch := Digits(v.patch);
    assert core[|core| - 1] == patch[|patch| - 1] && patch[|patch| - 1] in patch;
    if v.prerelease != [] {
      TextsShape(v.prerelease);
      DottedShape(Texts(v.prerelease));
      var rest := Dotted(Texts(v.prerelease));
      assert s[|s| - 1] == rest[|rest| - 1];
    } else {
      assert s == core;
    }
    assert s[0] == core[0];
  }

  /** The part of a text before its first hyphen. */
  function UpToHyphen(s: JsString): JsString {
    s[..IndexOf(s, HYPHEN)]
  }

  lemma SplitFirst(s: JsString, c: CodeUnit)
    ensures SplitOn(s, c)[0] == s[..IndexOf(s, c)]
  {}

  /** What the comparison sees of a valid version. */
  lemma ParseText(v: SemVer)
    requires Valid(v)
    ensures ParseVersion(Text(v))
         == Version(v.major, v.minor, v.patch,
                    if v.prerelease == [] then [] else UpToHyphen(Dotted(Texts(v.prerelease))))
  {
    hide SplitOn, Digits, Dotted, Texts, NormalizeVersion, ParseInt, IsSpace, Core, IndexOf, Valid;
    TextShape(v);
    NormalizedIsSame(Text(v));
    CoreParts(v);
    ParseDigits(v.major);
    ParseDigits(v.minor);
    ParseDigits(v.patch);
    var rest := Dotted(Texts(v.prerelease));
    SplitOnCons(Core(v), HYPHEN, rest);
    SplitFirst(rest, HYPHEN);
    assert v.prerelease == [] ==> Text(v) == Core(v);
  }

  // ------------------------------------------------------------ comparing identifiers

  lemma NumericExactly(id: Identifier)
    requires ValidIdentifier(id)
    ensures IsNumeric(IdentifierText(id)) <==> id.Numeric?
    ensures id.Numeric? ==> DigitsValue(IdentifierText(id)) == id.value
  {
    if id.Numeric? {
      DigitsAreDigits(id.value);
    }
  }

  lemma SameIdentifierOrder(a: Identifier, b: Identifier)
    requires ValidIdentifier(a) && ValidIdentifier(b)
    ensures CompareIdentifiers(IdentifierText(a), IdentifierText(b)) == IdentifierPrecedence(a, b)
  {
    hide IsNumeric, CompareTexts, DigitsValue, Digits, ValidIdentifier;
    NumericExactly(a);
    NumericExactly(b);
  }

  lemma {:induction false} SameListOrder(a: seq<Identifier>, b: seq<Identifier>)
    requires forall id :: id in a + b ==> ValidIdentifier(id)
    ensures CompareLists(Texts(a), Texts(b)) == ListPrecedence(a, b)
    decreases |a|
  {
    hide ValidIdentifier, IdentifierText, IdentifierPrecedence, CompareIdentifiers;
    if a != [] && b != [] {
      assert a[0] in a + b && b[0] in a + b;
      assert forall id :: id in a[1..] + b[1..] ==> id in a + b;
      SameIdentifierOrder(a[0], b[0]);
      SameListOrder(a[1..], b[1..]);
      assert Texts(a)[1..] == Texts(a[1..]) && Texts(b)[1..] == Texts(b[1..]);
    }
  }

  // ------------------------------------------------------------ versions without hyphens

  lemma {:induction false} NothingEmpty(texts: seq<JsString>)
    requires forall text :: text in texts ==> text != []
    ensures NonEmpty(texts) == texts
    decreases |texts|
  {
    if texts != [] {
      assert texts[0] in texts;
      assert forall text :: text in texts[1..] ==> text in texts;
      NothingEmpty(texts[1..]);
      assert texts == [texts[0]] + texts[1..];
    }
  }

  lemma {:induction false} NoCharInDotted(texts: seq<JsString>, c: CodeUnit)
    requires c != DOT && forall text :: text in texts ==> c !in text
    ensures c !in Dotted(texts)
    decreases |texts|
  {
    if texts != [] {
      assert texts[0] in texts;
      assert forall text :: text in texts[1..] ==> text in texts;
      NoCharInDotted(texts[1..], c);
    }
  }

  lemma {:induction false} TextsWithoutHyphen(ids: seq<Identifier>)
    requires forall id :: id in ids ==> ValidIdentifier(id) && !Hyphenated(id)
    ensures forall text :: text in Texts(ids) ==> HYPHEN !in text
    decreases |ids|
  {
    hide Digits;
    if ids != [] {
      assert ids[0] in ids;
      if ids[0].Numeric? {
        NoSeparatorInDigits(ids[0].value);
      }
      TextsWithoutHyphen(ids[1..]);
    }
  }

  lemma NoDotInUnits(text: JsString)
    requires forall c :: c in text ==> IsIdentifierUnit(c)
    ensures DOT !in text
  {
    assert !IsIdentifierUnit(DOT);
  }

  lemma TextsHaveNoDot(ids: seq<Identifier>)
    requires forall id :: id in ids ==> ValidIdentifier(id)
    ensures forall text :: text in Texts(ids) ==> text != [] && DOT !in text
  {
    hide IsIdentifierUnit, ValidIdentifier;
    TextsShape(ids);
    forall text | text in Texts(ids)
      ensures DOT !in text
    {
      NoDotInUnits(text);
    }
  }

  lemma WholeUpToHyphen(s: JsString)
    requires HYPHEN !in s
    ensures UpToHyphen(s) == s
  {
    IndexAfter(s, HYPHEN, []);
    assert s[..|s|] == s;
  }

  /** A prerelease without hyphens is seen whole. */
  lemma SeenWhole(v: SemVer)
    requires Valid(v) && HyphenFree(v) && v.prerelease != []
    ensures var seen := UpToHyphen(Dotted(Texts(v.prerelease))); seen != [] && Identifiers(seen) == Texts(v.prerelease)
  {
    hide Texts, Dotted, UpToHyphen, SplitOn, NonEmpty, ValidIdentifier, Hyphenated, IsIdentifierUnit;
    var texts := Texts(v.prerelease);
    TextsShape(v.prerelease);
    TextsHaveNoDot(v.prerelease);
    TextsWithoutHyphen(v.prerelease);
    NoCharInDotted(texts, HYPHEN);
    WholeUpToHyphen(Dotted(texts));
    DottedShape(texts);
    SplitDotted(texts);
    NothingEmpty(texts);
  }

  /** Between versions without a hyphen in the prerelease, the comparison is the precedence of the standard. */
  lemma AgreesWithSemVer(v: SemVer, w: SemVer)
    requires Valid(v) && Valid(w) && HyphenFree(v) && HyphenFree(w)
    ensures CompareVersions(Text(v), Text(w)) == Precedence(v, w)
  {
    hide Text, Texts, Dotted, UpToHyphen, Identifiers, ValidIdentifier, Hyphenated, ListPrecedence,
         CompareLists, ParseVersion;
    ParseText(v);
    ParseText(w);
    if v.prerelease != [] {
      SeenWhole(v);
    }
    if w.prerelease != [] {
      SeenWhole(w);
    }
    SameListOrder(v.prerelease, w.prerelease);
    NoIdentifiers();
    NothingIsLevel();
  }

  lemma NoIdentifiers()
    ensures Identifiers([]) == []
  {
    var one: seq<JsString> := [[]];
    assert SplitOn([], DOT) == one && one[1..] == [];
  }

  // ------------------------------------------------------------ versions with hyphens

  lemma FirstHyphenated(ids: seq<Identifier>) returns (k: nat)
    requires exists id :: id in ids && Hyphenated(id)
    ensures k < |ids| && Hyphenated(ids[k]) && forall id :: id in ids[..k] ==> !Hyphenated(id)
    decreases |ids|
  {
    hide Hyphenated;
    if Hyphenated(ids[0]) {
      k := 0;
    } else {
      var id :| id in ids && Hyphenated(id);
      assert id in ids[1..];
      k := FirstHyphenated(ids[1..]);
      k := k + 1;
      assert ids[..k] == [ids[0]] + ids[1..][..k - 1];
    }
  }

  lemma HyphenPosition(s: JsString, a: JsString, rest: JsString)
    requires HYPHEN !in a && s == a + ([HYPHEN] + rest)
    ensures UpToHyphen(s) == a
  {
    IndexAfter(a, HYPHEN, rest);
  }

  lemma {:induction false} TextsConcat(a: seq<Identifier>, b: seq<Identifier>)
    ensures Texts(a + b) == Texts(a) + Texts(b)
    decreases |a|
  {
    hide IdentifierText;
    if a == [] {
      assert a + b == b;
    } else {
      assert (a + b)[1..] == a[1..] + b;
      TextsConcat(a[1..], b);
    }
  }

  /** A dotted list cut inside one of its fields is the dotted list of the fields before it and of the cut field. */
  lemma {:induction false} DottedCut(texts: seq<JsString>, k: nat, a: JsString, b: JsString)
    requires k < |texts| && texts[k] == a + ([HYPHEN] + b)
    requires HYPHEN !in a && forall text :: text in texts[..k] ==> HYPHEN !in text
    ensures HYPHEN !in Dotted(texts[..k] + [a])
    ensures exists rest :: Dotted(texts) == Dotted(texts[..k] + [a]) + ([HYPHEN] + rest)
    decreases k
  {
    var front := texts[..k] + [a];
    if k == 0 {
      assert front == [a];
      if |texts| == 1 {
        assert Dotted(texts) == Dotted(front) + ([HYPHEN] + b);
      } else {
        var rest := b + ([DOT] + Dotted(texts[1..]));
        assert Dotted(texts) == Dotted(front) + ([HYPHEN] + rest);
      }
    } else {
      assert texts[..k][1..] == texts[1..][..k - 1] && texts[..k][0] == texts[0];
      assert texts[0] in texts[..k];
      assert forall text :: text in texts[1..][..k - 1] ==> text in texts[..k];
      DottedCut(texts[1..], k - 1, a, b);
      assert front[1..] == texts[1..][..k - 1] + [a] && front[0] == texts[0];
      var rest :| Dotted(texts[1..]) == Dotted(front[1..]) + ([HYPHEN] + rest);
      assert Dotted(texts) == Dotted(front) + ([HYPHEN] + rest);
    }
  }

  /** The part of the identifier in front of its first hyphen, as identifiers of its own. */
  function CutIdentifier(text: JsString): seq<Identifier>
  {
    var a := UpToHyphen(text);
    if a == [] then [] else if IsNumeric(a) then [Numeric(DigitsValue(a))] else [Alphanumeric(a)]
  }

  lemma {:induction false} IndexFound(s: JsString, c: CodeUnit)
    requires c in s
    ensures IndexOf(s, c) < |s| && s[IndexOf(s, c)] == c
    ensures forall i :: 0 <= i < IndexOf(s, c) ==> s[i] != c
    decreases |s|
  {
    if s[0] != c {
      IndexFound(s[1..], c);
      assert forall i :: 1 <= i < IndexOf(s, c) ==> s[i] == s[1..][i - 1];
    }
  }

  lemma BeforeHyphen(text: JsString)
    requires HYPHEN in text
    ensures var a := UpToHyphen(text);
            HYPHEN !in a && |a| < |text| && text == a + ([HYPHEN] + text[|a| + 1..])
  {
    hide IndexOf;
    IndexFound(text, HYPHEN);
  }

  lemma {:induction false} SplitDottedAny(texts: seq<JsString>)
    requires texts != [] && forall text :: text in texts ==> DOT !in text
    ensures Identifiers(Dotted(texts)) == NonEmpty(texts)
  {
    SplitDotted(texts);
  }

  lemma {:induction false} NonEmptyFront(texts: seq<JsString>, a: JsString)
    requires forall text :: text in texts ==> text != []
    ensures NonEmpty(texts + [a]) == texts + if a == [] then [] else [a]
    decreases |texts|
  {
    if texts == [] {
      assert texts + [a] == [a] && [a][1..] == [];
    } else {
      assert texts[0] in texts;
      assert (texts + [a])[1..] == texts[1..] + [a];
      assert forall text :: text in texts[1..] ==> text in texts;
      NonEmptyFront(texts[1..], a);
    }
  }

  lemma {:induction false} CompareListsPrefix(p: seq<JsString>, x: seq<JsString>, y: seq<JsString>)
    ensures CompareLists(p + x, p + y) == CompareLists(x, y)
    decreases |p|
  {
    hide CompareIdentifiers;
    if p == [] {
      assert p + x == x && p + y == y;
    } else {
      CompareSame(p[0]);
      assert (p + x)[1..] == p[1..] + x && (p + y)[1..] == p[1..] + y;
      CompareListsPrefix(p[1..], x, y);
    }
  }

  lemma {:induction false} ListPrecedencePrefix(p: seq<Identifier>, x: seq<Identifier>, y: seq<Identifier>)
    ensures ListPrecedence(p + x, p + y) == ListPrecedence(x, y)
    decreases |p|
  {
    if p == [] {
      assert p + x == x && p + y == y;
    } else {
      if p[0].Alphanumeric? {
        CompareTextsSame(p[0].text);
      }
      assert (p + x)[1..] == p[1..] + x && (p + y)[1..] == p[1..] + y;
      ListPrecedencePrefix(p[1..], x, y);
    }
  }

  lemma CutIsLevel(a: JsString, id: Identifier)
    requires a != [] && id == if IsNumeric(a) then Numeric(DigitsValue(a)) else Alphanumeric(a)
    ensures CompareLists([a], [IdentifierText(id)]) == 0
  {
    if IsNumeric(a) {
      DigitsAreDigits(DigitsValue(a));
    } else {
      CompareSame(a);
    }
    var b := IdentifierText(id);
    assert [a][1..] == [] && [b][1..] == [];
  }

  lemma CutShape(text: JsString)
    requires HYPHEN in text && forall c :: c in text ==> IsIdentifierUnit(c)
    ensures forall id :: id in CutIdentifier(text) ==> ValidIdentifier(id) && !Hyphenated(id)
    ensures DOT !in UpToHyphen(text)
  {
    hide IsIdentifierUnit;
    BeforeHyphen(text);
    NoDotInUnits(text);
    assert forall c :: c in UpToHyphen(text) ==> c in text;
  }

  lemma CutDiffers(text: JsString, rest: seq<Identifier>)
    requires HYPHEN in text
    ensures ListPrecedence([Alphanumeric(text)] + rest, CutIdentifier(text)) != 0
  {
    BeforeHyphen(text);
    CompareTextsIsThreeWay(text, UpToHyphen(text));
    hide CompareTexts, UpToHyphen;
  }

  /** The version that the comparison confuses with a version whose prerelease has a hyphen. */
  function Confused(v: SemVer, k: nat): SemVer
    requires k < |v.prerelease| && v.prerelease[k].Alphanumeric?
  {
    v.(prerelease := v.prerelease[..k] + CutIdentifier(v.prerelease[k].text))
  }

  /** What is seen of the prerelease: the identifiers before the first hyphen. */
  lemma SeenCut(v: SemVer, k: nat)
    requires Valid(v) && k < |v.prerelease| && Hyphenated(v.prerelease[k])
    requires forall id :: id in v.prerelease[..k] ==> !Hyphenated(id)
    ensures var a, seen := UpToHyphen(v.prerelease[k].text), UpToHyphen(Dotted(Texts(v.prerelease)));
            && (seen == [] <==> k == 0 && a == [])
            && Identifiers(seen) == Texts(v.prerelease[..k]) + if a == [] then [] else [a]
  {
    hide Texts, Dotted, UpToHyphen, Identifiers, NonEmpty, IsIdentifierUnit;
    var ids := v.prerelease;
    var text := ids[k].text;
    var a := UpToHyphen(text);
    var before := Texts(ids[..k]);
    assert ids[k] in ids;
    BeforeHyphen(text);
    CutShape(text);
    assert ids == ids[..k] + [ids[k]] + ids[k + 1..];
    TextsConcat(ids[..k], [ids[k]]);
    TextsConcat(ids[..k] + [ids[k]], ids[k + 1..]);
    assert Texts([ids[k]]) == [text] by { OneText(ids[k]); }
    var texts := Texts(ids);
    assert texts[..k] == before && texts[k] == text;
    TextsWithoutHyphen(ids[..k]);
    DottedCut(texts, k, a, text[|a| + 1..]);
    var front := before + [a];
    var rest :| Dotted(texts) == Dotted(front) + ([HYPHEN] + rest);
    HyphenPosition(Dotted(texts), Dotted(front), rest);
    TextsHaveNoDot(ids[..k]);
    SplitDottedAny(front);
    NonEmptyFront(before, a);
    DottedIsEmpty(before, a);
  }

  lemma OneText(id: Identifier)
    ensures Texts([id]) == [IdentifierText(id)]
  {
    assert [id][1..] == [];
  }

  lemma DottedIsEmpty(texts: seq<JsString>, a: JsString)
    requires forall text :: text in texts ==> text != []
    ensures Dotted(texts + [a]) == [] <==> texts == [] && a == []
  {
    if texts != [] {
      assert texts[0] in texts && (texts + [a])[0] == texts[0];
    }
  }

  lemma ConfusedIsValid(v: SemVer, k: nat)
    requires Valid(v) && k < |v.prerelease| && Hyphenated(v.prerelease[k])
    requires forall id :: id in v.prerelease[..k] ==> !Hyphenated(id)
    ensures Valid(Confused(v, k)) && HyphenFree(Confused(v, k))
  {
    hide IsIdentifierUnit, CutIdentifier;
    assert v.prerelease[k] in v.prerelease;
    CutShape(v.prerelease[k].text);
  }

  lemma ConfusedIsLevel(v: SemVer, k: nat)
    requires Valid(v) && k < |v.prerelease| && Hyphenated(v.prerelease[k])
    requires forall id :: id in v.prerelease[..k] ==> !Hyphenated(id)
    ensures CompareVersions(Text(v), Text(Confused(v, k))) == 0
  {
    hide Text, Texts, Dotted, UpToHyphen, Identifiers, ValidIdentifier, CompareLists, ParseVersion, IsNumeric;
    var w := Confused(v, k);
    var text := v.prerelease[k].text;
    var a, cut := UpToHyphen(text), CutIdentifier(text);
    var before := v.prerelease[..k];
    ConfusedIsValid(v, k);
    ParseText(v);
    ParseText(w);
    SeenCut(v, k);
    TextsConcat(before, cut);
    NoIdentifiers();
    if w.prerelease != [] {
      SeenWhole(w);
    }
    NoTexts();
    if a != [] {
      OneText(cut[0]);
      CutIsLevel(a, cut[0]);
      CompareListsPrefix(Texts(before), [a], Texts(cut));
    } else {
      CompareListsPrefix(Texts(before), [], []);
      NothingIsLevel();
    }
  }

  lemma NoTexts()
    ensures Texts([]) == []
  {}

  lemma NothingIsLevel()
    ensures CompareLists([], []) == 0
  {}

  lemma ConfusedDiffers(v: SemVer, k: nat)
    requires k < |v.prerelease| && Hyphenated(v.prerelease[k])
    ensures Precedence(v, Confused(v, k)) != 0
  {
    hide CutIdentifier, ListPrecedence;
    var before, text := v.prerelease[..k], v.prerelease[k].text;
    var rest := v.prerelease[k + 1..];
    assert v.prerelease == before + ([Alphanumeric(text)] + rest);
    ListPrecedencePrefix(before, [Alphanumeric(text)] + rest, CutIdentifier(text));
    CutDiffers(text, rest);
  }

  /**
   A version agrees with the standard against every version without hyphens
   exactly when its own prerelease has none.
   */
  lemma AgreesExactlyWithoutHyphen(v: SemVer)
    requires Valid(v)
    ensures HyphenFree(v) <==>
              forall w :: Valid(w) && HyphenFree(w) ==> CompareVersions(Text(v), Text(w)) == Precedence(v, w)
  {
    hide CompareVersions, Precedence, Text, ValidIdentifier, Hyphenated, Confused;
    if HyphenFree(v) {
      forall w | Valid(w) && HyphenFree(w)
        ensures CompareVersions(Text(v), Text(w)) == Precedence(v, w)
      {
        AgreesWithSemVer(v, w);
      }
    } else {
      var k := FirstHyphenated(v.prerelease);
      assert v.prerelease[k].Alphanumeric? by { HyphenatedIsText(v.prerelease[k]); }
      ConfusedIsValid(v, k);
      ConfusedIsLevel(v, k);
      ConfusedDiffers(v, k);
    }
  }

  lemma HyphenatedIsText(id: Identifier)
    requires Hyphenated(id)
    ensures id.Alphanumeric?
  {}
}
