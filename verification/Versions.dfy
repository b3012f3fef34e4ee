/** Version comparison of electron/version-utils.js, and the order it defines on all strings. */
module Versions {
  import opened JsStrings
  import opened TextLines

  // ------------------------------------------------------------ parsing

  const SERVER_LAUNCHER_V := Js("server-launcher-v")
  const LAUNCHER_V := Js("launcher-v")
  const LETTER_V := Js("v")

  predicate StartsIgnoringCase(s: JsString, prefix: JsString) {
    |prefix| <= |s| && forall i :: 0 <= i < |prefix| ==> LowerAscii(s[i]) == prefix[i]
  }

  function NormalizeVersion(value: JsString): JsString {
    var s := Trim(value);
    if StartsIgnoringCase(s, SERVER_LAUNCHER_V) then s[|SERVER_LAUNCHER_V|..]
    else if StartsIgnoringCase(s, LAUNCHER_V) then s[|LAUNCHER_V|..]
    else if StartsIgnoringCase(s, LETTER_V) then s[1..]
    else s
  }

  function DigitRun(s: JsString): (n: nat)
    ensures n <= |s|
  {
    if s == [] || !IsDigit(s[0]) then 0 else DigitRun(s[1..]) + 1
  }

  function DigitsValue(s: JsString): (n: int)
    requires forall c :: c in s ==> IsDigit(c)
    ensures n >= 0
  {
    if s == [] then 0
    else
      assert s[|s| - 1] in s;
      assert IsDigit(s[|s| - 1]);
      10 * DigitsValue(s[..|s| - 1]) + (s[|s| - 1] as int - 0x30)
  }

  lemma {:induction false} DigitRunIsDigits(s: JsString)
    ensures forall c :: c in s[..DigitRun(s)] ==> IsDigit(c)
  {
    if s != [] && IsDigit(s[0]) {
      DigitRunIsDigits(s[1..]);
      assert s[..DigitRun(s)] == [s[0]] + s[1..][..DigitRun(s[1..])];
    }
  }

  function LeadingValue(s: JsString): (n: int)
    ensures n >= 0
  {
    DigitRunIsDigits(s);
    DigitsValue(s[..DigitRun(s)])
  }

  /** `Number.parseInt(part, 10)`, with 0 for NaN */
  function ParseInt(part: JsString): int {
    var s := part[SpaceRun(part)..];
    if s != [] && s[0] == HYPHEN then -LeadingValue(s[1..])
    else if s != [] && s[0] == PLUS then LeadingValue(s[1..])
    else LeadingValue(s)
  }

  datatype Version = Version(major: int, minor: int, patch: int, prerelease: JsString)

  function Part(parts: seq<JsString>, index: nat): int {
    if index < |parts| then ParseInt(parts[index]) else 0
  }

  /** The text behind the first hyphen, up to the second one. */
  function PrereleaseOf(normalized: JsString): JsString {
    var pieces := SplitOn(normalized, HYPHEN);
    if |pieces| > 1 then pieces[1] else []
  }

  function ParseVersion(value: JsString): Version {
    var normalized := NormalizeVersion(value);
    var parts := SplitOn(SplitOn(normalized, HYPHEN)[0], DOT);
    Version(Part(parts, 0), Part(parts, 1), Part(parts, 2), PrereleaseOf(normalized))
  }

  function NonEmpty(parts: seq<JsString>): (r: seq<JsString>)
    ensures forall part :: part in r ==> part != []
  {
    if parts == [] then [] else (if parts[0] == [] then [] else [parts[0]]) + NonEmpty(parts[1..])
  }

  function Identifiers(prerelease: JsString): (r: seq<JsString>)
    ensures forall part :: part in r ==> part != []
  {
    NonEmpty(SplitOn(prerelease, DOT))
  }

  // ------------------------------------------------------------ comparing

  function CompareInts(a: int, b: int): int {
    if a < b then -1 else if a > b then 1 else 0
  }

  /** The order of strings in JavaScript: by code units, a proper prefix first. */
  function CompareTexts(a: JsString, b: JsString): int {
    if a == [] then (if b == [] then 0 else -1)
    else if b == [] then 1
    else if a[0] != b[0] then CompareInts(a[0] as int, b[0] as int)
    else CompareTexts(a[1..], b[1..])
  }

  predicate IsNumeric(identifier: JsString) {
    identifier != [] && forall c :: c in identifier ==> IsDigit(c)
  }

  function CompareIdentifiers(a: JsString, b: JsString): int {
    if IsNumeric(a) && IsNumeric(b) then CompareInts(DigitsValue(a), DigitsValue(b))
    else if IsNumeric(a) then -1
    else if IsNumeric(b) then 1
    else CompareTexts(a, b)
  }

  function CompareLists(a: seq<JsString>, b: seq<JsString>): int {
    if a == [] then (if b == [] then 0 else -1)
    else if b == [] then 1
    else if CompareIdentifiers(a[0], b[0]) != 0 then CompareIdentifiers(a[0], b[0])
    else CompareLists(a[1..], b[1..])
  }

  /** A release comes behind its prereleases. */
  function ComparePrereleases(a: JsString, b: JsString): int {
    if a != [] && b == [] then -1
    else if a == [] && b != [] then 1
    else CompareLists(Identifiers(a), Identifiers(b))
  }

  function Then(first: int, second: int): int {
    if first != 0 then first else second
  }

  function CompareParsed(a: Version, b: Version): int {
    Then(CompareInts(a.major, b.major),
         Then(CompareInts(a.minor, b.minor),
              Then(CompareInts(a.patch, b.patch), ComparePrereleases(a.prerelease, b.prerelease))))
  }

  function CompareVersions(left: JsString, right: JsString): int {
    CompareParsed(ParseVersion(left), ParseVersion(right))
  }

  // ------------------------------------------------------------ the loops

  lemma CompareSame(a: JsString)
    ensures CompareIdentifiers(a, a) == 0
  {
    CompareTextsSame(a);
  }

  lemma {:induction false} CompareTextsSame(a: JsString)
    ensures CompareTexts(a, a) == 0
  {
    if a != [] {
      CompareTextsSame(a[1..]);
    }
  }

  method ComparePrereleaseIdentifiers(left: JsString, right: JsString) returns (r: int)
    ensures r == CompareLists(Identifiers(left), Identifiers(right))
  {
    hide Identifiers, CompareTexts, DigitsValue;
    var a, b := Identifiers(left), Identifiers(right);
    var maxLength := if |a| > |b| then |a| else |b|;
    var index := 0;
    assert a[0..] == a && b[0..] == b;
    while index < maxLength
      invariant 0 <= index <= |a| && index <= |b|
      invariant CompareLists(a, b) == CompareLists(a[index..], b[index..])
    {
      if index >= |a| {
        return -1;
      }
      if index >= |b| {
        return 1;
      }
      assert a[index..][1..] == a[index + 1..] && b[index..][1..] == b[index + 1..];
      if a[index] != b[index] {
        var leftIsNumeric, rightIsNumeric := IsNumeric(a[index]), IsNumeric(b[index]);
        if leftIsNumeric && rightIsNumeric {
          if DigitsValue(a[index]) > DigitsValue(b[index]) {
            return 1;
          }
          if DigitsValue(a[index]) < DigitsValue(b[index]) {
            return -1;
          }
        } else if leftIsNumeric {
          return -1;
        } else if rightIsNumeric {
          return 1;
        } else {
          CompareTextsIsThreeWay(a[index], b[index]);
          return CompareTexts(a[index], b[index]);
        }
      } else {
        CompareSame(a[index]);
      }
      index := index + 1;
    }
    r := 0;
  }

  lemma {:induction false} CompareTextsIsThreeWay(a: JsString, b: JsString)
    ensures CompareTexts(a, b) in {-1, 0, 1}
    ensures CompareTexts(a, b) == 0 <==> a == b
    ensures CompareTexts(b, a) == -CompareTexts(a, b)
  {
    if a != [] && b != [] && a[0] == b[0] {
      CompareTextsIsThreeWay(a[1..], b[1..]);
      assert a == [a[0]] + a[1..] && b == [b[0]] + b[1..];
    }
  }

  method Compare(left: JsString, right: JsString) returns (r: int)
    ensures r == CompareVersions(left, right)
  {
    hide ParseVersion, CompareLists;
    var v, w := ParseVersion(left), ParseVersion(right);
    var a, b := [v.major, v.minor, v.patch], [w.major, w.minor, w.patch];
    var index := 0;
    while index < 3
      invariant 0 <= index <= 3
      invariant forall i :: 0 <= i < index ==> a[i] == b[i]
    {
      assert index > 0 ==> a[0] == b[0];
      assert index > 1 ==> a[1] == b[1];
      if a[index] > b[index] {
        return 1;
      }
      if a[index] < b[index] {
        return -1;
      }
      index := index + 1;
    }
    assert a[0] == b[0] && a[1] == b[1] && a[2] == b[2];
    if v.prerelease != [] && w.prerelease == [] {
      return -1;
    }
    if v.prerelease == [] && w.prerelease != [] {
      return 1;
    }
    r := ComparePrereleaseIdentifiers(v.prerelease, w.prerelease);
  }

  // ------------------------------------------------------------ the order

  /** Two steps down or level make one; it is level only when both were. */
  predicate Chains(ab: int, bc: int, ac: int) {
    ab <= 0 && bc <= 0 ==> ac <= 0 && (ac == 0 ==> ab == 0 && bc == 0)
  }

  lemma {:induction false} CompareTextsChains(a: JsString, b: JsString, c: JsString)
    ensures Chains(CompareTexts(a, b), CompareTexts(b, c), CompareTexts(a, c))
  {
    if a != [] && b != [] && c != [] {
      CompareTextsChains(a[1..], b[1..], c[1..]);
    }
  }

  lemma CompareIdentifiersChains(a: JsString, b: JsString, c: JsString)
    ensures Chains(CompareIdentifiers(a, b), CompareIdentifiers(b, c), CompareIdentifiers(a, c))
    ensures CompareIdentifiers(b, a) == -CompareIdentifiers(a, b) && CompareIdentifiers(a, b) in {-1, 0, 1}
  {
    hide CompareTexts, DigitsValue, IsNumeric;
    CompareTextsChains(a, b, c);
    CompareTextsIsThreeWay(a, b);
  }

  lemma {:induction false} CompareListsChains(a: seq<JsString>, b: seq<JsString>, c: seq<JsString>)
    ensures Chains(CompareLists(a, b), CompareLists(b, c), CompareLists(a, c))
    ensures CompareLists(b, a) == -CompareLists(a, b) && CompareLists(a, b) in {-1, 0, 1}
    decreases |a| + |b| + |c|
  {
    hide CompareIdentifiers;
    if a != [] && b != [] {
      CompareIdentifiersChains(a[0], b[0], if c == [] then [] else c[0]);
      CompareListsChains(a[1..], b[1..], if c == [] then [] else c[1..]);
    }
  }

  lemma ComparePrereleasesChains(a: JsString, b: JsString, c: JsString)
    ensures Chains(ComparePrereleases(a, b), ComparePrereleases(b, c), ComparePrereleases(a, c))
    ensures ComparePrereleases(b, a) == -ComparePrereleases(a, b) && ComparePrereleases(a, b) in {-1, 0, 1}
  {
    hide CompareLists, Identifiers;
    CompareListsChains(Identifiers(a), Identifiers(b), Identifiers(c));
  }

  /** The comparison is antisymmetric in sign, total and transitive on all strings. */
  lemma VersionOrder(a: JsString, b: JsString, c: JsString)
    ensures CompareVersions(b, a) == -CompareVersions(a, b) && CompareVersions(a, b) in {-1, 0, 1}
    ensures Chains(CompareVersions(a, b), CompareVersions(b, c), CompareVersions(a, c))
  {
    hide ParseVersion, ComparePrereleases;
    ComparePrereleasesChains(ParseVersion(a).prerelease, ParseVersion(b).prerelease, ParseVersion(c).prerelease);
  }
}
