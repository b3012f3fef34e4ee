/** Parsing what the printer and the editor produce. */
module DotenvProofs {
  import opened JsStrings
  import opened TextLines
  import opened Dotenv

  // ------------------------------------------------------------ the assignment pattern

  predicate AllSpace(s: JsString) {
    forall i :: 0 <= i < |s| ==> IsSpace(s[i])
  }

  /** `\s*(?:export\s+)?` */
  predicate IsPrefix(p: JsString) {
    var a := SpaceRun(p);
    a == |p| || (EXPORT <= p[a..] && |p| > a + 6 && AllSpace(p[a + 6..]))
  }

  /** `[A-Za-z_][A-Za-z0-9_]*` */
  predicate IsIdentifier(k: JsString) {
    k != [] && IdentStart(k[0]) && forall i :: 0 <= i < |k| ==> IdentPart(k[i])
  }

  /** `\s*=\s*` */
  predicate IsSeparator(s: JsString) {
    var a := SpaceRun(s);
    a < |s| && s[a] == EQUALS && AllSpace(s[a + 1..])
  }

  lemma SpaceRunConcat(w: JsString, t: JsString)
    requires AllSpace(w) && (t == [] || !IsSpace(t[0]))
    ensures SpaceRun(w + t) == |w|
  {
    hide IsSpace;
    var n := SpaceRun(w + t);
    SpaceRunIsSpace(w + t);
    assert forall i :: 0 <= i < |w| ==> (w + t)[i] == w[i];
    assert t != [] ==> (w + t)[|w|] == t[0];
  }

  lemma {:induction false} PartRunIsPart(s: JsString)
    ensures forall i :: 0 <= i < PartRun(s) ==> IdentPart(s[i])
  {
    hide IdentPart;
    if s != [] && IdentPart(s[0]) {
      PartRunIsPart(s[1..]);
      assert forall i :: 1 <= i < PartRun(s) ==> s[i] == s[1..][i - 1];
    }
  }

  lemma IdentRunConcat(k: JsString, t: JsString)
    requires IsIdentifier(k) && (t == [] || !IdentPart(t[0]))
    ensures IdentRun(k + t) == |k|
  {
    hide IdentPart;
    var n := PartRun(k + t);
    PartRunIsPart(k + t);
    assert (k + t)[0] == k[0];
    assert forall i :: 0 <= i < |k| ==> (k + t)[i] == k[i];
    assert t != [] ==> (k + t)[|k|] == t[0];
  }

  lemma SpaceIsNotIdent(c: CodeUnit)
    ensures IsSpace(c) || c == EQUALS ==> !IdentPart(c)
    ensures IdentPart(c) ==> !IsSpace(c)
  {}

  lemma EqualsIsNotSpace()
    ensures !IsSpace(EQUALS)
  {}

  lemma SeparatorParts(before: JsString, behind: JsString, v: JsString)
    requires AllSpace(before) && AllSpace(behind) && (v == [] || !IsSpace(v[0]))
    ensures var s := before + ([EQUALS] + behind);
            && SpaceRun(s + v) == |before| && (s + v)[|before|] == EQUALS
            && SpaceRun((s + v)[|before| + 1..]) == |behind|
            && (s + v)[|before| + 1..][|behind|..] == v && (s + v)[..|s|] == s
  {
    hide IsSpace, AllSpace, SpaceRun;
    var s, rest := before + ([EQUALS] + behind), [EQUALS] + (behind + v);
    EqualsIsNotSpace();
    assert s + v == before + rest;
    SpaceRunConcat(before, rest);
    assert (before + rest)[|before| + 1..] == behind + v;
    SpaceRunConcat(behind, v);
  }

  /** How the two runs of white space in a separator are found again. */
  lemma SeparatorRuns(s: JsString, v: JsString)
    requires IsSeparator(s) && (v == [] || !IsSpace(v[0]))
    ensures var a := SpaceRun(s);
            && SpaceRun(s + v) == a < |s + v| && (s + v)[a] == EQUALS
            && SpaceRun((s + v)[a + 1..]) == |s| - a - 1
            && (s + v)[a + 1..][|s| - a - 1..] == v && (s + v)[..|s|] == s
  {
    hide IsSpace, SpaceRun, AllSpace;
    var a := SpaceRun(s);
    RunIsSpace(s);
    assert s == s[..a] + ([EQUALS] + s[a + 1..]);
    SeparatorParts(s[..a], s[a + 1..], v);
  }

  lemma ParseKeyedParts(prefix: JsString, text: JsString, k: nat, a: nat, b: nat)
    requires k == IdentRun(text) > 0 && a == SpaceRun(text[k..]) < |text| - k && text[k..][a] == EQUALS
    requires b == SpaceRun(text[k..][a + 1..])
    ensures ParseKeyed(prefix, text)
         == if HasTerminator(text[k..][a + 1..][b..]) then None
            else Some(Assignment(prefix, text[..k], text[k..][..a + 1 + b], text[k..][a + 1..][b..]))
  {
    hide IdentRun, SpaceRun, HasTerminator;
  }

  lemma ParseKeyedOf(prefix: JsString, k: JsString, s: JsString, v: JsString)
    requires IsIdentifier(k) && IsSeparator(s) && (v == [] || !IsSpace(v[0]))
    ensures ParseKeyed(prefix, k + (s + v))
         == if HasTerminator(v) then None else Some(Assignment(prefix, k, s, v))
  {
    hide IsSpace, IdentStart, IdentPart, HasTerminator, SpaceRun, IdentRun, ParseKeyed, AllSpace;
    var text, tail := k + (s + v), s + v;
    var a := SpaceRun(s);
    SeparatorRuns(s, v);
    assert tail[0] == s[0];
    SpaceIsNotIdent(s[0]);
    SpaceRunIsSpace(s);
    IdentRunConcat(k, tail);
    assert text[|k|..] == tail && text[..|k|] == k;
    ParseKeyedParts(prefix, text, |k|, a, |s| - a - 1);
  }

  lemma SpaceThenEquals(prefix: JsString, w: JsString, t: JsString)
    requires w != [] && AllSpace(w)
    ensures ParseKeyed(prefix, EXPORT + (w + t)).Some? ==> t != [] && (IsSpace(t[0]) || t[0] == EQUALS)
  {
    var text := EXPORT + (w + t);
    SpaceIsNotIdent(w[0]);
    IdentRunConcat(EXPORT, w + t);
    assert text[6..] == w + t;
    if t == [] || !IsSpace(t[0]) {
      SpaceRunConcat(w, t);
      assert t != [] ==> (w + t)[|w|] == t[0];
    }
  }

  lemma NoKeyBeforeEquals(prefix: JsString, t: JsString)
    requires t != [] && t[0] == EQUALS
    ensures ParseKeyed(prefix, t) == None
  {}

  lemma KeyIsExport(k: JsString, tail: JsString)
    requires IsIdentifier(k) && tail != [] && !IdentPart(tail[0])
    requires EXPORT <= k + tail && |k + tail| > 6 && !IdentPart((k + tail)[6])
    ensures |k| == 6
  {
    hide IdentPart, IdentStart;
    var body := k + tail;
    ExportIsIdentifier();
    assert body[..6] == EXPORT;
    assert forall i :: 0 <= i < |k| ==> IdentPart(body[i]);
    assert !IdentPart(body[|k|]);
    assert forall i :: 0 <= i < 6 ==> IdentPart(body[i]);
  }

  /** In `export = v` the word is the key: there is no other key behind it. */
  lemma ExportAsKey(prefix: JsString, k: JsString, s: JsString, v: JsString)
    requires IsIdentifier(k) && IsSeparator(s) && (v == [] || !IsSpace(v[0]))
    requires EXPORT <= k + (s + v) && SpaceRun((k + (s + v))[6..]) > 0
    ensures ParseKeyed(prefix, (k + (s + v))[6 + SpaceRun((k + (s + v))[6..])..]) == None
  {
    hide IsSpace, IdentStart, IdentPart, ParseKeyed;
    var body, a := k + (s + v), SpaceRun(s);
    assert body[6] == body[6..][0];
    SpaceIsNotIdent(body[6]);
    SpaceIsNotIdent(s[0]);
    KeyIsExport(k, s + v);
    assert body[6..] == s + v;
    SeparatorRuns(s, v);
    assert body[6 + a..] == (s + v)[a..];
    NoKeyBeforeEquals(prefix, body[6 + a..]);
  }

  lemma ExportIsIdentifier()
    ensures IsIdentifier(EXPORT)
  {}

  lemma ParseWithoutExport(p: JsString, k: JsString, s: JsString, v: JsString)
    requires AllSpace(p) && IsIdentifier(k) && IsSeparator(s) && (v == [] || !IsSpace(v[0]))
    ensures ParseAssignmentLine(p + (k + (s + v)))
         == if HasTerminator(v) then None else Some(Assignment(p, k, s, v))
  {
    hide IsSpace, IdentStart, IdentPart, HasTerminator, ParseKeyed, SpaceRun, AllSpace, IsSeparator;
    var body := k + (s + v);
    var line := p + body;
    assert body[0] == k[0];
    SpaceIsNotIdent(k[0]);
    SpaceRunConcat(p, body);
    assert line[|p|..] == body && line[..|p|] == p;
    ParseKeyedOf(p, k, s, v);
    if EXPORT <= body && SpaceRun(body[6..]) > 0 {
      ExportAsKey(line[..|p| + 6 + SpaceRun(body[6..])], k, s, v);
    }
  }

  lemma ParseWithExport(front: JsString, w: JsString, k: JsString, s: JsString, v: JsString)
    requires AllSpace(front) && w != [] && AllSpace(w)
    requires IsIdentifier(k) && IsSeparator(s) && (v == [] || !IsSpace(v[0]))
    ensures ParseAssignmentLine((front + (EXPORT + w)) + (k + (s + v)))
         == if HasTerminator(v) then None else Some(Assignment(front + (EXPORT + w), k, s, v))
  {
    hide IsSpace, IdentStart, IdentPart, HasTerminator, ParseKeyed, SpaceRun, AllSpace, IsSeparator;
    var p, body := front + (EXPORT + w), k + (s + v);
    var line, rest := p + body, EXPORT + (w + body);
    assert line == front + rest && rest[0] == EXPORT[0] && body[0] == k[0];
    ExportIsIdentifier();
    SpaceIsNotIdent(EXPORT[0]);
    SpaceIsNotIdent(k[0]);
    SpaceRunConcat(front, rest);
    SpaceRunConcat(w, body);
    assert line[|front|..] == rest && line[..|front|] == front;
    assert rest[..6] == EXPORT && rest[6..] == w + body && rest[6 + |w|..] == body;
    assert line[..|front| + (6 + |w|)] == p;
    ParseKeyedOf(p, k, s, v);
    SpaceThenEquals(front, w, body);
    SpaceIsNotIdent(body[0]);
  }

  /** The pattern matches exactly the concatenations of its parts, and finds the parts again. */
  lemma ParseAssignmentOf(p: JsString, k: JsString, s: JsString, v: JsString)
    requires IsPrefix(p) && IsIdentifier(k) && IsSeparator(s) && (v == [] || !IsSpace(v[0]))
    ensures ParseAssignmentLine(p + (k + (s + v)))
         == if HasTerminator(v) then None else Some(Assignment(p, k, s, v))
  {
    hide IsSpace, IdentStart, IdentPart, HasTerminator, ParseKeyed, ParseAssignmentLine;
    var a := SpaceRun(p);
    RunIsSpace(p);
    if a == |p| {
      assert p[..a] == p;
      ParseWithoutExport(p, k, s, v);
    } else {
      var w := p[a + 6..];
      assert p == p[..a] + (EXPORT + w);
      ParseWithExport(p[..a], w, k, s, v);
    }
  }

  /** What a match looks like: its parts, in order, make up the line. */
  ghost predicate WellFormed(a: Assignment) {
    && IsPrefix(a.prefix) && IsIdentifier(a.key) && IsSeparator(a.separator)
    && (a.valuePart == [] || !IsSpace(a.valuePart[0])) && !HasTerminator(a.valuePart)
  }

  function Text(a: Assignment): JsString {
    a.prefix + (a.key + (a.separator + a.valuePart))
  }

  lemma IdentRunIsIdentifier(text: JsString)
    requires IdentRun(text) > 0
    ensures IsIdentifier(text[..IdentRun(text)])
  {
    hide IsLetter, IsDigit, IsSpace;
    PartRunIsPart(text);
    assert forall i :: 0 <= i < IdentRun(text) ==> text[..IdentRun(text)][i] == text[i];
  }

  lemma RunIsSpace(s: JsString)
    ensures AllSpace(s[..SpaceRun(s)]) && SpaceRun(s[..SpaceRun(s)]) == SpaceRun(s)
  {
    hide IsSpace, SpaceRun;
    var w := s[..SpaceRun(s)];
    SpaceRunIsSpace(s);
    assert w + [] == w;
    SpaceRunConcat(w, []);
  }

  lemma SeparatorFound(before: JsString, behind: JsString)
    requires AllSpace(before) && AllSpace(behind)
    ensures IsSeparator(before + ([EQUALS] + behind))
  {
    hide IsSpace, AllSpace, SpaceRun;
    EqualsIsNotSpace();
    SpaceRunConcat(before, [EQUALS] + behind);
    assert (before + ([EQUALS] + behind))[|before| + 1..] == behind;
  }

  lemma ParseKeyedMatches(prefix: JsString, text: JsString)
    requires ParseKeyed(prefix, text).Some?
    ensures var k := IdentRun(text);
            var a := SpaceRun(text[k..]);
            && k > 0 && a < |text| - k && text[k..][a] == EQUALS
  {
    hide IdentRun, SpaceRun, HasTerminator;
  }

  lemma PartsAreWellFormed(prefix: JsString, key: JsString, before: JsString, behind: JsString, v: JsString)
    requires IsPrefix(prefix) && IsIdentifier(key) && AllSpace(before) && AllSpace(behind)
    requires (v == [] || !IsSpace(v[0])) && !HasTerminator(v)
    ensures var a := Assignment(prefix, key, before + ([EQUALS] + behind), v);
            WellFormed(a) && a.key + (a.separator + v) == key + (before + ([EQUALS] + (behind + v)))
  {
    hide IsPrefix, IsIdentifier, AllSpace, IsSpace, HasTerminator, IsSeparator;
    SeparatorFound(before, behind);
  }

  lemma SplitTwice(s: JsString, i: nat, j: nat)
    requires i < |s| && j < |s| - i
    ensures s == s[..i] + ([s[i]] + (s[i + 1..][..j] + s[i + 1..][j..]))
    ensures s[..i + 1 + j] == s[..i] + ([s[i]] + s[i + 1..][..j])
  {}

  lemma ParseKeyedSound(prefix: JsString, text: JsString)
    requires ParseKeyed(prefix, text).Some? && IsPrefix(prefix)
    ensures var a := ParseKeyed(prefix, text).value;
            WellFormed(a) && a.prefix == prefix && a.key + (a.separator + a.valuePart) == text
  {
    hide *;
    ParseKeyedMatches(prefix, text);
    var k := IdentRun(text);
    var key, afterKey := text[..k], text[k..];
    var a := SpaceRun(afterKey);
    var afterEquals := afterKey[a + 1..];
    var b := SpaceRun(afterEquals);
    ParseKeyedParts(prefix, text, k, a, b);
    IdentRunIsIdentifier(text);
    RunIsSpace(afterKey);
    RunIsSpace(afterEquals);
    SplitTwice(afterKey, a, b);
    PartsAreWellFormed(prefix, key, afterKey[..a], afterEquals[..b], afterEquals[b..]);
    assert text == key + afterKey;
  }

  lemma EmptyIsSpace()
    ensures AllSpace([])
  {}

  lemma PrefixFound(front: JsString, w: JsString)
    requires AllSpace(front) && AllSpace(w)
    ensures IsPrefix(front) && (w != [] ==> IsPrefix(front + (EXPORT + w)))
  {
    hide IsSpace, AllSpace, SpaceRun;
    var p := front + (EXPORT + w);
    assert front + [] == front;
    SpaceRunConcat(front, []);
    ExportIsIdentifier();
    SpaceIsNotIdent(EXPORT[0]);
    SpaceRunConcat(front, EXPORT + w);
    assert p[|front|..] == EXPORT + w && p[|front| + 6..] == w;
  }

  lemma PrefixesOf(line: JsString)
    ensures var a := SpaceRun(line);
            && IsPrefix(line[..a])
            && (EXPORT <= line[a..] && SpaceRun(line[a..][6..]) > 0 ==>
                IsPrefix(line[..a + (6 + SpaceRun(line[a..][6..]))]))
  {
    hide IsSpace, AllSpace, SpaceRun, IsPrefix;
    var a := SpaceRun(line);
    var rest := line[a..];
    RunIsSpace(line);
    EmptyIsSpace();
    PrefixFound(line[..a], []);
    if EXPORT <= rest && SpaceRun(rest[6..]) > 0 {
      var c := SpaceRun(rest[6..]);
      var w := rest[6..][..c];
      RunIsSpace(rest[6..]);
      assert line[..a + (6 + c)] == line[..a] + (EXPORT + w);
      PrefixFound(line[..a], w);
    }
  }

  /** Every match is well formed and covers the whole line. */
  lemma ParseAssignmentSound(line: JsString)
    requires ParseAssignmentLine(line).Some?
    ensures WellFormed(ParseAssignmentLine(line).value) && Text(ParseAssignmentLine(line).value) == line
  {
    hide ParseKeyed, WellFormed, SpaceRun, IsPrefix;
    var a := SpaceRun(line);
    var rest := line[a..];
    PrefixesOf(line);
    if EXPORT <= rest && SpaceRun(rest[6..]) > 0 {
      var b := 6 + SpaceRun(rest[6..]);
      if ParseKeyed(line[..a + b], rest[b..]).Some? {
        ParseKeyedSound(line[..a + b], rest[b..]);
        assert line == line[..a + b] + rest[b..];
      } else {
        ParseKeyedSound(line[..a], rest);
        assert line == line[..a] + rest;
      }
    } else {
      ParseKeyedSound(line[..a], rest);
      assert line == line[..a] + rest;
    }
  }

  /** A line matches exactly when it is the text of some well-formed assignment, and then of that one. */
  lemma ParseAssignmentExact(line: JsString, a: Assignment)
    ensures ParseAssignmentLine(line) == Some(a) <==> WellFormed(a) && Text(a) == line
  {
    hide ParseAssignmentLine;
    if WellFormed(a) {
      ParseAssignmentOf(a.prefix, a.key, a.separator, a.valuePart);
    }
    if ParseAssignmentLine(line).Some? {
      ParseAssignmentSound(line);
    }
  }
}
