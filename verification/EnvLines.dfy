/** The value of one key in a list of lines, and what stripping and trimming the lines does to it. */
module EnvLines {
  import opened JsStrings
  import opened TextLines
  import opened Dotenv
  import opened DotenvProofs
  import opened DotenvEditing

  // ------------------------------------------------------------ the last assignment decides

  function At(env: Env, key: JsString): Option<JsString> {
    if key in env then Some(env[key]) else None
  }

  /** The value that a line gives to a key. */
  function Assigned(line: JsString, key: JsString): Option<JsString> {
    match ParseAssignmentLine(line)
    case None => None
    case Some(a) => if a.key == key then Some(UnquoteEnvValue(a.valuePart)) else None
  }

  /** The second value, or else the first. */
  function Or(first: Option<JsString>, second: Option<JsString>): Option<JsString> {
    if second.Some? then second else first
  }

  lemma OrLaws(a: Option<JsString>, b: Option<JsString>, c: Option<JsString>)
    ensures Or(a, None) == a && Or(None, b) == b && Or(a, Or(b, c)) == Or(Or(a, b), c)
  {}

  /** The value that the last line with the key gives to it. */
  function LastOf(lines: seq<JsString>, key: JsString): Option<JsString>
    decreases |lines|
  {
    if lines == [] then None else Or(Assigned(lines[0], key), LastOf(lines[1..], key))
  }

  lemma PutAt(values: Env, line: JsString, key: JsString)
    requires key != PROTO
    ensures At(Put(values, line), key) == Or(At(values, key), Assigned(line, key))
  {
    hide ParseAssignmentLine, UnquoteEnvValue;
  }

  lemma {:induction false} ParseAt(values: Env, lines: seq<JsString>, key: JsString)
    requires key != PROTO
    ensures At(ParseLines(values, lines), key) == Or(At(values, key), LastOf(lines, key))
    decreases |lines|
  {
    hide Put, Assigned, At;
    if lines != [] {
      PutAt(values, lines[0], key);
      ParseAt(Put(values, lines[0]), lines[1..], key);
    }
  }

  /** A parsed file holds the value of the last line with the key. */
  lemma ParseEnvAt(text: JsString, key: JsString)
    requires key != PROTO
    ensures At(ParseEnv(text), key) == LastOf(Split(text), key)
  {
    hide ParseLines, LastOf, Split;
    ParseAt(map[], Split(text), key);
  }

  lemma {:induction false} LastOfConcat(first: seq<JsString>, second: seq<JsString>, key: JsString)
    ensures LastOf(first + second, key) == Or(LastOf(first, key), LastOf(second, key))
    decreases |first|
  {
    hide Assigned;
    if first == [] {
      assert first + second == second;
    } else {
      assert (first + second)[1..] == first[1..] + second;
      LastOfConcat(first[1..], second, key);
    }
  }

  lemma LastOfOne(line: JsString, key: JsString)
    ensures LastOf([line], key) == Assigned(line, key)
  {
    hide Assigned;
    assert [line][1..] == [];
  }

  lemma AssignedOfBlank(line: JsString, key: JsString)
    requires Blank(line)
    ensures Assigned(line, key) == None
  {
    hide IsSpace;
    TrimEndRest(line);
    assert line[0..] == line;
    SpaceRunConcat(line, []);
    assert line + [] == line;
  }

  lemma EmptyIsBlank()
    ensures Blank([])
  {}

  // ------------------------------------------------------------ white space at the end of a line

  lemma AllSpaceSnoc(w: JsString, c: CodeUnit)
    requires AllSpace(w) && IsSpace(c)
    ensures AllSpace(w + [c])
  {
    hide IsSpace;
  }

  lemma TrimEndLast(s: JsString)
    ensures TrimEnd(s) == if s != [] && IsSpace(s[|s| - 1]) then TrimEnd(s[..|s| - 1]) else s
  {
    hide IsSpace;
  }

  lemma {:induction false} TrimEndRest(s: JsString)
    ensures AllSpace(s[|TrimEnd(s)|..])
    ensures s == TrimEnd(s) + s[|TrimEnd(s)|..]
  {
    hide IsSpace, AllSpace, TrimEnd;
    TrimEndLast(s);
    if s != [] && IsSpace(s[|s| - 1]) {
      var front, c := s[..|s| - 1], s[|s| - 1];
      TrimEndRest(front);
      AllSpaceSnoc(front[|TrimEnd(s)|..], c);
      assert s[|TrimEnd(s)|..] == front[|TrimEnd(s)|..] + [c];
    } else {
      EmptyIsSpace();
      assert s[|s|..] == [];
    }
  }

  lemma {:induction false} TrimEndSpaces(s: JsString, w: JsString)
    requires AllSpace(w)
    ensures TrimEnd(s + w) == TrimEnd(s)
    decreases |w|
  {
    hide IsSpace;
    if w == [] {
      assert s + w == s;
    } else {
      assert (s + w)[..|s + w| - 1] == s + w[..|w| - 1];
      TrimEndSpaces(s, w[..|w| - 1]);
    }
  }

  lemma TrimSpacesBehind(s: JsString, w: JsString)
    requires AllSpace(w) && (s == [] || !IsSpace(s[0]))
    ensures Trim(s + w) == Trim(s)
  {
    hide IsSpace, TrimEnd;
    if s == [] {
      SpaceRunConcat(w, []);
      assert s + w == w == w + [] && w[|w|..] == [];
      assert Trim(w) == TrimEnd([]) == Trim([]);
    } else {
      assert (s + w)[0..] == s + w && s[0..] == s;
      TrimEndSpaces(s, w);
    }
  }

  lemma TrimEndTwice(s: JsString)
    ensures TrimEnd(TrimEnd(s)) == TrimEnd(s)
  {
    hide IsSpace;
    EndsInNonSpace(TrimEnd(s));
  }

  lemma EndsInNonSpace(s: JsString)
    ensures s != [] && !IsSpace(s[|s| - 1]) ==> TrimEnd(s) == s
  {}

  lemma SeparatorParted(s: JsString)
    requires IsSeparator(s)
    ensures SpaceRun(s) < |s| && s[SpaceRun(s)] == EQUALS && AllSpace(s[SpaceRun(s) + 1..])
  {}

  lemma AllSpacePrefix(s: JsString, n: nat)
    requires AllSpace(s) && n <= |s|
    ensures AllSpace(s[..n])
  {
    hide IsSpace;
  }

  /** A shorter separator still separates, as long as it holds the equals sign. */
  lemma CutSeparator(s: JsString, cut: nat)
    requires IsSeparator(s) && SpaceRun(s) < cut <= |s|
    ensures IsSeparator(s[..cut])
  {
    hide IsSpace, SpaceRun, AllSpace;
    var a := SpaceRun(s);
    SeparatorParted(s);
    RunIsSpace(s);
    AllSpacePrefix(s[a + 1..], cut - a - 1);
    assert s[a + 1..][..cut - a - 1] == s[a + 1..cut];
    assert s[..cut] == s[..a] + ([EQUALS] + s[a + 1..cut]);
    SeparatorFound(s[..a], s[a + 1..cut]);
  }

  lemma SpacesBehind(line: JsString, cut: nat, i: nat)
    requires cut <= |line| && AllSpace(line[cut..]) && i < |line|
    ensures cut <= i ==> IsSpace(line[i])
  {
    hide IsSpace;
    if cut <= i {
      assert line[cut..][i - cut] == line[i];
    }
  }

  /** Cutting white space off a match leaves a match of the same key and value. */
  lemma CutMatch(a: Assignment, cut: nat) returns (b: Assignment)
    requires WellFormed(a) && cut <= |Text(a)| && AllSpace(Text(a)[cut..])
    ensures WellFormed(b) && Text(b) == Text(a)[..cut] && b.key == a.key
    ensures UnquoteEnvValue(b.valuePart) == UnquoteEnvValue(a.valuePart)
  {
    hide IsSpace, IsPrefix, IsIdentifier, IsLineTerminator, Trim, SpaceRun;
    var front := a.prefix + a.key;
    var line := Text(a);
    if a.valuePart == [] {
      var n := SpaceRun(a.separator);
      EqualsIsNotSpace();
      assert line == front + a.separator;
      SpacesBehind(line, cut, |front| + n);
      CutSeparator(a.separator, cut - |front|);
      b := a.(separator := a.separator[..cut - |front|]);
    } else {
      var q := |front| + |a.separator|;
      assert line[q] == a.valuePart[0];
      SpacesBehind(line, cut, q);
      var v, w := a.valuePart[..cut - q], a.valuePart[cut - q..];
      assert w == line[cut..] && a.valuePart == v + w;
      b := a.(valuePart := v);
      TrimSpacesBehind(v, w);
    }
  }

  /** Cutting white space off a line takes no assignment away and changes none. */
  lemma CutKeeps(line: JsString, cut: nat)
    requires cut <= |line| && AllSpace(line[cut..]) && ParseAssignmentLine(line).Some?
    ensures ParseAssignmentLine(line[..cut]).Some?
    ensures forall key :: Assigned(line[..cut], key) == Assigned(line, key)
  {
    hide ParseAssignmentLine, UnquoteEnvValue, WellFormed, Text, AllSpace;
    var a := ParseAssignmentLine(line).value;
    ParseAssignmentSound(line);
    var b := CutMatch(a, cut);
    ParseAssignmentExact(line[..cut], b);
  }

  // ------------------------------------------------------------ stripping carriage returns

  /** The line without its last carriage return, n times. */
  function StripN(line: JsString, n: nat): JsString {
    if n == 0 then line else StripN(StripCR(line), n - 1)
  }

  lemma {:induction false} StripTwice(line: JsString, n: nat, m: nat)
    ensures StripN(StripN(line, n), m) == StripN(line, n + m)
    decreases n
  {
    hide StripCR;
    if n > 0 {
      StripTwice(StripCR(line), n - 1, m);
    }
  }

  lemma StripOne(line: JsString)
    ensures StripN(line, 0) == line && StripN(line, 1) == StripCR(line)
  {
    assert StripN(StripCR(line), 0) == StripCR(line);
  }

  /** Stripping removes white space. */
  lemma {:induction false} StripCuts(line: JsString, n: nat)
    ensures StripN(line, n) <= line && AllSpace(line[|StripN(line, n)|..])
    ensures TrimEnd(StripN(line, n)) == TrimEnd(line)
    decreases n
  {
    hide IsSpace, TrimEnd;
    if n > 0 {
      var shorter := StripCR(line);
      StripCuts(shorter, n - 1);
      var r := StripN(line, n);
      CarriageReturnIsSpace();
      assert EndsWithCR(line) ==> line[|r|..] == shorter[|r|..] + [CR];
      assert line == r + line[|r|..];
      TrimEndSpaces(r, line[|r|..]);
    }
  }

  lemma {:induction false} StripNothing(line: JsString, n: nat)
    requires !EndsWithCR(line)
    ensures StripN(line, n) == line
  {
    if n > 0 {
      StripNothing(line, n - 1);
    }
  }

  lemma StripKeeps(line: JsString, n: nat)
    requires ParseAssignmentLine(line).Some?
    ensures ParseAssignmentLine(StripN(line, n)).Some?
    ensures forall key :: Assigned(StripN(line, n), key) == Assigned(line, key)
  {
    hide ParseAssignmentLine, Assigned, StripN, AllSpace;
    StripCuts(line, n);
    var cut := |StripN(line, n)|;
    assert line[..cut] == StripN(line, n);
    CutKeeps(line, cut);
  }

  lemma TrimKeeps(line: JsString)
    requires ParseAssignmentLine(line).Some?
    ensures ParseAssignmentLine(TrimEnd(line)).Some?
    ensures forall key :: Assigned(TrimEnd(line), key) == Assigned(line, key)
  {
    hide ParseAssignmentLine, Assigned, TrimEnd, AllSpace;
    TrimEndRest(line);
    var cut := |TrimEnd(line)|;
    assert line[..cut] == TrimEnd(line);
    CutKeeps(line, cut);
  }

  /** What a stripped line assigns, the trimmed line assigns as well. */
  lemma TrimShowsMore(line: JsString, n: nat, key: JsString)
    ensures Assigned(StripN(line, n), key).Some? ==> Assigned(TrimEnd(line), key) == Assigned(StripN(line, n), key)
  {
    hide TrimEnd, StripN, UnquoteEnvValue, ParseAssignmentLine;
    StripCuts(line, n);
    if ParseAssignmentLine(StripN(line, n)).Some? {
      TrimKeeps(StripN(line, n));
    }
  }

  /** All lines but the last stripped n times, the last one m times. */
  function StripLines(lines: seq<JsString>, n: nat, m: nat): (r: seq<JsString>)
    ensures |r| == |lines|
    decreases |lines|
  {
    if lines == [] then []
    else if |lines| == 1 then [StripN(lines[0], m)]
    else [StripN(lines[0], n)] + StripLines(lines[1..], n, m)
  }

  lemma {:induction false} StripLinesAt(lines: seq<JsString>, n: nat, m: nat, i: nat)
    requires i < |lines|
    ensures StripLines(lines, n, m)[i] == StripN(lines[i], if i == |lines| - 1 then m else n)
    decreases |lines|
  {
    hide StripN;
    if |lines| > 1 && i > 0 {
      StripLinesAt(lines[1..], n, m, i - 1);
    }
  }

  lemma {:induction false} StripLinesTwice(lines: seq<JsString>, n: nat, m: nat, n': nat, m': nat)
    ensures StripLines(StripLines(lines, n, m), n', m') == StripLines(lines, n + n', m + m')
    decreases |lines|
  {
    hide StripN;
    if |lines| == 1 {
      StripTwice(lines[0], m, m');
    } else if lines != [] {
      StripTwice(lines[0], n, n');
      StripLinesTwice(lines[1..], n, m, n', m');
      assert StripLines(lines, n, m)[1..] == StripLines(lines[1..], n, m);
    }
  }

  lemma {:induction false} StripLinesConcat(first: seq<JsString>, second: seq<JsString>, n: nat, m: nat)
    requires second != []
    ensures StripLines(first + second, n, m) == StripLines(first, n, n) + StripLines(second, n, m)
    decreases |first|
  {
    hide StripN;
    if first == [] {
      assert first + second == second;
    } else {
      assert (first + second)[1..] == first[1..] + second;
      StripLinesConcat(first[1..], second, n, m);
      if |first| == 1 {
        assert first[1..] == [];
      }
    }
  }

  lemma {:induction false} StripNoLines(lines: seq<JsString>)
    ensures StripLines(lines, 0, 0) == lines
    decreases |lines|
  {
    if lines != [] {
      StripNoLines(lines[1..]);
      assert lines == [lines[0]] + lines[1..];
    }
  }

  // ------------------------------------------------------------ splitting joined lines

  lemma SplitBefore(line: JsString, rest: JsString)
    requires LF !in line
    ensures Split(line + ([LF] + rest)) == [StripCR(line)] + Split(rest)
  {
    var s := line + ([LF] + rest);
    IndexOfLFConcat(line, rest);
    assert s[..|line|] == line && s[|line| + 1..] == rest;
  }

  lemma SplitOne(text: JsString)
    requires LF !in text
    ensures Split(text) == [text]
  {
    IndexOfLFConcat(text, []);
    assert text[..|text|] == text;
  }

  /** Splitting joined lines strips every line but the last. */
  lemma {:induction false} SplitJoinStrips(lines: seq<JsString>)
    requires lines != [] && SingleLines(lines)
    ensures Split(Join(lines)) == StripLines(lines, 1, 0)
    decreases |lines|
  {
    hide Split, StripCR, StripN;
    StripOne(lines[0]);
    if |lines| == 1 {
      SplitOne(lines[0]);
    } else {
      SplitBefore(lines[0], Join(lines[1..]));
      SplitJoinStrips(lines[1..]);
    }
  }

  /** With a line feed behind them, all of them. */
  lemma SplitJoinedFeed(lines: seq<JsString>)
    requires lines != [] && SingleLines(lines)
    ensures Split(Join(lines) + [LF]) == StripLines(lines, 1, 1) + [[]]
  {
    hide Split, Join, StripN, StripLines;
    JoinAppend(lines, []);
    assert [LF] + [] == [LF];
    SplitJoinStrips(lines + [[]]);
    StripLinesConcat(lines, [[]], 1, 0);
    StripNoLines([[]]);
    StripLinesAt([[]], 1, 0, 0);
    StripOne([]);
    assert StripLines([[]], 1, 0) == [[]];
  }
}
