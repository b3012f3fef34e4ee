/** Splitting, trimming and joining texts; the lines of the dotenv editor. */
module TextLines {
  import opened JsStrings

  function IndexOfLF(s: JsString): (n: nat)
    ensures n <= |s|
    ensures n < |s| ==> s[n] == LF
    ensures LF !in s[..n]
  {
    if s == [] || s[0] == LF then 0
    else
      assert s[..IndexOfLF(s[1..]) + 1] == [s[0]] + s[1..][..IndexOfLF(s[1..])];
      IndexOfLF(s[1..]) + 1
  }

  function IndexOf(s: JsString, c: CodeUnit): (n: nat)
    ensures n <= |s|
  {
    if s == [] || s[0] == c then 0 else IndexOf(s[1..], c) + 1
  }

  /** `split` at a single character */
  function SplitOn(s: JsString, c: CodeUnit): (parts: seq<JsString>)
    ensures parts != []
    decreases |s|
  {
    var n := IndexOf(s, c);
    if n == |s| then [s] else [s[..n]] + SplitOn(s[n + 1..], c)
  }

  predicate EndsWithCR(line: JsString) {
    line != [] && line[|line| - 1] == CR
  }

  function StripCR(line: JsString): JsString {
    if EndsWithCR(line) then line[..|line| - 1] else line
  }

  /** `split(/\r?\n/)` */
  function Split(s: JsString): (lines: seq<JsString>)
    ensures |lines| > 0
    decreases |s|
  {
    var n := IndexOfLF(s);
    if n == |s| then [s] else [StripCR(s[..n])] + Split(s[n + 1..])
  }

  /** `join('\n')` */
  function Join(lines: seq<JsString>): JsString {
    if lines == [] then []
    else if |lines| == 1 then lines[0]
    else lines[0] + ([LF] + Join(lines[1..]))
  }

  /** `replace(/\n{3,}/g, '\n\n')`, where `run` line feeds were emitted just before. */
  function Collapse(s: JsString, run: nat): JsString
    decreases |s|
  {
    if s == [] then []
    else if s[0] != LF then [s[0]] + Collapse(s[1..], 0)
    else if run >= 2 then Collapse(s[1..], run)
    else [LF] + Collapse(s[1..], run + 1)
  }

  function TrimEnd(s: JsString): (r: JsString)
    ensures r <= s
    ensures r != [] ==> !IsSpace(r[|r| - 1])
  {
    if s != [] && IsSpace(s[|s| - 1]) then TrimEnd(s[..|s| - 1]) else s
  }

  function SpaceRun(s: JsString): (n: nat)
    ensures n <= |s|
    ensures n < |s| ==> !IsSpace(s[n])
  {
    if s == [] || !IsSpace(s[0]) then 0 else SpaceRun(s[1..]) + 1
  }

  lemma {:induction false} SpaceRunIsSpace(s: JsString)
    ensures forall i :: 0 <= i < SpaceRun(s) ==> IsSpace(s[i])
  {
    hide IsSpace;
    if s != [] && IsSpace(s[0]) {
      SpaceRunIsSpace(s[1..]);
      assert forall i :: 1 <= i < SpaceRun(s) ==> s[i] == s[1..][i - 1];
    }
  }

  function Trim(s: JsString): JsString {
    TrimEnd(s[SpaceRun(s)..])
  }

  // ------------------------------------------------------------ the same on lists of lines

  predicate SingleLines(lines: seq<JsString>) {
    forall i :: 0 <= i < |lines| ==> LF !in lines[i]
  }

  /** No line ends with a carriage return. */
  predicate NoTrailingCR(lines: seq<JsString>) {
    forall i :: 0 <= i < |lines| ==> !EndsWithCR(lines[i])
  }

  function CollapseLines(lines: seq<JsString>, run: nat): (r: seq<JsString>)
    ensures lines != [] ==> r != []
  {
    if |lines| <= 1 then lines
    else if lines[0] != [] then [lines[0]] + CollapseLines(lines[1..], 1)
    else if run >= 2 then CollapseLines(lines[1..], run)
    else [[]] + CollapseLines(lines[1..], run + 1)
  }

  predicate Blank(line: JsString) {
    TrimEnd(line) == []
  }

  function TrimLines(lines: seq<JsString>): (r: seq<JsString>)
    requires lines != []
    ensures r != []
    decreases |lines|
  {
    var last := |lines| - 1;
    if last > 0 && Blank(lines[last]) then TrimLines(lines[..last])
    else lines[..last] + [TrimEnd(lines[last])]
  }

  lemma StripCRKeeps(line: JsString)
    ensures LF !in line ==> LF !in StripCR(line)
  {}

  lemma SplitFirst(s: JsString)
    ensures var n := IndexOfLF(s);
            Split(s) == if n == |s| then [s] else [StripCR(s[..n])] + Split(s[n + 1..])
  {
    hide StripCR, IndexOfLF;
  }

  lemma ConsIsSingle(line: JsString, rest: seq<JsString>)
    requires LF !in line && SingleLines(rest)
    ensures SingleLines([line] + rest)
  {
    assert forall i :: 1 <= i < |[line] + rest| ==> ([line] + rest)[i] == rest[i - 1];
  }

  lemma NoneIsSingle()
    ensures SingleLines([])
  {}

  lemma {:induction false} SplitIsSingleLines(s: JsString)
    ensures SingleLines(Split(s))
    decreases |s|
  {
    hide Split, SingleLines, StripCR, IndexOfLF;
    var n := IndexOfLF(s);
    SplitFirst(s);
    if n == |s| {
      assert s[..n] == s;
      NoneIsSingle();
      ConsIsSingle(s, []);
      assert [s] + [] == [s];
    } else {
      StripCRKeeps(s[..n]);
      SplitIsSingleLines(s[n + 1..]);
      ConsIsSingle(StripCR(s[..n]), Split(s[n + 1..]));
    }
  }

  lemma IndexOfLFConcat(line: JsString, rest: JsString)
    requires LF !in line
    ensures IndexOfLF(line + ([LF] + rest)) == |line|
    ensures IndexOfLF(line) == |line|
  {
    var s := line + ([LF] + rest);
    assert s[|line|] == LF && forall i :: 0 <= i < |line| ==> s[i] == line[i];
  }

  lemma SplitCons(line: JsString, rest: JsString)
    requires LF !in line && !EndsWithCR(line)
    ensures Split(line + ([LF] + rest)) == [line] + Split(rest)
  {
    var s := line + ([LF] + rest);
    IndexOfLFConcat(line, rest);
    assert s[..|line|] == line && s[|line| + 1..] == rest;
  }

  /** Joined lines split into themselves again. */
  lemma {:induction false} SplitJoin(lines: seq<JsString>)
    requires lines != [] && SingleLines(lines) && NoTrailingCR(lines)
    ensures Split(Join(lines)) == lines
    decreases |lines|
  {
    if |lines| == 1 {
      IndexOfLFConcat(lines[0], []);
    } else {
      hide Split, EndsWithCR;
      SplitCons(lines[0], Join(lines[1..]));
      SplitJoin(lines[1..]);
      assert lines == [lines[0]] + lines[1..];
    }
  }

  lemma {:induction false} CollapseConcat(line: JsString, rest: JsString, run: nat)
    requires LF !in line
    ensures Collapse(line + rest, run) == line + Collapse(rest, if line == [] then run else 0)
    decreases |line|
  {
    if line == [] {
      assert line + rest == rest;
    } else {
      assert line[0] in line;
      CollapseConcat(line[1..], rest, 0);
      assert (line + rest)[1..] == line[1..] + rest;
      assert line == [line[0]] + line[1..];
    }
  }

  lemma CollapseCons(line: JsString, rest: seq<JsString>, run: nat)
    requires rest != []
    ensures CollapseLines([line] + rest, run)
         == if line != [] then [line] + CollapseLines(rest, 1)
            else if run >= 2 then CollapseLines(rest, run)
            else [[]] + CollapseLines(rest, run + 1)
  {
    assert ([line] + rest)[1..] == rest;
  }

  lemma FewLines(lines: seq<JsString>, run: nat)
    requires |lines| <= 1
    ensures CollapseLines(lines, run) == lines
  {}

  lemma JoinCons(line: JsString, rest: seq<JsString>)
    requires rest != []
    ensures Join([line] + rest) == line + ([LF] + Join(rest))
  {
    assert ([line] + rest)[1..] == rest;
  }

  lemma JoinOne(line: JsString)
    ensures Join([line]) == line
  {}

  /** Collapsing a text drops some of its empty lines and changes nothing else. */
  lemma {:induction false} CollapseJoin(lines: seq<JsString>, run: nat)
    requires lines != [] && SingleLines(lines)
    ensures Collapse(Join(lines), run) == Join(CollapseLines(lines, run))
    decreases |lines|
  {
    hide Collapse, CollapseLines, Join;
    var line := lines[0];
    if |lines| == 1 {
      assert lines == [line];
      FewLines(lines, run);
      JoinOne(line);
      CollapseConcat(line, [], run);
      CollapseEmpty(0);
      CollapseEmpty(run);
      assert line + [] == line;
    } else {
      var rest := lines[1..];
      assert lines == [line] + rest;
      JoinCons(line, rest);
      CollapseCons(line, rest, run);
      CollapseConcat(line, [LF] + Join(rest), run);
      var run' := if line == [] then run else 0;
      CollapseBreak(Join(rest), run');
      if run' < 2 {
        CollapseJoin(rest, run' + 1);
        JoinCons(line, CollapseLines(rest, run' + 1));
      } else {
        CollapseJoin(rest, run');
        assert line + Collapse(Join(rest), run') == Collapse(Join(rest), run');
      }
    }
  }

  lemma CollapseEmpty(run: nat)
    ensures Collapse([], run) == []
  {}

  lemma CollapseBreak(rest: JsString, run: nat)
    ensures Collapse([LF] + rest, run)
         == if run < 2 then [LF] + Collapse(rest, run + 1) else Collapse(rest, run)
  {
    assert ([LF] + rest)[1..] == rest;
  }

  lemma {:induction false} TrimEndConcat(front: JsString, back: JsString)
    ensures TrimEnd(front + back) == if TrimEnd(back) == [] then TrimEnd(front) else front + TrimEnd(back)
    decreases |back|
  {
    if back == [] {
      assert front + back == front;
    } else {
      var last := |back| - 1;
      assert (front + back)[..|front + back| - 1] == front + back[..last];
      if IsSpace(back[last]) {
        TrimEndConcat(front, back[..last]);
      }
    }
  }

  lemma {:induction false} JoinAppend(lines: seq<JsString>, line: JsString)
    requires lines != []
    ensures Join(lines + [line]) == Join(lines) + ([LF] + line)
    decreases |lines|
  {
    assert (lines + [line])[1..] == lines[1..] + [line];
    if |lines| == 1 {
      assert lines[1..] + [line] == [line];
    } else {
      JoinAppend(lines[1..], line);
      assert (lines[0] + ([LF] + Join(lines[1..]))) + ([LF] + line)
          == lines[0] + ([LF] + (Join(lines[1..]) + ([LF] + line)));
    }
  }

  /** Trimming a text drops its trailing blank lines and trims the one before them. */
  lemma {:induction false} TrimEndJoin(lines: seq<JsString>)
    requires lines != []
    ensures TrimEnd(Join(lines)) == Join(TrimLines(lines))
    decreases |lines|
  {
    var last := |lines| - 1;
    if last > 0 {
      var front, line := lines[..last], lines[last];
      assert lines == front + [line];
      JoinAppend(front, line);
      JoinAppend(front, TrimEnd(line));
      TrimEndConcat([LF], line);
      TrimEndConcat(Join(front), [LF] + line);
      assert TrimEnd([LF]) == [] by { assert TrimEnd([LF][..0]) == []; }
      TrimEndJoin(front);
    } else {
      assert lines[..last] + [TrimEnd(lines[last])] == [TrimEnd(lines[last])];
    }
  }
}
