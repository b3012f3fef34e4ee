/** Lines that no later split or trimming turns into assignments. */
module EnvSteady {
  import opened JsStrings
  import opened TextLines
  import opened Dotenv
  import opened DotenvProofs
  import opened DotenvEditing
  import opened EnvLines
  import opened EnvStrays

  predicate IsAssignment(line: JsString) {
    ParseAssignmentLine(line).Some?
  }

  /** The line is an assignment already if it is one without n carriage returns. */
  predicate Quiet(line: JsString, n: nat) {
    IsAssignment(StripN(line, n)) ==> IsAssignment(line)
  }

  /** No line becomes an assignment by stripping n carriage returns, m from the last line. */
  predicate QuietLines(lines: seq<JsString>, n: nat, m: nat)
    decreases |lines|
  {
    if lines == [] then true
    else if |lines| == 1 then Quiet(lines[0], m)
    else Quiet(lines[0], n) && QuietLines(lines[1..], n, m)
  }

  /** The last line that is not blank does not become an assignment by trimming it. */
  predicate QuietEnd(lines: seq<JsString>)
    decreases |lines|
  {
    if lines == [] then true
    else if Ending(lines[1..]) != [] then QuietEnd(lines[1..])
    else IsAssignment(TrimEnd(lines[0])) ==> IsAssignment(lines[0])
  }

  // ------------------------------------------------------------ stripping

  lemma QuietLine(line: JsString, n: nat, key: JsString)
    requires Quiet(line, n)
    ensures Assigned(StripN(line, n), key) == Assigned(line, key)
  {
    hide ParseAssignmentLine, UnquoteEnvValue, StripN;
    if IsAssignment(line) {
      StripKeeps(line, n);
    }
  }

  /** Stripping quiet lines changes no value. */
  lemma {:induction false} QuietValues(lines: seq<JsString>, n: nat, m: nat, key: JsString)
    requires QuietLines(lines, n, m)
    ensures LastOf(StripLines(lines, n, m), key) == LastOf(lines, key)
    decreases |lines|
  {
    hide Quiet, StripN, Assigned;
    if |lines| == 1 {
      QuietLine(lines[0], m, key);
      LastOfOne(lines[0], key);
      LastOfOne(StripN(lines[0], m), key);
      assert lines == [lines[0]];
    } else if lines != [] {
      QuietLine(lines[0], n, key);
      QuietValues(lines[1..], n, m, key);
      LastOfStripCons(lines[0], lines[1..], n, m, key);
      assert lines == [lines[0]] + lines[1..];
    }
  }

  /** A line that stays quiet for more stripping is quiet now and after some of it. */
  lemma QuietLess(line: JsString, n: nat, m: nat)
    requires Quiet(line, n + m)
    ensures Quiet(line, n) && Quiet(StripN(line, n), m)
  {
    hide ParseAssignmentLine, StripN, Assigned;
    StripTwice(line, n, m);
    if IsAssignment(line) {
      StripKeeps(line, n);
    } else if IsAssignment(StripN(line, n)) {
      StripKeeps(StripN(line, n), m);
    }
  }

  lemma {:induction false} QuietStripped(lines: seq<JsString>, n: nat, m: nat, n': nat, m': nat)
    requires QuietLines(lines, n + n', m + m')
    ensures QuietLines(lines, n, m) && QuietLines(StripLines(lines, n, m), n', m')
    decreases |lines|
  {
    hide Quiet, StripN;
    if |lines| == 1 {
      QuietLess(lines[0], m, m');
    } else if lines != [] {
      QuietLess(lines[0], n, n');
      QuietStripped(lines[1..], n, m, n', m');
      assert StripLines(lines, n, m)[1..] == StripLines(lines[1..], n, m);
    }
  }

  lemma EmptyIsQuiet(n: nat)
    ensures Quiet([], n)
  {
    hide ParseAssignmentLine;
    EmptyStays(n, []);
  }

  lemma QuietCons(line: JsString, rest: seq<JsString>, n: nat, m: nat)
    requires rest != []
    ensures QuietLines([line] + rest, n, m) <==> Quiet(line, n) && QuietLines(rest, n, m)
  {
    hide Quiet;
    assert ([line] + rest)[1..] == rest;
  }

  lemma {:induction false} QuietCollapsed(lines: seq<JsString>, run: nat, n: nat, m: nat)
    requires QuietLines(lines, n, m)
    ensures QuietLines(CollapseLines(lines, run), n, m)
    decreases |lines|
  {
    hide Quiet;
    if |lines| > 1 {
      var rest := lines[1..];
      EmptyIsQuiet(n);
      QuietCollapsed(rest, 1, n, m);
      QuietCollapsed(rest, run, n, m);
      QuietCollapsed(rest, run + 1, n, m);
      QuietCons(lines[0], CollapseLines(rest, 1), n, m);
      QuietCons([], CollapseLines(rest, run + 1), n, m);
    }
  }

  lemma TrimmedIsQuiet(line: JsString, n: nat)
    requires TrimEnd(line) == line
    ensures Quiet(line, n)
  {
    hide TrimEnd, ParseAssignmentLine;
    TrimmedStays(line, n);
  }

  lemma {:induction false} QuietUpdated(lines: seq<JsString>, updates: Env)
    requires QuietLines(lines, 1, 1)
    ensures QuietLines(UpdateLines(lines, updates), 1, 1)
    decreases |lines|
  {
    hide Quiet, UpdateLine, Updates, TrimEnd, ParseAssignmentLine;
    if lines != [] {
      if Updates(lines[0], updates) {
        UpdatedLine(lines[0], updates);
        TrimmedIsQuiet(UpdateLine(lines[0], updates), 1);
      } else {
        NotUpdated(lines[0], updates);
      }
      QuietUpdated(lines[1..], updates);
      if |lines| > 1 {
        QuietCons(UpdateLine(lines[0], updates), UpdateLines(lines[1..], updates), 1, 1);
      }
    }
  }

  lemma {:induction false} QuietConcat(first: seq<JsString>, second: seq<JsString>)
    requires QuietLines(first, 1, 1) && QuietLines(second, 1, 1)
    ensures QuietLines(first + second, 1, 1)
    decreases |first|
  {
    hide Quiet;
    if first == [] {
      assert first + second == second;
    } else if |first| + |second| > 1 {
      QuietConcat(first[1..], second);
      assert first + second == [first[0]] + (first[1..] + second);
      QuietCons(first[0], first[1..] + second, 1, 1);
    } else {
      assert first + second == first;
    }
  }

  ghost predicate AllTrimmed(lines: seq<JsString>) {
    forall line :: line in lines ==> TrimEnd(line) == line
  }

  lemma {:induction false} TrimmedAreQuiet(lines: seq<JsString>)
    requires AllTrimmed(lines)
    ensures QuietLines(lines, 1, 1) && QuietEnd(lines)
    decreases |lines|
  {
    hide Quiet, TrimEnd, ParseAssignmentLine;
    if lines != [] {
      TrimmedIsQuiet(lines[0], 1);
      TrimmedAreQuiet(lines[1..]);
    }
  }

  lemma {:induction false} AppendedTrimmed(entries: Entries, seen: set<JsString>)
    requires forall i :: 0 <= i < |entries| ==> IsIdentifier(entries[i].0)
    ensures AllTrimmed(Appended(entries, seen))
    ensures Appended(entries, seen) != [] ==> Ending(Appended(entries, seen)) != []
    decreases |entries|
  {
    hide NewLine, TrimEnd, IsIdentifier, ParseAssignmentLine, Ending;
    if entries != [] {
      var rest := Appended(entries[1..], seen);
      var first := if entries[0].0 in seen then [] else [NewLine(entries[0])];
      FreshLineShape(entries[0]);
      AppendedTrimmed(entries[1..], seen);
      EndingConcat(first, rest);
      EndingOne(NewLine(entries[0]));
    }
  }

  // ------------------------------------------------------------ trimming

  lemma {:induction false} NoEnding(lines: seq<JsString>, key: JsString)
    requires Ending(lines) == []
    ensures LastOf(lines, key) == None
    decreases |lines|
  {
    hide TrimEnd, Assigned;
    if lines != [] {
      AssignedOfBlank(lines[0], key);
      NoEnding(lines[1..], key);
    }
  }

  /** Trimming a quiet end changes no value. */
  lemma {:induction false} QuietEnding(lines: seq<JsString>, key: JsString)
    requires QuietEnd(lines)
    ensures Or(LastOf(lines, key), Assigned(Ending(lines), key)) == LastOf(lines, key)
    decreases |lines|
  {
    hide TrimEnd, ParseAssignmentLine, UnquoteEnvValue;
    if lines == [] {
      EmptyStays(0, key);
    } else if Ending(lines[1..]) != [] {
      QuietEnding(lines[1..], key);
    } else {
      NoEnding(lines[1..], key);
      if IsAssignment(lines[0]) {
        TrimKeeps(lines[0]);
      }
    }
  }

  lemma StrippedEnd(line: JsString, n: nat)
    ensures TrimEnd(StripN(line, n)) == TrimEnd(line)
    ensures IsAssignment(line) ==> IsAssignment(StripN(line, n))
  {
    hide TrimEnd, StripN, ParseAssignmentLine, Assigned;
    StripCuts(line, n);
    if IsAssignment(line) {
      StripKeeps(line, n);
    }
  }

  lemma {:induction false} QuietEndStripped(lines: seq<JsString>, n: nat, m: nat)
    requires QuietEnd(lines)
    ensures QuietEnd(StripLines(lines, n, m))
    decreases |lines|
  {
    hide TrimEnd, StripN, IsAssignment;
    if lines != [] {
      var r := StripLines(lines, n, m);
      StrippedEnd(lines[0], if |lines| == 1 then m else n);
      assert r[1..] == StripLines(lines[1..], n, m);
      EndingStripped(lines[1..], n, m);
      if Ending(lines[1..]) != [] {
        QuietEndStripped(lines[1..], n, m);
      }
    }
  }

  lemma {:induction false} QuietEndCollapsed(lines: seq<JsString>, run: nat)
    requires QuietEnd(lines)
    ensures QuietEnd(CollapseLines(lines, run))
    decreases |lines|
  {
    hide TrimEnd, IsAssignment;
    if |lines| > 1 {
      var rest := lines[1..];
      EndingCollapsed(rest, 1);
      EndingCollapsed(rest, run);
      EndingCollapsed(rest, run + 1);
      QuietEndCons(lines[0], CollapseLines(rest, 1));
      QuietEndCons([], CollapseLines(rest, run + 1));
      if Ending(rest) != [] {
        QuietEndCollapsed(rest, 1);
        QuietEndCollapsed(rest, run);
        QuietEndCollapsed(rest, run + 1);
      } else {
        BlankEndIsQuiet(CollapseLines(rest, run));
        EmptyIsQuietEnd();
      }
    }
  }

  lemma QuietEndCons(line: JsString, rest: seq<JsString>)
    ensures QuietEnd([line] + rest)
       <==> if Ending(rest) != [] then QuietEnd(rest) else IsAssignment(TrimEnd(line)) ==> IsAssignment(line)
  {
    hide TrimEnd, IsAssignment;
    assert ([line] + rest)[1..] == rest;
  }

  lemma EmptyIsQuietEnd()
    ensures !IsAssignment(TrimEnd([]))
  {
    EmptyIsBlank();
    NotAnAssignment();
  }

  lemma NotAnAssignment()
    ensures !IsAssignment([])
  {}

  lemma {:induction false} BlankEndIsQuiet(lines: seq<JsString>)
    requires Ending(lines) == []
    ensures QuietEnd(lines)
    decreases |lines|
  {
    hide TrimEnd, IsAssignment;
    NotAnAssignment();
    if lines != [] {
      BlankEndIsQuiet(lines[1..]);
    }
  }

  lemma {:induction false} QuietEndUpdated(lines: seq<JsString>, updates: Env)
    requires QuietEnd(lines)
    ensures QuietEnd(UpdateLines(lines, updates))
    ensures Ending(UpdateLines(lines, updates)) == [] <==> Ending(lines) == []
    decreases |lines|
  {
    hide TrimEnd, UpdateLine, Updates, ParseAssignmentLine;
    if lines != [] {
      if Updates(lines[0], updates) {
        UpdatedLine(lines[0], updates);
        UpdatesHasKey(lines[0], updates);
        NotBlank(lines[0]);
      } else {
        NotUpdated(lines[0], updates);
      }
      if Ending(lines[1..]) != [] {
        QuietEndUpdated(lines[1..], updates);
      } else {
        BlankEndIsQuiet(lines[1..]);
        QuietEndUpdated(lines[1..], updates);
      }
    }
  }

  lemma {:induction false} QuietEndConcat(first: seq<JsString>, second: seq<JsString>)
    requires QuietEnd(second) && Ending(second) != []
    ensures QuietEnd(first + second)
    decreases |first|
  {
    hide TrimEnd, IsAssignment, Ending;
    if first == [] {
      assert first + second == second;
    } else {
      QuietEndConcat(first[1..], second);
      EndingConcat(first[1..], second);
      assert first + second == [first[0]] + (first[1..] + second);
      QuietEndCons(first[0], first[1..] + second);
    }
  }

  // ------------------------------------------------------------ edits

  lemma GapIsTrimmed(gap: seq<JsString>, append: seq<JsString>)
    requires (gap == [] || gap == [[]]) && AllTrimmed(append)
    ensures AllTrimmed(gap + append)
  {
    EmptyIsBlank();
  }

  /** An edit keeps quiet lines quiet, and their end when it adds no line. */
  lemma QuietEdited(lines: seq<JsString>, updates: Entries)
    requires lines != [] && DistinctKeys(updates) && IdentifierKeys(ToMap(updates)) && QuietLines(lines, 1, 1)
    requires Appended(updates, SeenKeys(lines, ToMap(updates))) == [] ==> QuietEnd(lines)
    ensures QuietLines(EditedLines(lines, updates), 1, 1) && QuietEnd(EditedLines(lines, updates))
  {
    hide UpdateLines, Appended, SeenKeys, ToMap, IdentifierKeys, DistinctKeys, EditedLines, QuietLines, QuietEnd,
         Ending, AllTrimmed;
    var u := ToMap(updates);
    var append := Appended(updates, SeenKeys(lines, u));
    QuietUpdated(lines, u);
    if append == [] {
      EditedWithoutNew(lines, updates);
      QuietEndUpdated(lines, u);
    } else {
      var gap := EditedWithNew(lines, updates);
      EntriesAreIdentifiers(updates);
      AppendedTrimmed(updates, SeenKeys(lines, u));
      GapIsTrimmed(gap, append);
      TrimmedAreQuiet(gap + append);
      GapAssignsNothing(gap, append, []);
      QuietConcat(UpdateLines(lines, u), gap + append);
      QuietEndConcat(UpdateLines(lines, u), gap + append);
    }
  }
}
