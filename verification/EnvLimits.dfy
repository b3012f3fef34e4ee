/**
 Where stray carriage returns do harm: an assignment line with more of them
 than the one that belongs to its line end assigns nothing at first, and comes
 to light when later splits have removed them.
 */
module EnvLimits {
  import opened JsStrings
  import opened TextLines
  import opened Dotenv
  import opened DotenvProofs
  import opened DotenvValues
  import opened DotenvEditing
  import opened EnvTopology
  import opened EnvLines
  import opened EnvStrays
  import opened EnvWritten
  import opened EnvCanonical
  import opened EnvImport
  import opened EnvImportProofs
  import opened EnvImportLines
  import JsonStrings

  /** An assignment line with a value, without white space at its end. */
  ghost predicate PlainAssignment(a: Assignment) {
    && WellFormed(a) && a.key != PROTO && LF !in Text(a)
    && a.valuePart != [] && !IsSpace(a.valuePart[|a.valuePart| - 1])
  }

  function Feeds(n: nat): JsString {
    if n == 0 then [] else Feeds(n - 1) + [CR]
  }

  /** The assignment line with n carriage returns behind it. */
  function Stray(a: Assignment, n: nat): JsString {
    Text(a) + Feeds(n)
  }

  lemma PlainText(a: Assignment)
    requires PlainAssignment(a)
    ensures TrimEnd(Text(a)) == Text(a) && ParseAssignmentLine(Text(a)) == Some(a)
    ensures Assigned(Text(a), a.key) == Some(UnquoteEnvValue(a.valuePart))
  {
    hide IsSpace, TrimEnd, ParseAssignmentLine, IsPrefix, IsIdentifier, IsSeparator, HasTerminator, UnquoteEnvValue;
    var line := Text(a);
    assert line[|line| - 1] == a.valuePart[|a.valuePart| - 1];
    EndsInNonSpace(line);
    ParseAssignmentExact(line, a);
  }

  lemma {:induction false} FeedsShape(n: nat)
    ensures |Feeds(n)| == n && forall c :: c in Feeds(n) ==> c == CR
  {
    if n > 0 {
      FeedsShape(n - 1);
    }
  }

  /** With a carriage return behind it, the line assigns nothing. */
  lemma StrayLine(a: Assignment, n: nat)
    requires PlainAssignment(a) && n > 0
    ensures ParseAssignmentLine(Stray(a, n)) == None && LF !in Stray(a, n)
  {
    hide IsSpace, ParseAssignmentLine, IsPrefix, IsIdentifier, IsSeparator, Feeds;
    var v := a.valuePart + Feeds(n);
    FeedsShape(n);
    assert Stray(a, n) == a.prefix + (a.key + (a.separator + v));
    assert v[|a.valuePart|] == Feeds(n)[0] && Feeds(n)[0] in Feeds(n);
    assert v[0] == a.valuePart[0];
    ReturnTerminates();
    WellFormedParts(a);
    ParseAssignmentOf(a.prefix, a.key, a.separator, v);
  }

  lemma ReturnTerminates()
    ensures IsLineTerminator(CR)
  {}

  lemma StripFeed(s: JsString)
    ensures StripCR(s + [CR]) == s
  {}

  lemma StrayMore(a: Assignment, n: nat)
    requires n > 0
    ensures Stray(a, n) == Stray(a, n - 1) + [CR]
  {
    hide Text;
    assert Text(a) + (Feeds(n - 1) + [CR]) == (Text(a) + Feeds(n - 1)) + [CR];
  }

  lemma StrayNone(a: Assignment)
    ensures Stray(a, 0) == Text(a)
  {
    hide Text;
  }

  lemma StrayOne(a: Assignment, n: nat)
    requires PlainAssignment(a)
    ensures StripCR(Stray(a, n)) == Stray(a, if n > 0 then n - 1 else 0)
  {
    hide TrimEnd, Text, Stray, PlainAssignment, ParseAssignmentLine, Assigned, UnquoteEnvValue;
    PlainText(a);
    TrimmedHasNoCR(Text(a));
    StrayNone(a);
    if n > 0 {
      StrayMore(a, n);
      StripFeed(Stray(a, n - 1));
    }
  }

  /** Each split removes one of them. */
  lemma {:induction false} StrippedStray(a: Assignment, n: nat, m: nat)
    requires PlainAssignment(a)
    ensures StripN(Stray(a, n), m) == Stray(a, if n > m then n - m else 0)
    ensures Stray(a, 0) == Text(a)
    decreases m
  {
    hide Text, Stray, PlainAssignment, StripCR;
    StrayNone(a);
    if m > 0 {
      StrayOne(a, n);
      StrippedStray(a, if n > 0 then n - 1 else 0, m - 1);
    }
  }

  // ------------------------------------------------------------ a line in the middle of a text

  function Around(before: JsString, line: JsString, behind: JsString): JsString {
    before + ([LF] + (line + ([LF] + behind)))
  }

  lemma {:induction false} SplitAcross(before: JsString, rest: JsString) returns (front: seq<JsString>)
    ensures Split(before + ([LF] + rest)) == front + Split(rest)
    decreases |before|
  {
    hide Split, IndexOfLF, StripCR;
    var n := IndexOfLF(before);
    if n == |before| {
      assert before[..n] == before;
      SplitBefore(before, rest);
      front := [StripCR(before)];
    } else {
      var line, tail := before[..n], before[n + 1..];
      assert before == line + ([LF] + tail);
      var later := SplitAcross(tail, rest);
      SplitBefore(line, tail + ([LF] + rest));
      assert before + ([LF] + rest) == line + ([LF] + (tail + ([LF] + rest)));
      front := [StripCR(line)] + later;
      assert [StripCR(line)] + (later + Split(rest)) == front + Split(rest);
    }
  }

  lemma SplitAround(before: JsString, line: JsString, behind: JsString) returns (front: seq<JsString>)
    requires LF !in line
    ensures Split(Around(before, line, behind)) == front + ([StripCR(line)] + Split(behind))
  {
    hide Split, StripCR;
    front := SplitAcross(before, line + ([LF] + behind));
    SplitBefore(line, behind);
  }

  lemma StraySplit(before: JsString, a: Assignment, n: nat, behind: JsString) returns (front: seq<JsString>)
    requires PlainAssignment(a) && n > 0
    ensures Split(Around(before, Stray(a, n), behind)) == front + ([Stray(a, n - 1)] + Split(behind))
  {
    hide Split, StripCR, Around, Stray, PlainAssignment;
    StrayLine(a, n);
    StrayOne(a, n);
    front := SplitAround(before, Stray(a, n), behind);
  }

  // ------------------------------------------------------------ edits

  lemma {:induction false} UpdateNothing(lines: seq<JsString>)
    ensures UpdateLines(lines, map[]) == lines
    decreases |lines|
  {
    hide ParseAssignmentLine;
    if lines != [] {
      UpdateNothing(lines[1..]);
      assert lines == [lines[0]] + lines[1..];
    }
  }

  lemma EditNothing(lines: seq<JsString>)
    requires lines != []
    ensures EditedLines(lines, []) == lines
  {
    UpdateNothing(lines);
  }

  /** Which keys an edit that changes nothing adds to a text. */
  lemma EditUncovers(content: JsString, key: JsString)
    requires key != PROTO && key !in ParseEnv(content)
    ensures key in ParseEnv(UpdateEnv(content, []))
       <==> exists line :: line in StripLines(Split(content), 1, 0) && Assigned(line, key).Some?
  {
    hide Split, StripLines, LastOf, CollapseLines, ParseEnv, UpdateEnv, Assigned, EditedLines;
    var lines := Split(content);
    EditNothing(lines);
    NothingToEdit();
    UpdateEnvSplit(content, []);
    ParseEnvAt(UpdateEnv(content, []), key);
    LastOfCollapsed(lines, 0, 1, 0, key);
    NoLineAssigns(StripLines(lines, 1, 0), key);
  }

  lemma NothingToEdit()
    ensures DistinctKeys([]) && IdentifierKeys(ToMap([]))
  {}

  lemma StrippedIn(front: seq<JsString>, line: JsString, rest: seq<JsString>, n: nat, m: nat)
    requires rest != []
    ensures StripN(line, n) in StripLines(front + ([line] + rest), n, m)
  {
    hide StripN, StripLines;
    StripLinesAt(front + ([line] + rest), n, m, |front|);
  }

  /** An edit of nothing gives a value to a key that had none, wherever in the text the line stands. */
  lemma StrayReturnBreaksEdit(before: JsString, a: Assignment, behind: JsString)
    requires PlainAssignment(a)
    requires a.key !in ParseEnv(Around(before, Stray(a, 2), behind))
    ensures a.key in ParseEnv(UpdateEnv(Around(before, Stray(a, 2), behind), []))
  {
    hide Split, Around, StripLines, ParseEnv, UpdateEnv, Stray, Assigned, PlainAssignment, StripN;
    var content := Around(before, Stray(a, 2), behind);
    var front := StraySplit(before, a, 2, behind);
    StrippedIn(front, Stray(a, 1), Split(behind), 1, 0);
    StrippedStray(a, 1, 1);
    PlainText(a);
    assert a.key != PROTO by { PlainKey(a); }
    EditUncovers(content, a.key);
  }

  lemma PlainKey(a: Assignment)
    requires PlainAssignment(a)
    ensures a.key != PROTO
  {}

  // ------------------------------------------------------------ removed keys

  lemma StrayIsKept(before: JsString, a: Assignment, n: nat, behind: JsString, keys: set<JsString>)
    returns (front: seq<JsString>)
    requires PlainAssignment(a) && n > 1
    ensures KeptOf(Around(before, Stray(a, n), behind), keys) == front + ([Stray(a, n - 1)] + KeepLines(Split(behind), keys))
  {
    hide Split, Around, KeepLines, Stray, PlainAssignment, KeepsOut;
    var first := StraySplit(before, a, n, behind);
    var line := Stray(a, n - 1);
    StrayLine(a, n - 1);
    assert KeepsOut(line, keys) by { NotNamed(line, keys); }
    KeepLinesConcat(first, [line] + Split(behind), keys);
    KeepLinesCons([line] + Split(behind), keys);
    assert ([line] + Split(behind))[1..] == Split(behind);
    front := KeepLines(first, keys);
  }

  lemma NotNamed(line: JsString, keys: set<JsString>)
    requires ParseAssignmentLine(line) == None
    ensures KeepsOut(line, keys)
  {}

  lemma StrippedMiddle(front: seq<JsString>, line: JsString, rest: seq<JsString>, n: nat, m: nat)
    ensures StripN(line, if rest == [] then m else n) in StripLines(front + ([line] + rest), n, m)
  {
    hide StripN, StripLines;
    StripLinesAt(front + ([line] + rest), n, m, |front|);
  }

  /**
   A retired or managed-proxy key on such a line, wherever it stands, survives
   the write that should remove it, and the file is not the one that the next
   write leaves.
   */
  lemma StrayReturnKeepsRemovedKey(before: JsString, a: Assignment, behind: JsString)
    requires PlainAssignment(a) && a.key in REMOVED_KEYS
    requires CanonicalText(Around(before, Stray(a, 2), behind)).Some?
    ensures var text := CanonicalText(Around(before, Stray(a, 2), behind)).value;
            a.key in ParseEnv(text) && CanonicalText(text) != Some(text)
  {
    hide *;
    var raw := Around(before, Stray(a, 2), behind);
    var front := StrayIsKept(before, a, 2, behind, REMOVED_KEYS);
    StrippedMiddle(front, Stray(a, 1), KeepLines(Split(behind), REMOVED_KEYS), 2, 1);
    StrippedStray(a, 1, 1);
    StrippedStray(a, 1, 2);
    PlainText(a);
    KeptIs(raw);
    SomeAssigns(StripLines(Kept(raw), 2, 1), Text(a), a.key);
    SomeDerived(raw);
    RemovedIsElsewhere(raw, a.key);
    WrittenElsewhere(raw, a.key);
    var text := CanonicalText(raw).value;
    HasValue(ParseEnv(text), a.key, LastOf(StripLines(Kept(raw), 2, 1), a.key), Closing(raw, a.key));
    if CanonicalText(text) == Some(text) {
      FixedPointHasNoRemovedKey(text);
    }
  }

  lemma HasValue(env: Env, key: JsString, first: Option<JsString>, second: Option<JsString>)
    requires At(env, key) == Or(first, second) && first.Some?
    ensures key in env
  {}

  lemma SomeDerived(raw: JsString)
    requires CanonicalText(raw).Some?
    ensures DerivedUpdates(raw).Some?
  {
    hide CanonicalText, DerivedUpdates, UpdateEnv, RemoveEnvKeys, TrimEnd;
    CanonicalIs(raw);
  }

  // ------------------------------------------------------------ imports

  lemma {:induction false} LastOfSplit(text: JsString)
    ensures var lines := Split(text + [LF]); lines[|lines| - 1] == []
  {
    hide Split;
    assert text + [LF] == text + ([LF] + []);
    var front := SplitAcross(text, []);
    EmptyText();
  }

  /**
   An import in replace mode gives a value to a launcher setting that the live
   file lacks: two to six carriage returns hide the line from the removal, and
   are gone when the file is read. The file that was chosen has one more, which
   the preview's own split removes.
   */
  lemma StrayReturnIntroducesSetting(live: JsString, request: Import, before: JsString, a: Assignment, n: nat, behind: JsString)
    requires WellFormedImport(live, request) && a.key in KEPT_KEYS && a.key !in ParseEnv(live)
    requires PlainAssignment(a) && 2 <= n <= 6 && request.raw == Around(before, Stray(a, n), behind + [LF])
    requires CanonicalText(NextRaw(live, request, true)).Some?
    ensures a.key in ParseEnv(CanonicalText(NextRaw(live, request, true)).value)
  {
    hide *;
    var keys := HIDDEN_KEYS + {HIGHEST_VERSION_USED};
    var rest := KeepLines(Split(behind + [LF]), keys);
    var front := StrayIsKept(before, a, n, behind + [LF], keys);
    KeptEnds(behind, keys);
    OpenLinesIs(request);
    FormsAre(live, request);
    StrippedIn(front, Stray(a, n - 1), rest, 5, LastCount(live, request));
    StrippedStray(a, n - 1, 5);
    PlainText(a);
    AbsentStaysAbsent(live, request, a.key);
  }

  lemma KeptEnds(behind: JsString, keys: set<JsString>)
    ensures var r := KeepLines(Split(behind + [LF]), keys); r != [] && r[|r| - 1] == []
  {
    hide Split, KeepLines;
    var lines := Split(behind + [LF]);
    LastOfSplit(behind);
    assert lines == lines[..|lines| - 1] + [[]];
    KeepLinesConcat(lines[..|lines| - 1], [[]], keys);
    KeepEmpty(keys);
  }

  /** Two lines of one setting: the first comes to light after one split more, the second after two. */
  ghost predicate Overriding(request: Import, a: Assignment, b: Assignment) {
    && PlainAssignment(a) && PlainAssignment(b) && a.key == b.key
    && request.raw == Stray(a, 2) + ([LF] + (Stray(b, 3) + ([LF] + [])))
  }

  lemma OverridingStart(live: JsString, request: Import, a: Assignment, b: Assignment)
    requires Overriding(request, a, b)
    ensures Split(ImportStart(live, request, true)) == [Text(a), Stray(b, 1), []]
  {
    hide Split, Stray, Text, PlainAssignment, HIDDEN_KEYS, HIGHEST_VERSION_USED, KeepLines, StripCR, CollapseLines, StripLines;
    var keys := HIDDEN_KEYS + {HIGHEST_VERSION_USED};
    var lines := [Stray(a, 1), Stray(b, 2), []];
    StrayLine(a, 1);
    StrayLine(a, 2);
    StrayLine(b, 2);
    StrayLine(b, 3);
    StrayOne(a, 2);
    StrayOne(b, 3);
    SplitBefore(Stray(a, 2), Stray(b, 3) + ([LF] + []));
    SplitBefore(Stray(b, 3), []);
    EmptyText();
    assert Split(request.raw) == lines;
    NotNamed(Stray(a, 1), keys);
    NotNamed(Stray(b, 2), keys);
    EmptyNamesNothing(keys);
    KeepAll(lines, keys);
    OpenSplit(live, request);
    assert OpenLines(request) == lines by { OpenLinesIs(request); }
    StrayNotEmpty(a, 1);
    StrayNotEmpty(b, 2);
    ThreeLines(lines[0], lines[1]);
    StrippedStray(a, 1, 1);
    StrippedStray(b, 2, 1);
  }

  lemma OpenLinesIs(request: Import)
    ensures OpenLines(request) == KeptOf(request.raw, HIDDEN_KEYS + {HIGHEST_VERSION_USED})
  {}

  lemma StrayNotEmpty(a: Assignment, n: nat)
    requires n > 0
    ensures Stray(a, n) != []
  {
    FeedsShape(n);
  }

  lemma ThreeLines(first: JsString, second: JsString)
    requires first != [] && second != []
    ensures CollapseLines([first, second, []], 0) == [first, second, []]
    ensures StripLines([first, second, []], 1, 0) == [StripN(first, 1), StripN(second, 1), []]
  {
    hide StripN;
    StripOne([]);
    assert [first, second, []][1..] == [second, []] && [second, []][1..] == [[]];
    assert CollapseLines([[]], 1) == [[]];
    assert StripLines([[]], 1, 0) == [[]];
  }

  /** The lines behind the two: an empty one, and lines for the settings that were missing. */
  lemma OtherLines(entries: Entries, seen: set<JsString>, n: nat, m: nat, key: JsString)
    requires key in seen && forall i :: 0 <= i < |entries| ==> IsIdentifier(entries[i].0)
    ensures var lines := [[]] + Appended(entries, seen);
            LastOf(StripLines(lines, n, m), key) == None && NoneHides(StripLines(lines, n, m), key)
  {
    hide *;
    var append := Appended(entries, seen);
    LastOfAppended(entries, seen, key);
    GapAssignsNothing([[]], append, key);
    AppendedHidesNothing(entries, seen, key);
    EmptyHidesNothing(key);
    NoneHidesConcat([[]], append, key);
    CleanLinesStripped([[]] + append, n, m, key);
  }

  lemma UpdateThree(first: JsString, second: JsString, updates: Env)
    requires !Updates(second, updates)
    ensures UpdateLines([first, second, []], updates) == [UpdateLine(first, updates)] + ([second] + [[]])
  {
    hide UpdateLine;
    assert [first, second, []][1..] == [second, []] && [second, []][1..] == [[]];
    NotUpdated(second, updates);
    UpdateEmpty(updates);
    assert UpdateLines([[]], updates) == [[]];
  }

  lemma StrayIsNotUpdated(b: Assignment, updates: Env)
    requires PlainAssignment(b)
    ensures !Updates(Stray(b, 1), updates)
  {
    hide ParseAssignmentLine, Stray, PlainAssignment;
    StrayLine(b, 1);
  }

  lemma PlainIsUpdated(a: Assignment, updates: Env)
    requires PlainAssignment(a) && a.key in updates
    ensures Updates(Text(a), updates)
  {
    hide ParseAssignmentLine, PlainAssignment, UnquoteEnvValue, TrimEnd, Text;
    PlainText(a);
  }

  /** The edited lines: the first line rewritten, the second untouched, and what was missing. */
  lemma OverridingLines(lines: seq<JsString>, updates: Entries, a: Assignment, b: Assignment) returns (seen: set<JsString>)
    requires PlainAssignment(a) && PlainAssignment(b) && a.key in ToMap(updates)
    requires lines == [Text(a), Stray(b, 1), []]
    ensures a.key in seen
    ensures EditedLines(lines, updates)
         == [UpdateLine(Text(a), ToMap(updates))] + ([Stray(b, 1)] + ([[]] + Appended(updates, seen)))
    ensures TrimEnd(UpdateLine(Text(a), ToMap(updates))) == UpdateLine(Text(a), ToMap(updates))
  {
    hide UpdateLines, UpdateLine, Updates, ToMap, Appended, SeenKeys, Stray, Text, PlainAssignment, TrimEnd, Assigned,
         UnquoteEnvValue, LastOf, ParseAssignmentLine;
    var u := ToMap(updates);
    seen := SeenKeys(lines, u);
    StrayIsNotUpdated(b, u);
    PlainIsUpdated(a, u);
    UpdatedLine(Text(a), u);
    UpdateThree(Text(a), Stray(b, 1), u);
    PlainText(a);
    SomeAssigns(lines, Text(a), a.key);
    SeenIsAssigned(lines, u, a.key);
    var r := [UpdateLine(Text(a), u)] + ([Stray(b, 1)] + [[]]);
    assert r + Appended(updates, seen)
        == [UpdateLine(Text(a), u)] + ([Stray(b, 1)] + ([[]] + Appended(updates, seen)));
  }

  lemma OverridingValue(lines: seq<JsString>, updates: Entries, a: Assignment, b: Assignment, n: nat, m: nat)
    requires PlainAssignment(a) && PlainAssignment(b) && a.key == b.key && a.key in ToMap(updates) && n > 0
    requires lines == [Text(a), Stray(b, 1), []] && DistinctKeys(updates) && IdentifierKeys(ToMap(updates))
    ensures var stripped := StripLines(EditedLines(lines, updates), n, m);
            LastOf(stripped, a.key) == Some(UnquoteEnvValue(b.valuePart)) && NoneHides(stripped, a.key)
  {
    hide *;
    var seen := OverridingLines(lines, updates, a, b);
    var first, rest := UpdateLine(Text(a), ToMap(updates)), [[]] + Appended(updates, seen);
    EntriesAreIdentifiers(updates);
    OtherLines(updates, seen, n, m, a.key);
    StrippedStray(b, 1, n);
    PlainText(b);
    TrimmedStays(first, n);
    TrimmedHidesNothing(first, a.key);
    TrimmedHidesNothing(Text(b), a.key);
    StripLinesConcat([Stray(b, 1)], rest, n, m);
    StripLinesConcat([first], [Stray(b, 1)] + rest, n, m);
    StripLinesOne(first, n, n);
    StripLinesOne(Stray(b, 1), n, n);
    ThreeParts(first, Text(b), StripLines(rest, n, m), a.key);
  }

  lemma ThreeParts(first: JsString, second: JsString, rest: seq<JsString>, key: JsString)
    requires !Hides(first, key) && !Hides(second, key) && NoneHides(rest, key)
    requires Assigned(second, key).Some? && LastOf(rest, key) == None
    ensures NoneHides([first] + ([second] + rest), key)
    ensures LastOf([first] + ([second] + rest), key) == Assigned(second, key)
  {
    hide Hides, Assigned, LastOf;
    LastOfConcat([second], rest, key);
    LastOfConcat([first], [second] + rest, key);
    LastOfOne(first, key);
    LastOfOne(second, key);
  }

  lemma OverridingEnd(lines: seq<JsString>, key: JsString, value: JsString)
    requires NoneHides(StripLines(lines, 2, 1), key) && LastOf(StripLines(lines, 2, 1), key) == Some(value)
    requires key !in REMOVED_KEYS
    ensures Assigned(EndKept(lines, 2, 1), key) in {None, Some(value)}
  {
    hide KeepLines, StripLines, LastOf, Assigned, Ending, Hides, REMOVED_KEYS, KeepsOut;
    var stripped := StripLines(lines, 2, 1);
    var kept := KeepLines(stripped, REMOVED_KEYS);
    KeptIsPart(stripped, REMOVED_KEYS);
    CleanEnding(kept, key);
    LastOfKept(stripped, REMOVED_KEYS, 0, key);
    StripNoLines(stripped);
    StripNoLines(kept);
  }

  /**
   An import in replace mode overrides a launcher setting of the live file: the
   first line takes the old value that is written back, the second comes to
   light behind it.
   */
  lemma StrayReturnOverridesSetting(live: JsString, request: Import, a: Assignment, b: Assignment)
    requires WellFormedImport(live, request) && Overriding(request, a, b)
    requires a.key in KEPT_KEYS && a.key in ParseEnv(live)
    requires CanonicalText(NextRaw(live, request, true)).Some?
    ensures At(ParseEnv(CanonicalText(NextRaw(live, request, true)).value), a.key) == Some(UnquoteEnvValue(b.valuePart))
  {
    hide *;
    var edits, lines := ImportEdits(request, true), ImportedLines(live, request, true);
    OverridingParts(request, a, b);
    OverridingStart(live, request, a, b);
    EditsShape(live, request, true);
    HiddenIsRestricted(ParseEnv(live), a.key);
    AskedIs(live, request, true);
    var start := Split(ImportStart(live, request, true));
    OverridingValue(start, edits, a, b, 4, 3);
    OverridingValue(start, edits, a, b, 2, 1);
    KeptIsUntouched(a.key);
    OverridingEnd(lines, a.key, UnquoteEnvValue(b.valuePart));
    AskedAt(live, request, true, a.key);
    StrippedValue(lines, 4, 3, a.key);
    ImportedValue(live, request, true, a.key);
    UncoveredIs(live, request, true, a.key);
    Decided(At(Asked(live, request, true), a.key), Surfacing(lines, StripLines(lines, 4, 3), a.key),
            if NothingAdded(live, request, true) then Assigned(EndKept(lines, 2, 1), a.key) else None,
            UnquoteEnvValue(b.valuePart));
  }

  lemma Decided(asked: Option<JsString>, surfacing: Option<JsString>, closing: Option<JsString>, value: JsString)
    requires Or(asked, surfacing) == Some(value) && closing in {None, Some(value)}
    ensures Or(asked, Or(surfacing, closing)) == Some(value)
  {}

  lemma OverridingParts(request: Import, a: Assignment, b: Assignment)
    requires Overriding(request, a, b)
    ensures PlainAssignment(a) && PlainAssignment(b) && a.key == b.key
  {}

  lemma HiddenIsRestricted(env: Env, key: JsString)
    requires key in KEPT_KEYS && key in env
    ensures key in Restrict(env, HIDDEN_KEYS)
  {
    hide KEPT_KEYS, EXCEPTED_KEYS;
  }

  // ------------------------------------------------------------ separators in a value

  /** U+2028 as a JSON escape, in double quotes. */
  function EscapedSeparator(): JsString {
    [DOUBLE_QUOTE] + (([BACKSLASH, JsonStrings.LOWER_U] + JsonStrings.Hex4(LINE_SEPARATOR)) + [DOUBLE_QUOTE])
  }

  function SeparatorFile(key: JsString): JsString {
    key + ([EQUALS] + EscapedSeparator())
  }

  lemma SeparatorDigits()
    ensures forall c :: c in JsonStrings.Hex4(LINE_SEPARATOR) ==> 0x30 <= c <= 0x39
    ensures |JsonStrings.Hex4(LINE_SEPARATOR)| == 4
  {}

  lemma EscapedHasNoComment()
    ensures InlineComment(EscapedSeparator()) == None
  {
    hide InQuotes, JsonStrings.Hex4;
    var hex, quote := JsonStrings.Hex4(LINE_SEPARATOR), [DOUBLE_QUOTE];
    var inside := ([BACKSLASH, JsonStrings.LOWER_U] + hex) + quote;
    SeparatorDigits();
    assert hex == [hex[0], hex[1], hex[2], hex[3]];
    QuotedHex(hex[0], hex[1], hex[2], hex[3], quote);
    QuotedEscape(JsonStrings.LOWER_U, hex + quote);
    assert inside == [BACKSLASH, JsonStrings.LOWER_U] + (hex + quote);
    ClosingQuote();
    OpeningQuote(inside);
  }

  lemma OpeningQuote(inside: JsString)
    ensures InlineComment([DOUBLE_QUOTE] + inside) == Shift(InQuotes(inside, false), 1)
  {
    assert ([DOUBLE_QUOTE] + inside)[1..] == inside;
    BoundaryIrrelevant(inside, IsSpace(DOUBLE_QUOTE), false);
  }

  lemma ClosingQuote()
    ensures InQuotes([DOUBLE_QUOTE], false) == None
  {
    assert [DOUBLE_QUOTE][1..] == [];
  }

  lemma EscapedValue()
    ensures UnquoteEnvValue(EscapedSeparator()) == [LINE_SEPARATOR]
  {
    hide JsonStrings.ParseBody, JsonStrings.Hex4, InlineComment, Trim;
    var value := EscapedSeparator();
    SeparatorDigits();
    EscapedHasNoComment();
    QuoteIsNotSpace();
    TrimIdentity(value);
    assert value[1..] == ([BACKSLASH, JsonStrings.LOWER_U] + JsonStrings.Hex4(LINE_SEPARATOR)) + [DOUBLE_QUOTE];
    JsonStrings.ParseUnicode(LINE_SEPARATOR, [DOUBLE_QUOTE]);
    JsonStrings.ParseClosing();
  }

  lemma QuoteIsNotSpace()
    ensures !IsSpace(DOUBLE_QUOTE)
  {}

  lemma EscapedIsOneLine()
    ensures !HasTerminator(EscapedSeparator()) && LF !in EscapedSeparator()
  {
    hide JsonStrings.Hex4;
    SeparatorDigits();
    assert forall c :: c in EscapedSeparator() ==> c == DOUBLE_QUOTE || c == BACKSLASH || c == JsonStrings.LOWER_U || 0x30 <= c <= 0x39;
    TerminatorIn(EscapedSeparator());
  }

  /** Such a file gives the key a value that no dotenv line can carry. */
  lemma SeparatorIsRead(key: JsString)
    requires IsIdentifier(key) && key != PROTO
    ensures At(ParseEnv(SeparatorFile(key)), key) == Some([LINE_SEPARATOR])
  {
    hide ParseAssignmentLine, EscapedSeparator, IsIdentifier, IsSeparator, IsPrefix, HasTerminator, Split, UnquoteEnvValue,
         IsSpace, IdentPart;
    var line, value := SeparatorFile(key), EscapedSeparator();
    EscapedIsOneLine();
    EscapedValue();
    EqualsSeparates();
    QuoteIsNotSpace();
    assert value[0] == DOUBLE_QUOTE by { EscapedStarts(); }
    assert line == [] + (key + ([EQUALS] + value));
    ParseAssignmentOf([], key, [EQUALS], value);
    NoLineFeedIn(key);
    SplitOne(line);
    ParseEnvAt(line, key);
    LastOfOne(line, key);
  }

  lemma EscapedStarts()
    ensures EscapedSeparator() != [] && EscapedSeparator()[0] == DOUBLE_QUOTE
  {}

  lemma NoLineFeedIn(key: JsString)
    requires IsIdentifier(key)
    ensures LF !in key
  {
    LineFeedIsNotIdent();
  }

  /** An import in replace mode drops it, whatever the text holds as long as it hides no line of the key. */
  lemma ReplacingDropsSeparator(request: Import, key: JsString)
    requires IsIdentifier(key) && key in KEPT_KEYS && WellFormedImport(SeparatorFile(key), request)
    requires CanonicalText(NextRaw(SeparatorFile(key), request, true)).Some? && NoneHides(Split(request.raw), key)
    ensures var after := ParseEnv(CanonicalText(NextRaw(SeparatorFile(key), request, true)).value);
            At(after, key) != At(ParseEnv(SeparatorFile(key)), key)
  {
    hide SeparatorFile, ParseEnv, CanonicalText, NextRaw, KEPT_KEYS, IsIdentifier, WellFormedImport, NoneHides, Split;
    KeptIsUntouched(key);
    SeparatorIsRead(key);
    SeparatorIsOne();
    CleanImportKeepsLauncherSettings(SeparatorFile(key), request, true, key);
  }

  lemma SeparatorIsOne()
    ensures HasSeparator([LINE_SEPARATOR])
  {}
}
