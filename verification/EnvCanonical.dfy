/** The canonical environment file: what writing derives, and when writing it again changes nothing. */
module EnvCanonical {
  import opened JsStrings
  import opened TextLines
  import opened Dotenv
  import opened DotenvProofs
  import opened DotenvValues
  import opened DotenvEditing
  import opened EnvTopology
  import opened EnvKeys
  import opened EnvLines
  import opened EnvStrays
  import opened EnvSteady
  import opened EnvWritten

  // ------------------------------------------------------------ the derived values

  /**
   No line that is left is turned into an assignment by the splits and the
   trimming of one write: two splits for every line, one for the last, and the
   trimming when no line is added.
   */
  ghost predicate Steady(raw: JsString) {
    QuietLines(Kept(raw), 2, 1) && (Complete(raw) ==> QuietEnd(Kept(raw)))
  }

  lemma SteadyIs(raw: JsString)
    ensures Steady(raw) <==> QuietLines(Kept(raw), 2, 1) && (Complete(raw) ==> QuietEnd(Kept(raw)))
  {}

  lemma SteadyEnvironmentAt(raw: JsString, key: JsString)
    requires Steady(raw) && key != PROTO
    ensures At(ParseEnv(RemoveEnvKeys(raw, REMOVED_KEYS)), key) == At(ParseEnv(raw) - REMOVED_KEYS, key)
  {
    hide *;
    var kept := Kept(raw);
    SteadyIs(raw);
    KeptIs(raw);
    RemoveSplit(raw, REMOVED_KEYS);
    ParseEnvAt(RemoveEnvKeys(raw, REMOVED_KEYS), key);
    LastOfCollapsed(kept, 0, 1, 0, key);
    QuietStripped(kept, 1, 0, 1, 1);
    QuietValues(kept, 1, 0, key);
    KeptAt(raw, REMOVED_KEYS, key);
  }

  /** The topology is derived from the values of the text itself. */
  lemma SteadyEnvironment(raw: JsString)
    requires Steady(raw)
    ensures ParseEnv(RemoveEnvKeys(raw, REMOVED_KEYS)) == ParseEnv(raw) - REMOVED_KEYS
  {
    hide Split, ParseLines, RemoveEnvKeys, REMOVED_KEYS, Steady;
    var a, b := ParseEnv(RemoveEnvKeys(raw, REMOVED_KEYS)), ParseEnv(raw) - REMOVED_KEYS;
    NeverProto(map[], Split(raw));
    NeverProto(map[], Split(RemoveEnvKeys(raw, REMOVED_KEYS)));
    forall key
      ensures At(a, key) == At(b, key)
    {
      if key != PROTO {
        SteadyEnvironmentAt(raw, key);
      }
    }
    SameEnv(a, b);
  }

  /** What the removal leaves, split again. */
  function Remaining(raw: JsString): (r: seq<JsString>)
    ensures r != []
  {
    StripLines(CollapseLines(Kept(raw), 0), 1, 0)
  }

  lemma RemainingIs(raw: JsString)
    ensures Remaining(raw) == Split(RemoveEnvKeys(raw, REMOVED_KEYS))
    ensures forall updates :: EditedOf(raw, updates) == EditedLines(Remaining(raw), updates)
  {
    hide Split, StripLines, CollapseLines, KeptOf, RemoveEnvKeys, EditedLines, REMOVED_KEYS;
    RemoveSplit(raw, REMOVED_KEYS);
    KeptIs(raw);
  }

  lemma RemainingIsQuiet(raw: JsString)
    requires Steady(raw)
    ensures QuietLines(Remaining(raw), 1, 1)
    ensures Complete(raw) ==> QuietEnd(Remaining(raw))
  {
    hide QuietLines, QuietEnd, Kept, StripLines, CollapseLines, Complete;
    var kept := Kept(raw);
    QuietCollapsed(kept, 0, 2, 1);
    QuietStripped(CollapseLines(kept, 0), 1, 0, 1, 1);
    if Complete(raw) {
      QuietEndCollapsed(kept, 0);
      QuietEndStripped(CollapseLines(kept, 0), 1, 0);
    }
  }

  lemma CompleteIs(raw: JsString)
    requires DerivedUpdates(raw).Some?
    ensures var u := DerivedUpdates(raw).value;
            Complete(raw) <==> Appended(u, SeenKeys(Remaining(raw), ToMap(u))) == []
  {
    hide DerivedUpdates, ToMap, Appended, SeenKeys, Split, RemoveEnvKeys, REMOVED_KEYS, DERIVED_KEYS, IdentifierKeys,
         Storable, Remaining, DistinctKeys, AssignsAll, EditedOf, EditedLines;
    var u := DerivedUpdates(raw).value;
    DerivedIsStorable(raw);
    RemainingIs(raw);
    AppendsUnlessAssigned(RemoveEnvKeys(raw, REMOVED_KEYS), u);
  }

  lemma EditedIsQuiet(raw: JsString)
    requires Steady(raw) && DerivedUpdates(raw).Some?
    ensures var edited := EditedOf(raw, DerivedUpdates(raw).value); QuietLines(edited, 1, 1) && QuietEnd(edited)
  {
    hide *;
    var u := DerivedUpdates(raw).value;
    DerivedIsStorable(raw);
    RemainingIs(raw);
    RemainingIsQuiet(raw);
    CompleteIs(raw);
    QuietEdited(Remaining(raw), u);
  }

  lemma EditedEnvOf(before: Env, updates: Env)
    requires Storable(updates)
    ensures EditedEnv(before, updates) == before + updates
  {
    hide HasSeparator;
    CarriesAll(before, updates);
  }

  lemma SteadyValue(raw: JsString, key: JsString)
    requires Steady(raw) && DerivedUpdates(raw).Some? && key != PROTO
    ensures At(ParseEnv(CanonicalText(raw).value), key)
         == At((ParseEnv(raw) - REMOVED_KEYS) + ToMap(DerivedUpdates(raw).value), key)
  {
    hide *;
    var u := DerivedUpdates(raw).value;
    var edited := EditedOf(raw, u);
    DerivedIsStorable(raw);
    WrittenValue(raw, key);
    EditedIsQuiet(raw);
    QuietValues(edited, 1, 1, key);
    QuietEnding(edited, key);
    RemainingIs(raw);
    EditedLinesAt(Remaining(raw), u, key);
    ParseEnvIs(RemoveEnvKeys(raw, REMOVED_KEYS));
    SteadyEnvironment(raw);
    EditedEnvOf(ParseEnv(raw) - REMOVED_KEYS, ToMap(u));
  }

  /** The values that are written: those of the text, without the removed keys, overridden by the derived ones. */
  lemma WrittenEnvironment(raw: JsString)
    requires Steady(raw) && CanonicalText(raw).Some?
    ensures DerivedUpdates(raw) == TopologyInvariantUpdates(ParseEnv(raw) - REMOVED_KEYS) && DerivedUpdates(raw).Some?
    ensures ParseEnv(CanonicalText(raw).value) == (ParseEnv(raw) - REMOVED_KEYS) + ToMap(DerivedUpdates(raw).value)
  {
    hide Split, ParseLines, RemoveEnvKeys, REMOVED_KEYS, Steady, CanonicalText, TopologyInvariantUpdates, ToMap, TrimEnd,
         UpdateEnv, Storable, DERIVED_KEYS, DistinctKeys, IdentifierKeys;
    CanonicalIs(raw);
    SteadyEnvironment(raw);
    DerivedIsStorable(raw);
    var u := ToMap(DerivedUpdates(raw).value);
    var a, b := ParseEnv(CanonicalText(raw).value), (ParseEnv(raw) - REMOVED_KEYS) + u;
    NeverProto(map[], Split(raw));
    NeverProto(map[], Split(CanonicalText(raw).value));
    forall key
      ensures At(a, key) == At(b, key)
    {
      if key != PROTO {
        hide DerivedUpdates, ParseEnv;
        SteadyValue(raw, key);
      }
    }
    SameEnv(a, b);
  }

  lemma DerivedStaysOut(raw: JsString)
    requires DerivedUpdates(raw).Some?
    ensures ToMap(DerivedUpdates(raw).value).Keys !! REMOVED_KEYS
  {
    hide DerivedUpdates, ToMap, REMOVED_KEYS, DERIVED_KEYS, Storable, DistinctKeys, IdentifierKeys;
    DerivedIsStorable(raw);
    forall k | k in ToMap(DerivedUpdates(raw).value)
      ensures k !in REMOVED_KEYS
    {
      DerivedIsNotRemoved(k);
    }
  }

  /** What is written holds every value derived from it, and no retired or managed-proxy key. */
  lemma CanonicalIsDerived(raw: JsString)
    requires Steady(raw) && CanonicalText(raw).Some?
    ensures var env := ParseEnv(CanonicalText(raw).value);
            && env.Keys !! REMOVED_KEYS
            && TopologyInvariantUpdates(env).Some?
            && (forall entry :: entry in TopologyInvariantUpdates(env).value ==> entry.0 in env && env[entry.0] == entry.1)
            && (forall k :: k in ParseEnv(raw) && k !in REMOVED_KEYS && k !in ToMap(TopologyInvariantUpdates(env).value) ==>
                k in env && env[k] == ParseEnv(raw)[k])
  {
    hide CanonicalText, TopologyInvariantUpdates, ParseEnv, ToMap, REMOVED_KEYS, Storable, Steady, RemoveEnvKeys,
         DERIVED_KEYS, IdentifierKeys;
    WrittenEnvironment(raw);
    var u := DerivedUpdates(raw).value;
    DerivedIsStorable(raw);
    DerivedStaysOut(raw);
    TopologyIsStable(ParseEnv(raw) - REMOVED_KEYS);
    EntriesOfMap(u);
  }

  // ------------------------------------------------------------ lines that the same edit leaves alone

  ghost predicate AllStay(lines: seq<JsString>, updates: Env) {
    forall line :: line in lines ==> UpdateLine(line, updates) == line
  }

  lemma AssignIsSettled(a: Assignment, updates: Env)
    requires WellFormed(a) && a.key in updates && !HasSeparator(updates[a.key])
    ensures var line := Assign(a, updates[a.key]); UpdateLine(line, updates) == line
  {
    hide ParseAssignmentLine, SerializeValue, KeptComment, HasSeparator, WellFormed, IsTail, TrimEnd;
    var value, tail := updates[a.key], KeptComment(a.valuePart);
    WellFormedParts(a);
    KeptCommentIsTail(a.valuePart);
    AssignParses(a, value);
    KeptCommentAgain(value, tail);
  }

  lemma UpdatedStays(line: JsString, updates: Env)
    requires Storable(updates)
    ensures UpdateLine(UpdateLine(line, updates), updates) == UpdateLine(line, updates)
  {
    hide ParseAssignmentLine, HasSeparator, WellFormed, Assign;
    if Updates(line, updates) {
      ParseAssignmentSound(line);
      AssignIsSettled(ParseAssignmentLine(line).value, updates);
    }
  }

  lemma NewLineStays(entry: (JsString, JsString), updates: Env)
    requires IsIdentifier(entry.0) && entry.0 in updates && updates[entry.0] == entry.1 && Storable(updates)
    ensures UpdateLine(NewLine(entry), updates) == NewLine(entry)
  {
    hide ParseAssignmentLine, HasSeparator, IsIdentifier, SerializeValue, KeptComment;
    NewLineParses(entry);
    EqualsSeparates();
    KeptCommentAgain(entry.1, []);
    assert SerializeValue(entry.1) + [] == SerializeValue(entry.1);
    assert Assign(Assignment([], entry.0, [EQUALS], SerializeValue(entry.1)), entry.1) == NewLine(entry);
  }

  lemma {:induction false} UpdatedLinesStay(lines: seq<JsString>, updates: Env)
    requires Storable(updates)
    ensures AllStay(UpdateLines(lines, updates), updates)
    decreases |lines|
  {
    if lines != [] {
      hide UpdateLine, Storable;
      UpdatedStays(lines[0], updates);
      UpdatedLinesStay(lines[1..], updates);
    }
  }

  lemma {:induction false} AppendedStay(entries: Entries, seen: set<JsString>, updates: Env)
    requires Storable(updates) && IdentifierKeys(updates)
    requires forall i :: 0 <= i < |entries| ==> entries[i].0 in updates && updates[entries[i].0] == entries[i].1
    ensures AllStay(Appended(entries, seen), updates)
    decreases |entries|
  {
    if entries != [] {
      hide NewLine, UpdateLine, Storable, IsIdentifier;
      NewLineStays(entries[0], updates);
      AppendedStay(entries[1..], seen, updates);
    }
  }

  lemma EditedStay(lines: seq<JsString>, updates: Entries)
    requires lines != [] && DistinctKeys(updates) && IdentifierKeys(ToMap(updates)) && Storable(ToMap(updates))
    ensures AllStay(EditedLines(lines, updates), ToMap(updates))
  {
    hide UpdateLines, Appended, SeenKeys, ToMap, UpdateLine, Storable, IdentifierKeys;
    var u := ToMap(updates);
    EntriesOfMap(updates);
    UpdatedLinesStay(lines, u);
    AppendedStay(updates, SeenKeys(lines, u), u);
    UpdateEmpty(u);
  }

  lemma TrimmedStaysSettled(line: JsString, updates: Env)
    requires UpdateLine(line, updates) == line && (IsAssignment(TrimEnd(line)) ==> IsAssignment(line))
    ensures UpdateLine(TrimEnd(line), updates) == TrimEnd(line)
  {
    hide ParseAssignmentLine, Assign, TrimEnd;
    if Updates(line, updates) {
      UpdatedLine(line, updates);
    } else if IsAssignment(line) {
      OtherNameTrimmed(line, updates);
    }
  }

  lemma OtherNameTrimmed(line: JsString, updates: Env)
    requires IsAssignment(line) && !Updates(line, updates)
    ensures !Updates(TrimEnd(line), updates)
  {
    hide ParseAssignmentLine, UnquoteEnvValue, TrimEnd;
    TrimKeeps(line);
    var key := ParseAssignmentLine(line).value.key;
    assert Assigned(TrimEnd(line), key) == Assigned(line, key);
  }

  lemma {:induction false} QuietEndLast(front: seq<JsString>, line: JsString)
    requires QuietEnd(front + [line])
    ensures Blank(line) ==> QuietEnd(front)
    ensures !Blank(line) || front == [] ==> (IsAssignment(TrimEnd(line)) ==> IsAssignment(line))
    decreases |front|
  {
    hide TrimEnd, IsAssignment, Ending;
    EndingOne(line);
    if front == [] {
      assert front + [line] == [line] && [line][1..] == [];
      NoLinesEnd();
    } else {
      assert front + [line] == [front[0]] + (front[1..] + [line]);
      QuietEndCons(front[0], front[1..] + [line]);
      EndingConcat(front[1..], [line]);
      if Ending(front[1..] + [line]) != [] {
        QuietEndLast(front[1..], line);
      } else {
        assert front == [front[0]] + front[1..];
        QuietEndCons(front[0], front[1..]);
      }
    }
  }

  lemma {:induction false} TrimLinesStay(lines: seq<JsString>, updates: Env)
    requires lines != [] && AllStay(lines, updates) && QuietEnd(lines)
    ensures AllStay(TrimLines(lines), updates)
    decreases |lines|
  {
    hide TrimEnd, UpdateLine, IsAssignment, QuietEnd, Blank;
    var last := |lines| - 1;
    assert lines == lines[..last] + [lines[last]];
    QuietEndLast(lines[..last], lines[last]);
    BlankEnds(lines[last], 0, []);
    if last > 0 && Blank(lines[last]) {
      TrimLinesStay(lines[..last], updates);
    } else {
      assert lines[last] in lines;
      TrimmedStaysSettled(lines[last], updates);
    }
  }

  /** An edit that has nothing to add or to change changes nothing. */
  lemma {:induction false} AllStayUnchanged(lines: seq<JsString>, updates: Env)
    requires AllStay(lines, updates)
    ensures UpdateLines(lines, updates) == lines
    decreases |lines|
  {
    if lines != [] {
      hide UpdateLine;
      assert lines[0] in lines;
      AllStayUnchanged(lines[1..], updates);
      assert lines == [lines[0]] + lines[1..];
    }
  }

  // ------------------------------------------------------------ collapsed lines stay collapsed

  predicate Collapsed(lines: seq<JsString>, run: nat)
    decreases |lines|
  {
    |lines| <= 1 ||
    if lines[0] != [] then Collapsed(lines[1..], 1) else run < 2 && Collapsed(lines[1..], run + 1)
  }

  lemma {:induction false} CollapseCollapses(lines: seq<JsString>, run: nat)
    ensures Collapsed(CollapseLines(lines, run), run)
    decreases |lines|
  {
    if |lines| > 1 {
      if lines[0] != [] {
        CollapseCollapses(lines[1..], 1);
        assert ([lines[0]] + CollapseLines(lines[1..], 1))[1..] == CollapseLines(lines[1..], 1);
      } else if run >= 2 {
        CollapseCollapses(lines[1..], run);
      } else {
        CollapseCollapses(lines[1..], run + 1);
        assert ([[]] + CollapseLines(lines[1..], run + 1))[1..] == CollapseLines(lines[1..], run + 1);
      }
    }
  }

  lemma {:induction false} CollapsedStays(lines: seq<JsString>, run: nat)
    requires Collapsed(lines, run)
    ensures CollapseLines(lines, run) == lines
    decreases |lines|
  {
    if |lines| > 1 {
      CollapsedStays(lines[1..], if lines[0] != [] then 1 else run + 1);
      assert lines == [lines[0]] + lines[1..];
    }
  }

  /** The last line does not matter, and neither does a blank one behind a line that is not blank. */
  lemma {:induction false} CollapsedLast(front: seq<JsString>, x: JsString, y: JsString, run: nat)
    requires Collapsed(front + [x], run)
    ensures Collapsed(front + [y], run) && Collapsed(front, run)
    ensures y != [] ==> Collapsed(front + [y] + [[]], run)
    decreases |front|
  {
    if front != [] {
      assert (front + [x])[1..] == front[1..] + [x] && (front + [y])[1..] == front[1..] + [y];
      assert (front + [y] + [[]])[1..] == front[1..] + [y] + [[]];
      CollapsedLast(front[1..], x, y, if front[0] != [] then 1 else run + 1);
    } else {
      assert front + [y] == [y] && ([y] + [[]])[1..] == [[]];
      assert front + [y] + [[]] == [y] + [[]];
    }
  }

  lemma {:induction false} TrimKeepsCollapsed(lines: seq<JsString>)
    requires lines != [] && Collapsed(lines, 0)
    ensures Collapsed(TrimLines(lines) + [[]], 0)
    decreases |lines|
  {
    hide TrimEnd;
    var last := |lines| - 1;
    var front, line := lines[..last], lines[last];
    assert lines == front + [line];
    CollapsedLast(front, line, TrimEnd(line), 0);
    if last > 0 && Blank(line) {
      TrimKeepsCollapsed(front);
    } else if TrimEnd(line) == [] {
      var two: seq<JsString> := [[], []];
      assert front + [[]] + [[]] == two && two[1..] == [[]];
    }
  }

  lemma {:induction false} TrimLinesTwice(lines: seq<JsString>)
    requires lines != []
    ensures TrimLines(TrimLines(lines) + [[]]) == TrimLines(lines)
    decreases |lines|
  {
    var last := |lines| - 1;
    var front := lines[..last];
    var trimmed := TrimLines(lines);
    assert (trimmed + [[]])[..|trimmed|] == trimmed && (trimmed + [[]])[|trimmed|] == [];
    if last > 0 && Blank(lines[last]) {
      TrimLinesTwice(front);
    } else {
      TrimEndTwice(lines[last]);
      assert trimmed[..last] == front;
      assert TrimLines(trimmed) == trimmed;
    }
  }

  // ------------------------------------------------------------ writing again changes nothing

  lemma CanonicalLinesStay(raw: JsString)
    requires Steady(raw) && DerivedUpdates(raw).Some?
    ensures AllStay(CanonicalLines(raw) + [[]], ToMap(DerivedUpdates(raw).value))
    ensures Collapsed(CanonicalLines(raw) + [[]], 0)
    ensures TrimLines(CanonicalLines(raw) + [[]]) == CanonicalLines(raw)
  {
    hide DerivedUpdates, ToMap, UpdateLine, CollapseLines, EditedOf, Steady, TrimLines, QuietEnd, Collapsed, Storable,
         IdentifierKeys, DistinctKeys, Remaining, EditedLines, CanonicalLines, DERIVED_KEYS, QuietLines, RemoveEnvKeys,
         Split, REMOVED_KEYS;
    var u := DerivedUpdates(raw).value;
    var edited := EditedOf(raw, u);
    var lines := CollapseLines(edited, 0);
    CanonicalLinesIs(raw);
    DerivedIsStorable(raw);
    RemainingIs(raw);
    EditedStay(Remaining(raw), u);
    CollapsedIsPart(edited, 0);
    EditedIsQuiet(raw);
    QuietEndCollapsed(edited, 0);
    TrimLinesStay(lines, ToMap(u));
    UpdateEmpty(ToMap(u));
    CollapseCollapses(edited, 0);
    TrimKeepsCollapsed(lines);
    TrimLinesTwice(lines);
  }

  lemma {:induction false} StripNoReturns(lines: seq<JsString>, n: nat, m: nat)
    requires NoTrailingCR(lines)
    ensures StripLines(lines, n, m) == lines
    decreases |lines|
  {
    hide StripN, EndsWithCR;
    if |lines| == 1 {
      StripNothing(lines[0], m);
    } else if lines != [] {
      StripNothing(lines[0], n);
      StripNoReturns(lines[1..], n, m);
      assert lines == [lines[0]] + lines[1..];
    }
  }

  /** Without carriage returns at line ends, the written lines are what is read. */
  lemma CanonicalReadsBack(raw: JsString)
    requires DerivedUpdates(raw).Some? && NoTrailingCR(CanonicalLines(raw))
    ensures var lines := CanonicalLines(raw) + [[]];
            && SingleLines(lines) && NoTrailingCR(lines) && CanonicalText(raw) == Some(Join(lines))
            && Split(CanonicalText(raw).value) == lines
  {
    hide DerivedUpdates, CanonicalLines, CanonicalText, Split, Join, StripLines;
    var lines := CanonicalLines(raw);
    CanonicalSplit(raw);
    StripNoReturns(lines, 1, 1);
    JoinAppend(lines, []);
    assert [LF] + [] == [LF];
  }

  lemma NamesNothingRemoved(text: JsString)
    requires ParseEnv(text).Keys !! REMOVED_KEYS
    ensures forall line :: line in Split(text) ==> KeepsOut(line, REMOVED_KEYS)
  {
    hide Split, ParseEnv, REMOVED_KEYS, KeepsOut, Assigned, LastOf;
    forall line | line in Split(text)
      ensures KeepsOut(line, REMOVED_KEYS)
    {
      NamesKey(line, REMOVED_KEYS);
      if !KeepsOut(line, REMOVED_KEYS) {
        var key :| key in REMOVED_KEYS && Assigned(line, key).Some?;
        SomeAssigns(Split(text), line, key);
        RemovedIsLong(key);
        ParseEnvAt(text, key);
      }
    }
  }

  /** Removal leaves such a text alone. */
  lemma NothingRemoved(text: JsString, lines: seq<JsString>)
    requires lines != [] && Split(text) == lines && text == Join(lines) && SingleLines(lines) && NoTrailingCR(lines)
    requires ParseEnv(text).Keys !! REMOVED_KEYS && Collapsed(lines, 0)
    ensures RemoveEnvKeys(text, REMOVED_KEYS) == text && Remaining(text) == lines
  {
    hide Split, Join, ParseEnv, REMOVED_KEYS, KeepsOut, StripLines, CollapseLines, Collapsed, RemoveEnvKeys, KeepLines;
    NamesNothingRemoved(text);
    KeepAll(lines, REMOVED_KEYS);
    KeptIs(text);
    CollapsedStays(lines, 0);
    RemoveSplit(text, REMOVED_KEYS);
    StripNoReturns(lines, 1, 0);
  }

  /** Editing it with the updates it satisfies leaves it alone as well. */
  lemma NothingEdited(text: JsString, lines: seq<JsString>, updates: Entries)
    requires lines != [] && Split(text) == lines && AllStay(lines, ToMap(updates)) && DistinctKeys(updates)
    requires PROTO !in ToMap(updates) && AssignsAll(text, updates)
    ensures EditedLines(lines, updates) == lines
  {
    hide Split, ToMap, AllStay, AssignsAll, Appended, SeenKeys, EditedLines, UpdateLines;
    AllStayUnchanged(lines, ToMap(updates));
    AppendsUnlessAssigned(text, updates);
    EditedWithoutNew(lines, updates);
  }

  lemma DerivedAgain(raw: JsString)
    requires Steady(raw) && CanonicalText(raw).Some?
    ensures DerivedUpdates(raw).Some?
    ensures var text := CanonicalText(raw).value;
            && ParseEnv(text).Keys !! REMOVED_KEYS && TopologyInvariantUpdates(ParseEnv(text)) == DerivedUpdates(raw)
            && AssignsAll(text, DerivedUpdates(raw).value)
  {
    hide CanonicalText, TopologyInvariantUpdates, ParseEnv, ToMap, REMOVED_KEYS, Storable, Steady, RemoveEnvKeys,
         DERIVED_KEYS, IdentifierKeys, DerivedUpdates;
    WrittenEnvironment(raw);
    var u := DerivedUpdates(raw).value;
    DerivedIsStorable(raw);
    DerivedStaysOut(raw);
    TopologyIsStable(ParseEnv(raw) - REMOVED_KEYS);
    EntriesOfMap(u);
  }

  lemma WrittenAgain(raw: JsString)
    requires Steady(raw) && CanonicalText(raw).Some? && DerivedUpdates(raw).Some? && NoTrailingCR(CanonicalLines(raw))
    ensures CanonicalText(CanonicalText(raw).value) == CanonicalText(raw)
  {
    hide *;
    var text, u := CanonicalText(raw).value, DerivedUpdates(raw).value;
    var lines := CanonicalLines(raw) + [[]];
    CanonicalReadsBack(raw);
    CanonicalLinesStay(raw);
    DerivedAgain(raw);
    DerivedIsStorable(raw);
    NothingRemoved(text, lines);
    DerivedUpdatesIs(text);
    NothingEdited(text, lines, u);
    RemainingIs(text);
    CanonicalLinesIs(text);
    CollapsedStays(lines, 0);
    CanonicalSplit(text);
    CanonicalSplit(raw);
  }

  lemma DerivedUpdatesIs(raw: JsString)
    ensures DerivedUpdates(raw) == TopologyInvariantUpdates(ParseEnv(RemoveEnvKeys(raw, REMOVED_KEYS)))
  {}

  // ------------------------------------------------------------ carriage returns run out

  /** The number of carriage returns at the end of a line. */
  function Returns(line: JsString): nat {
    if EndsWithCR(line) then Returns(line[..|line| - 1]) + 1 else 0
  }

  ghost predicate AtMost(lines: seq<JsString>, bound: nat) {
    forall line :: line in lines ==> Returns(line) <= bound
  }

  lemma {:induction false} MostReturns(lines: seq<JsString>) returns (bound: nat)
    ensures AtMost(lines, bound)
    ensures bound > 0 ==> exists line :: line in lines && Returns(line) == bound
    decreases |lines|
  {
    hide Returns;
    if lines == [] {
      bound := 0;
    } else {
      var rest := MostReturns(lines[1..]);
      bound := if Returns(lines[0]) > rest then Returns(lines[0]) else rest;
      assert forall line :: line in lines ==> line == lines[0] || line in lines[1..];
      assert lines[0] in lines;
    }
  }

  lemma {:induction false} StrippedAtMost(lines: seq<JsString>, bound: nat)
    requires AtMost(lines, bound)
    ensures AtMost(StripLines(lines, 1, 1), if bound > 0 then bound - 1 else 0)
    ensures AtMost(StripLines(lines, 1, 0), bound)
    decreases |lines|
  {
    if lines != [] {
      StripOne(lines[0]);
      assert lines[0] in lines;
      hide StripN, Returns;
      StrippedReturns(lines[0]);
      StrippedAtMost(lines[1..], bound);
    }
  }

  lemma StrippedReturns(line: JsString)
    ensures Returns(StripCR(line)) == if Returns(line) > 0 then Returns(line) - 1 else 0
  {}

  lemma TrimmedReturns(line: JsString)
    requires TrimEnd(line) == line
    ensures Returns(line) == 0
  {
    TrimmedHasNoCR(line);
  }

  lemma {:induction false} UpdatedAtMost(lines: seq<JsString>, updates: Env, bound: nat)
    requires AtMost(lines, bound)
    ensures AtMost(UpdateLines(lines, updates), bound)
    decreases |lines|
  {
    hide UpdateLine, Updates, Returns, ParseAssignmentLine, TrimEnd;
    if lines != [] {
      assert lines[0] in lines;
      if Updates(lines[0], updates) {
        UpdatedLine(lines[0], updates);
        TrimmedReturns(UpdateLine(lines[0], updates));
      } else {
        NotUpdated(lines[0], updates);
      }
      UpdatedAtMost(lines[1..], updates, bound);
    }
  }

  lemma TrimmedAtMost(lines: seq<JsString>)
    requires AllTrimmed(lines)
    ensures AtMost(lines, 0)
  {
    hide TrimEnd, Returns;
    forall line | line in lines
      ensures Returns(line) <= 0
    {
      TrimmedReturns(line);
    }
  }

  lemma EditedAtMost(lines: seq<JsString>, updates: Entries, bound: nat)
    requires lines != [] && DistinctKeys(updates) && IdentifierKeys(ToMap(updates)) && AtMost(lines, bound)
    ensures AtMost(EditedLines(lines, updates), bound)
  {
    hide UpdateLines, Appended, SeenKeys, ToMap, IdentifierKeys, DistinctKeys, EditedLines, AllTrimmed, Returns;
    var u := ToMap(updates);
    var gap := EditedWithNew(lines, updates);
    EntriesAreIdentifiers(updates);
    UpdatedAtMost(lines, u, bound);
    AppendedTrimmed(updates, SeenKeys(lines, u));
    GapIsTrimmed(gap, Appended(updates, SeenKeys(lines, u)));
    TrimmedAtMost(gap + Appended(updates, SeenKeys(lines, u)));
  }

  lemma {:induction false} TrimLinesAtMost(lines: seq<JsString>, bound: nat)
    requires lines != [] && AtMost(lines, bound)
    ensures AtMost(TrimLines(lines), bound)
    decreases |lines|
  {
    hide TrimEnd, Returns, Blank;
    var last := |lines| - 1;
    if last > 0 && Blank(lines[last]) {
      TrimLinesAtMost(lines[..last], bound);
    } else {
      TrimEndTwice(lines[last]);
      TrimmedReturns(TrimEnd(lines[last]));
    }
  }

  /** One write adds no carriage return to the end of any line. */
  lemma CanonicalAtMost(raw: JsString, bound: nat)
    requires DerivedUpdates(raw).Some? && AtMost(Split(raw), bound)
    ensures AtMost(CanonicalLines(raw), bound)
  {
    hide DerivedUpdates, ToMap, CollapseLines, StripLines, TrimLines, IdentifierKeys, DistinctKeys, EditedLines, Returns,
         Storable, DERIVED_KEYS, Split, KeepLines, KeepsOut, REMOVED_KEYS, CanonicalLines, EditedOf;
    var u := DerivedUpdates(raw).value;
    var kept := Kept(raw);
    DerivedIsStorable(raw);
    CanonicalLinesIs(raw);
    EditedOfIs(raw, u);
    KeptIsPart(Split(raw), REMOVED_KEYS);
    NoReturns();
    CollapsedIsPart(kept, 0);
    StrippedAtMost(CollapseLines(kept, 0), bound);
    EditedAtMost(StripLines(CollapseLines(kept, 0), 1, 0), u, bound);
    CollapsedIsPart(EditedOf(raw, u), 0);
    TrimLinesAtMost(CollapseLines(EditedOf(raw, u), 0), bound);
  }

  lemma NoReturns()
    ensures Returns([]) == 0
  {}

  lemma {:induction false} JoinIsInjective(a: seq<JsString>, b: seq<JsString>)
    requires a != [] && b != [] && SingleLines(a) && SingleLines(b) && Join(a) == Join(b)
    ensures a == b
    decreases |a|
  {
    hide IndexOfLF;
    JoinCuts(a);
    JoinCuts(b);
    assert a[0] == Join(a)[..IndexOfLF(Join(a))] == b[0];
    if |a| > 1 {
      assert Join(a[1..]) == Join(a)[|a[0]| + 1..] == Join(b[1..]);
      JoinIsInjective(a[1..], b[1..]);
      assert a == [a[0]] + a[1..] && b == [b[0]] + b[1..];
    } else {
      assert a == [a[0]] && b == [b[0]];
    }
  }

  lemma JoinCuts(lines: seq<JsString>)
    requires lines != [] && SingleLines(lines)
    ensures var text := Join(lines);
            && IndexOfLF(text) == |lines[0]| && text[..|lines[0]|] == lines[0]
            && (|lines| == 1 <==> |text| == |lines[0]|)
            && (|lines| > 1 ==> text[|lines[0]| + 1..] == Join(lines[1..]))
  {
    hide IndexOfLF;
    IndexOfLFConcat(lines[0], if |lines| > 1 then Join(lines[1..]) else []);
  }

  /** A file with a carriage return at the end of a line has fewer of them after the next write. */
  lemma ReturnsRunOut(raw: JsString)
    requires CanonicalText(raw).Some? && DerivedUpdates(raw).Some?
    requires CanonicalText(CanonicalText(raw).value) == CanonicalText(raw)
    ensures NoTrailingCR(CanonicalLines(raw))
  {
    hide CanonicalText, DerivedUpdates, CanonicalLines, Returns, Split, Join, StripLines, TrimEnd, UpdateEnv, RemoveEnvKeys,
         REMOVED_KEYS;
    var text := CanonicalText(raw).value;
    var lines := CanonicalLines(raw);
    var bound := MostReturns(lines);
    CanonicalSplit(raw);
    CanonicalIs(text);
    CanonicalSplit(text);
    StrippedAtMost(lines, bound);
    NoReturns();
    CanonicalAtMost(text, if bound > 0 then bound - 1 else 0);
    SameText(Join(lines), Join(CanonicalLines(text)));
    JoinIsInjective(lines, CanonicalLines(text));
    NoneReturns(lines);
  }

  lemma SameText(a: JsString, b: JsString)
    requires a + [LF] == b + [LF]
    ensures a == b
  {
    assert a == (a + [LF])[..|a|] && b == (b + [LF])[..|b|];
  }

  lemma NoneReturns(lines: seq<JsString>)
    requires AtMost(lines, 0)
    ensures NoTrailingCR(lines)
  {
    forall i | 0 <= i < |lines|
      ensures !EndsWithCR(lines[i])
    {
      assert Returns(lines[i]) <= 0;
    }
  }

  lemma NoneReturnsAtAll(lines: seq<JsString>)
    requires NoTrailingCR(lines)
    ensures AtMost(lines, 0)
  {}

  /**
   Writing the canonical text again writes the identical text, if and only if
   no line of it still ends with a carriage return; in particular when none
   did before the write.
   */
  lemma CanonicalIsFixedPoint(raw: JsString)
    requires Steady(raw) && CanonicalText(raw).Some?
    ensures DerivedUpdates(raw).Some?
    ensures CanonicalText(CanonicalText(raw).value) == CanonicalText(raw) <==> NoTrailingCR(CanonicalLines(raw))
    ensures NoTrailingCR(Split(raw)) ==> NoTrailingCR(CanonicalLines(raw))
  {
    hide *;
    CanonicalIs(raw);
    if NoTrailingCR(CanonicalLines(raw)) {
      WrittenAgain(raw);
    }
    if CanonicalText(CanonicalText(raw).value) == CanonicalText(raw) {
      ReturnsRunOut(raw);
    }
    if NoTrailingCR(Split(raw)) {
      NoneReturnsAtAll(Split(raw));
      CanonicalAtMost(raw, 0);
      NoneReturns(CanonicalLines(raw));
    }
  }

  // ------------------------------------------------------------ a removed key is gone after the next write

  lemma {:induction false} CollapseShortens(lines: seq<JsString>, run: nat)
    ensures |CollapseLines(lines, run)| <= |lines|
    decreases |lines|
  {
    if |lines| > 1 {
      CollapseShortens(lines[1..], 1);
      CollapseShortens(lines[1..], run);
      CollapseShortens(lines[1..], run + 1);
    }
  }

  lemma {:induction false} KeepShortens(lines: seq<JsString>, keys: set<JsString>)
    ensures |KeepLines(lines, keys)| <= |lines|
    ensures (exists line :: line in lines && !KeepsOut(line, keys)) ==> |KeepLines(lines, keys)| < |lines|
    decreases |lines|
  {
    hide KeepsOut, KeepLines;
    if lines != [] {
      KeepLinesCons(lines, keys);
      KeepShortens(lines[1..], keys);
      assert forall line :: line in lines ==> line == lines[0] || line in lines[1..];
    } else {
      KeepNothing(keys);
    }
  }

  lemma TrimShortens(lines: seq<JsString>)
    requires lines != [] && lines[|lines| - 1] == []
    ensures |lines| > 1 ==> |TrimLines(lines)| < |lines|
    ensures |lines| == 1 ==> TrimLines(lines) == [[]]
  {
    EmptyIsBlank();
    if |lines| > 1 {
      TrimIsShort(lines[..|lines| - 1]);
    }
  }

  lemma {:induction false} TrimIsShort(lines: seq<JsString>)
    requires lines != []
    ensures |TrimLines(lines)| <= |lines|
    decreases |lines|
  {
    hide TrimEnd, Blank;
    var last := |lines| - 1;
    if last > 0 && Blank(lines[last]) {
      TrimIsShort(lines[..last]);
    }
  }

  lemma EmptyNamesNothing(keys: set<JsString>)
    ensures KeepsOut([], keys)
  {
    assert ParseAssignmentLine([]) == None;
  }

  lemma RemainingOf(text: JsString, lines: seq<JsString>)
    requires lines != [] && Split(text) == lines + [[]]
    requires exists line :: line in lines && !KeepsOut(line, REMOVED_KEYS)
    ensures var r := Remaining(text); |r| <= |lines| && r[|r| - 1] == []
  {
    hide Split, KeepsOut, REMOVED_KEYS, KeepLines, StripLines, CollapseLines;
    var kept := KeepLines(lines, REMOVED_KEYS) + [[]];
    KeepLinesConcat(lines, [[]], REMOVED_KEYS);
    KeepEmpty(REMOVED_KEYS);
    KeptIs(text);
    KeepShortens(lines, REMOVED_KEYS);
    CollapseShortens(kept, 0);
    CollapsedEnd(kept, 0);
    StripLinesAt(CollapseLines(kept, 0), 1, 0, |CollapseLines(kept, 0)| - 1);
    StripOne([]);
  }

  lemma ShorterWrite(text: JsString)
    requires DerivedUpdates(text).Some? && Complete(text) && Remaining(text)[|Remaining(text)| - 1] == []
    ensures CanonicalLines(text) == [[]] || |CanonicalLines(text)| < |Remaining(text)|
  {
    hide *;
    var u := DerivedUpdates(text).value;
    var edited := EditedOf(text, u);
    var collapsed := CollapseLines(edited, 0);
    CompleteIs(text);
    RemainingIs(text);
    EditedWithoutNew(Remaining(text), u);
    CanonicalLinesIs(text);
    UpdatedEnd(Remaining(text), ToMap(u));
    CollapseShortens(edited, 0);
    CollapsedEnd(edited, 0);
    TrimShortens(collapsed);
  }

  /** A write that adds no line cannot leave a text alone that has a line to be removed. */
  lemma WriteRemovesLine(text: JsString, lines: seq<JsString>, line: JsString)
    requires DerivedUpdates(text).Some? && Complete(text) && Split(text) == lines + [[]]
    requires line in lines && !KeepsOut(line, REMOVED_KEYS)
    ensures CanonicalLines(text) != lines
  {
    hide *;
    RemainingOf(text, lines);
    ShorterWrite(text);
    EmptyNamesNothing(REMOVED_KEYS);
  }

  lemma KeptNamesNothing(text: JsString)
    ensures forall line :: line in Kept(text) ==> KeepsOut(line, REMOVED_KEYS)
    ensures NoTrailingCR(Split(text)) ==> NoTrailingCR(Kept(text))
  {
    hide Split, KeepLines, KeepsOut, REMOVED_KEYS, Returns;
    KeptIsPart(Split(text), REMOVED_KEYS);
    EmptyNamesNothing(REMOVED_KEYS);
    if NoTrailingCR(Split(text)) {
      NoneReturnsAtAll(Split(text));
      NoReturns();
      NoneReturns(Kept(text));
    }
  }

  /** Whatever a file holds: once a write leaves it alone, it has no removed key. */
  lemma FixedPointHasNoRemovedKey(text: JsString)
    requires CanonicalText(text) == Some(text)
    ensures ParseEnv(text).Keys !! REMOVED_KEYS
  {
    hide CanonicalText, DerivedUpdates, Complete, Split, KeepsOut, REMOVED_KEYS, CanonicalLines, ParseEnv, Kept, Ending,
         StripLines, Join, RemoveEnvKeys, TrimEnd, UpdateEnv;
    CanonicalIs(text);
    var lines := CanonicalLines(text);
    ReturnsRunOut(text);
    CanonicalReadsBack(text);
    RemovedKeysStayOut(text);
    KeptNamesNothing(text);
    StripNoReturns(Kept(text), 2, 1);
    if !StaysRemoved(text) {
      if line :| line in lines && !KeepsOut(line, REMOVED_KEYS) {
        WriteRemovesLine(text, lines, line);
      } else {
        EmptyNamesNothing(REMOVED_KEYS);
        NothingNamed(text);
      }
    }
  }

  lemma NothingNamed(text: JsString)
    requires forall line :: line in Split(text) ==> KeepsOut(line, REMOVED_KEYS)
    ensures ParseEnv(text).Keys !! REMOVED_KEYS
  {
    hide Split, KeepsOut, REMOVED_KEYS, ParseEnv, LastOf;
    forall key | key in REMOVED_KEYS
      ensures key !in ParseEnv(text)
    {
      NoneAssigns(Split(text), REMOVED_KEYS, key);
      RemovedIsLong(key);
      ParseEnvAt(text, key);
    }
  }
}
