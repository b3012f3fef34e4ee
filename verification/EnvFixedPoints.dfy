/** Which texts the canonical write leaves as they are. */
module EnvFixedPoints {
  import opened JsStrings
  import opened TextLines
  import opened Dotenv
  import opened DotenvProofs
  import opened DotenvValues
  import opened DotenvEditing
  import opened EnvTopology
  import opened EnvLines
  import opened EnvStrays
  import opened EnvWritten
  import opened EnvCanonical

  /** The lines are joined by bare line feeds, with one behind the last that has something at its end, or alone. */
  predicate Tidy(text: JsString, lines: seq<JsString>)
    requires lines != []
  {
    && text == Join(lines) && |lines| > 1 && lines[|lines| - 1] == [] && Collapsed(lines, 0)
    && TrimLines(lines[..|lines| - 1]) == lines[..|lines| - 1]
  }

  /** No line assigns a removed key, and every derived key is assigned by lines in the form the editor gives them. */
  ghost predicate Derives(text: JsString, lines: seq<JsString>) {
    && (forall line :: line in lines ==> KeepsOut(line, REMOVED_KEYS))
    && DerivedUpdates(text).Some?
    && AssignsAll(text, DerivedUpdates(text).value) && AllStay(lines, ToMap(DerivedUpdates(text).value))
  }

  // ------------------------------------------------------------ such a text is left alone

  lemma TidyHasNoCR(text: JsString, lines: seq<JsString>)
    requires lines == Split(text) && Tidy(text, lines)
    ensures NoTrailingCR(lines) && SingleLines(lines)
  {
    hide Split, Join, EndsWithCR, Collapsed, TrimLines, StripLines, StripN;
    SplitIsSingleLines(text);
    SplitJoinStrips(lines);
    forall i | 0 <= i < |lines|
      ensures !EndsWithCR(lines[i])
    {
      if i < |lines| - 1 {
        StripLinesAt(lines, 1, 0, i);
        StripOne(lines[i]);
        StripCRShortens(lines[i]);
      } else {
        EmptyHasNoCR();
      }
    }
  }

  lemma StripCRShortens(line: JsString)
    ensures StripCR(line) == line <==> !EndsWithCR(line)
  {}

  lemma EmptyHasNoCR()
    ensures !EndsWithCR([])
  {}

  lemma TrimWithEmpty(lines: seq<JsString>)
    requires lines != []
    ensures TrimLines(lines + [[]]) == TrimLines(lines)
  {
    EmptyIsBlank();
    assert (lines + [[]])[..|lines|] == lines;
  }

  lemma CanonicalIsLeft(text: JsString)
    requires Tidy(text, Split(text)) && Derives(text, Split(text))
    ensures CanonicalText(text) == Some(text)
  {
    hide *;
    DerivesParts(text, Split(text));
    var lines, u := Split(text), DerivedUpdates(text).value;
    var front := lines[..|lines| - 1];
    TidyParts(text, lines);
    TidyHasNoCR(text, lines);
    NothingNamed(text);
    DerivedIsStorable(text);
    NothingRemoved(text, lines);
    EnvCanonical.NothingEdited(text, lines, u);
    RemainingIs(text);
    CanonicalLinesIs(text);
    CollapsedStays(lines, 0);
    assert lines == front + [[]];
    TrimWithEmpty(front);
    CanonicalSplit(text);
    JoinAppend(front, []);
    assert [LF] + [] == [LF];
  }

  lemma TidyParts(text: JsString, lines: seq<JsString>)
    requires lines != [] && Tidy(text, lines)
    ensures && text == Join(lines) && |lines| > 1 && lines[|lines| - 1] == [] && Collapsed(lines, 0)
            && TrimLines(lines[..|lines| - 1]) == lines[..|lines| - 1]
  {}

  lemma DerivesParts(text: JsString, lines: seq<JsString>)
    requires Derives(text, lines)
    ensures && (forall line :: line in lines ==> KeepsOut(line, REMOVED_KEYS))
            && DerivedUpdates(text).Some?
            && AssignsAll(text, DerivedUpdates(text).value) && AllStay(lines, ToMap(DerivedUpdates(text).value))
  {}

  // ------------------------------------------------------------ a text that is left alone is such a text

  lemma {:induction false} EndingIsLast(lines: seq<JsString>)
    requires lines != [] && Ending(lines) != []
    ensures Ending(lines) in TrimLines(lines)
    decreases |lines|
  {
    hide TrimEnd, Ending, Blank;
    var last := |lines| - 1;
    var front, line := lines[..last], lines[last];
    assert lines == front + [line];
    EndingConcat(front, [line]);
    EndingOne(line);
    BlankEnds(line, 0, []);
    NoLinesEnd();
    if Blank(line) {
      EndingIsLast(front);
    } else {
      assert TrimLines(lines)[last] == TrimEnd(line);
    }
  }

  lemma {:induction false} EndingIsNew(entries: Entries, seen: set<JsString>) returns (entry: (JsString, JsString))
    requires forall i :: 0 <= i < |entries| ==> IsIdentifier(entries[i].0)
    requires Appended(entries, seen) != []
    ensures entry in entries && entry.0 !in seen && Ending(Appended(entries, seen)) == NewLine(entry) != []
    decreases |entries|
  {
    hide NewLine, TrimEnd, IsIdentifier, ParseAssignmentLine, Ending;
    var rest := Appended(entries[1..], seen);
    var first := if entries[0].0 in seen then [] else [NewLine(entries[0])];
    EndingConcat(first, rest);
    EndingOne(NewLine(entries[0]));
    FreshLineShape(entries[0]);
    if rest != [] {
      entry := EndingIsNew(entries[1..], seen);
    } else {
      NoLinesEnd();
      entry := entries[0];
    }
  }

  /** A line that an edit adds is seen by the next one. */
  lemma NewLineIsSeen(lines: seq<JsString>, updates: Env, entry: (JsString, JsString))
    requires NewLine(entry) in lines && IsIdentifier(entry.0) && entry.0 in updates && !HasSeparator(entry.1)
    ensures entry.0 in SeenKeys(lines, updates)
  {
    hide NewLine, IsIdentifier, HasSeparator, ParseAssignmentLine, UnquoteEnvValue, SeenKeys, LastOf, SerializeValue;
    NewLineParses(entry);
    assert Assigned(NewLine(entry), entry.0).Some?;
    SomeAssigns(lines, NewLine(entry), entry.0);
    SeenIsAssigned(lines, updates, entry.0);
  }

  lemma StorableEntry(updates: Entries, entry: (JsString, JsString))
    requires DistinctKeys(updates) && IdentifierKeys(ToMap(updates)) && Storable(ToMap(updates)) && entry in updates
    ensures entry.0 in ToMap(updates) && IsIdentifier(entry.0) && !HasSeparator(entry.1)
  {
    hide HasSeparator, IsIdentifier, ToMap;
    EntriesOfMap(updates);
    var i :| 0 <= i < |updates| && updates[i] == entry;
  }

  /** If an edit of the written lines adds a line, they are not the ones that are written next. */
  lemma NothingIsAdded(lines: seq<JsString>, updates: Entries)
    requires lines != [] && DistinctKeys(updates) && IdentifierKeys(ToMap(updates)) && Storable(ToMap(updates))
    requires TrimLines(CollapseLines(EditedLines(lines, updates), 0)) + [[]] == lines
    ensures Appended(updates, SeenKeys(lines, ToMap(updates))) == []
  {
    hide *;
    var u := ToMap(updates);
    var seen := SeenKeys(lines, u);
    var append := Appended(updates, seen);
    var edited := EditedLines(lines, updates);
    if append != [] {
      EntriesAreIdentifiers(updates);
      var gap := EditedWithNew(lines, updates);
      var entry := EndingIsNew(updates, seen);
      GapAssignsNothing(gap, append, []);
      EndingConcat(UpdateLines(lines, u), gap + append);
      EndingCollapsed(edited, 0);
      EndingIsLast(CollapseLines(edited, 0));
      StorableEntry(updates, entry);
      NewLineIsSeen(lines, u, entry);
    }
  }

  lemma {:induction false} SamePattern(a: seq<JsString>, b: seq<JsString>, run: nat)
    requires |a| == |b| && forall i :: 0 <= i < |a| ==> (a[i] == [] <==> b[i] == [])
    requires Collapsed(a, run)
    ensures Collapsed(b, run)
    decreases |a|
  {
    if |a| > 1 {
      SamePattern(a[1..], b[1..], if a[0] != [] then 1 else run + 1);
    }
  }

  lemma UpdatedPattern(lines: seq<JsString>, updates: Env)
    ensures var r := UpdateLines(lines, updates);
            forall i :: 0 <= i < |lines| ==> r[i] == UpdateLine(lines[i], updates) && (r[i] == [] <==> lines[i] == [])
  {
    hide UpdateLine, UpdateLines;
    var r := UpdateLines(lines, updates);
    forall i | 0 <= i < |lines|
      ensures r[i] == UpdateLine(lines[i], updates) && (r[i] == [] <==> lines[i] == [])
    {
      UpdatedAt(lines, updates, i);
      UpdateIsEmpty(lines[i], updates);
    }
  }

  lemma UpdateIsEmpty(line: JsString, updates: Env)
    ensures UpdateLine(line, updates) == [] <==> line == []
  {
    hide ParseAssignmentLine, Assign, TrimEnd;
    UpdateEmpty(updates);
    if Updates(line, updates) {
      UpdatedLine(line, updates);
    }
  }

  lemma {:induction false} TrimIsShorter(lines: seq<JsString>)
    requires lines != []
    ensures |TrimLines(lines)| <= |lines|
    ensures |TrimLines(lines)| == |lines| ==>
              TrimLines(lines) == lines[..|lines| - 1] + [TrimEnd(lines[|lines| - 1])]
    decreases |lines|
  {
    hide TrimEnd, Blank;
    var last := |lines| - 1;
    if last > 0 && Blank(lines[last]) {
      TrimIsShorter(lines[..last]);
    }
  }

  lemma TrimmedUpdate(line: JsString, updates: Env)
    requires TrimEnd(line) == line
    ensures TrimEnd(UpdateLine(line, updates)) == UpdateLine(line, updates)
  {
    hide ParseAssignmentLine, Assign, TrimEnd;
    if Updates(line, updates) {
      UpdatedLine(line, updates);
    }
  }

  lemma LastIsTrimmed(lines: seq<JsString>)
    requires lines != [] && TrimLines(lines) == lines
    ensures TrimEnd(lines[|lines| - 1]) == lines[|lines| - 1]
  {
    hide TrimEnd, TrimLines;
    TrimIsShorter(lines);
    var last := |lines| - 1;
    assert (lines[..last] + [TrimEnd(lines[last])])[last] == TrimEnd(lines[last]);
  }

  /** If the lines are written again as they are, the edit changed none of them. */
  lemma NothingIsChanged(front: seq<JsString>, updates: Env)
    requires front != [] && TrimLines(front) == front && TrimLines(UpdateLines(front, updates)) == front
    ensures AllStay(front, updates)
  {
    hide TrimEnd, TrimLines, UpdateLine, UpdateLines;
    var r, last := UpdateLines(front, updates), |front| - 1;
    UpdatedPattern(front, updates);
    LastIsTrimmed(front);
    TrimIsShorter(r);
    TrimmedUpdate(front[last], updates);
    assert front == r[..last] + [TrimEnd(r[last])];
    forall i | 0 <= i < |front|
      ensures UpdateLine(front[i], updates) == front[i]
    {
      assert front[i] == (r[..last] + [TrimEnd(r[last])])[i];
    }
  }

  lemma UpdatedFront(front: seq<JsString>, updates: Env)
    ensures UpdateLines(front + [[]], updates) == UpdateLines(front, updates) + [[]]
  {
    hide UpdateLine, UpdateLines;
    UpdatedPattern(front + [[]], updates);
    UpdatedPattern(front, updates);
    UpdateEmpty(updates);
    var a, b := UpdateLines(front + [[]], updates), UpdateLines(front, updates) + [[]];
    forall i | 0 <= i < |a|
      ensures a[i] == b[i]
    {
      assert (front + [[]])[i] == if i < |front| then front[i] else [];
    }
  }

  lemma LeftLinesStay(front: seq<JsString>, updates: Entries)
    requires front != [] && TrimLines(front) == front && Collapsed(front + [[]], 0)
    requires Appended(updates, SeenKeys(front + [[]], ToMap(updates))) == []
    requires TrimLines(CollapseLines(EditedLines(front + [[]], updates), 0)) == front
    ensures AllStay(front + [[]], ToMap(updates))
  {
    hide *;
    var u := ToMap(updates);
    EditedWithoutNew(front + [[]], updates);
    UpdatedPattern(front + [[]], u);
    SamePattern(front + [[]], UpdateLines(front + [[]], u), 0);
    CollapsedStays(UpdateLines(front + [[]], u), 0);
    UpdatedFront(front, u);
    TrimWithEmpty(UpdateLines(front, u));
    NothingIsChanged(front, u);
    AllStayWithEmpty(front, u);
  }

  lemma AllStayWithEmpty(front: seq<JsString>, updates: Env)
    requires AllStay(front, updates)
    ensures AllStay(front + [[]], updates)
  {
    hide UpdateLine;
    UpdateEmpty(updates);
  }

  lemma LeftIsTidy(text: JsString)
    requires CanonicalText(text) == Some(text) && DerivedUpdates(text).Some?
    ensures var front := CanonicalLines(text);
            && Split(text) == front + [[]] && Tidy(text, Split(text)) && TrimLines(front) == front
  {
    hide *;
    var front := CanonicalLines(text);
    var collapsed := CollapseLines(EditedOf(text, DerivedUpdates(text).value), 0);
    ReturnsRunOut(text);
    CanonicalReadsBack(text);
    CanonicalLinesIs(text);
    CollapseCollapses(EditedOf(text, DerivedUpdates(text).value), 0);
    TrimKeepsCollapsed(collapsed);
    TrimLinesTwice(collapsed);
    TrimWithEmpty(front);
    TidyFrom(text, front);
  }

  lemma TidyFrom(text: JsString, front: seq<JsString>)
    requires front != [] && text == Join(front + [[]]) && Collapsed(front + [[]], 0) && TrimLines(front) == front
    ensures Tidy(text, front + [[]])
  {
    hide Join, Collapsed, TrimLines;
    assert (front + [[]])[..|front|] == front;
  }

  lemma LeftDerives(text: JsString)
    requires CanonicalText(text) == Some(text) && DerivedUpdates(text).Some?
    ensures Derives(text, Split(text))
  {
    hide *;
    var front, u := CanonicalLines(text), DerivedUpdates(text).value;
    var lines := Split(text);
    LeftIsTidy(text);
    TidyParts(text, lines);
    TidyHasNoCR(text, lines);
    FixedPointHasNoRemovedKey(text);
    NamesNothingRemoved(text);
    NothingRemoved(text, lines);
    RemainingIs(text);
    CanonicalLinesIs(text);
    DerivedIsStorable(text);
    NothingIsAdded(lines, u);
    AppendsUnlessAssigned(text, u);
    LeftLinesStay(front, u);
    DerivesFrom(text, lines);
  }

  lemma DerivesFrom(text: JsString, lines: seq<JsString>)
    requires && (forall line :: line in lines ==> KeepsOut(line, REMOVED_KEYS))
             && DerivedUpdates(text).Some?
             && AssignsAll(text, DerivedUpdates(text).value) && AllStay(lines, ToMap(DerivedUpdates(text).value))
    ensures Derives(text, lines)
  {}

  lemma LeftIsDerived(text: JsString)
    requires CanonicalText(text) == Some(text)
    ensures DerivedUpdates(text).Some?
  {
    hide CanonicalText, DerivedUpdates, UpdateEnv, RemoveEnvKeys, TrimEnd;
    CanonicalIs(text);
  }

  /**
   The texts that the canonical write leaves as they are, exactly: tidy ones
   without removed keys in which every derived key is assigned, in the form the
   editor writes and with the value that is derived.
   */
  lemma FixedPointsExactly(text: JsString)
    ensures CanonicalText(text) == Some(text) <==> Tidy(text, Split(text)) && Derives(text, Split(text))
  {
    hide *;
    if CanonicalText(text) == Some(text) {
      LeftIsDerived(text);
      LeftIsTidy(text);
      LeftDerives(text);
    } else if Tidy(text, Split(text)) && Derives(text, Split(text)) {
      CanonicalIsLeft(text);
    }
  }
}
