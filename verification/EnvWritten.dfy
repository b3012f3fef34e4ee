/** Removing keys, and what the canonical write leaves of every key, for any text. */
module EnvWritten {
  import opened JsStrings
  import opened TextLines
  import opened Dotenv
  import opened DotenvProofs
  import opened DotenvValues
  import opened DotenvEditing
  import opened EnvTopology
  import opened EnvKeys
  import opened EnvLines
  import opened EnvStrays

  // ------------------------------------------------------------ removing keys

  /** The lines that a removal keeps. */
  function KeptOf(text: JsString, keys: set<JsString>): (r: seq<JsString>)
    ensures r != []
  {
    var kept := KeepLines(Split(text), keys);
    if kept == [] then [[]] else kept
  }

  lemma EmptyText()
    ensures Collapse(Join([]), 0) == [] && Split([]) == [[]] && Join([[]]) == []
  {}

  lemma OneLineCollapsed(line: JsString)
    ensures CollapseLines([line], 0) == [line]
  {}

  lemma KeptSingle(text: JsString, keys: set<JsString>)
    ensures SingleLines(KeptOf(text, keys))
  {
    hide Split, KeepLines, KeepsOut;
    SplitIsSingleLines(text);
    KeptIsPart(Split(text), keys);
    OneEmptyLine();
    forall line | line in KeepLines(Split(text), keys)
      ensures LF !in line
    {
      assert line in Split(text);
    }
  }

  /** Splitting the remaining text strips its lines. */
  lemma RemoveSplit(text: JsString, keys: set<JsString>)
    ensures var kept := CollapseLines(KeptOf(text, keys), 0);
            && SingleLines(kept) && RemoveEnvKeys(text, keys) == Join(kept)
            && Split(RemoveEnvKeys(text, keys)) == StripLines(kept, 1, 0)
  {
    hide Split, Collapse, KeepLines, CollapseLines, Join, SingleLines, StripLines;
    var kept := KeepLines(Split(text), keys);
    KeptSingle(text, keys);
    CollapseJoin(KeptOf(text, keys), 0);
    CollapseKeepsShape(KeptOf(text, keys), 0);
    SplitJoinStrips(CollapseLines(KeptOf(text, keys), 0));
    if kept == [] {
      EmptyText();
      OneLineCollapsed([]);
    }
  }

  lemma PutWithout(values: Env, line: JsString, keys: set<JsString>)
    ensures KeepsOut(line, keys) ==> Put(values - keys, line) == Put(values, line) - keys
    ensures !KeepsOut(line, keys) ==> values - keys == Put(values, line) - keys
  {
    hide ParseAssignmentLine, UnquoteEnvValue;
  }

  lemma {:induction false} KeepLinesParse(values: Env, lines: seq<JsString>, keys: set<JsString>)
    ensures ParseLines(values - keys, KeepLines(lines, keys)) == ParseLines(values, lines) - keys
    decreases |lines|
  {
    if lines != [] {
      var line, rest := lines[0], KeepLines(lines[1..], keys);
      KeepLinesParse(Put(values, line), lines[1..], keys);
      PutWithout(values, line, keys);
      KeepLinesCons(lines, keys);
      hide Put, KeepLines, KeepsOut;
      if KeepsOut(line, keys) {
        assert ([line] + rest)[1..] == rest;
      }
    }
  }

  lemma KeepLinesCons(lines: seq<JsString>, keys: set<JsString>)
    requires lines != []
    ensures KeepLines(lines, keys)
         == if KeepsOut(lines[0], keys) then [lines[0]] + KeepLines(lines[1..], keys) else KeepLines(lines[1..], keys)
  {}

  lemma KeepNothing(keys: set<JsString>)
    ensures KeepLines([], keys) == []
  {}

  lemma {:induction false} KeepAll(lines: seq<JsString>, keys: set<JsString>)
    requires forall line :: line in lines ==> KeepsOut(line, keys)
    ensures KeepLines(lines, keys) == lines
    decreases |lines|
  {
    hide KeepsOut, KeepLines;
    if lines == [] {
      KeepNothing(keys);
    } else {
      assert KeepsOut(lines[0], keys);
      KeepLinesCons(lines, keys);
      KeepAll(lines[1..], keys);
      assert lines == [lines[0]] + lines[1..];
    }
  }

  lemma {:induction false} KeepLinesConcat(first: seq<JsString>, second: seq<JsString>, keys: set<JsString>)
    ensures KeepLines(first + second, keys) == KeepLines(first, keys) + KeepLines(second, keys)
    decreases |first|
  {
    hide KeepsOut, KeepLines;
    if first == [] {
      KeepNothing(keys);
      assert first + second == second;
    } else {
      KeepLinesConcat(first[1..], second, keys);
      assert (first + second)[1..] == first[1..] + second;
      KeepLinesCons(first + second, keys);
      KeepLinesCons(first, keys);
    }
  }

  lemma KeepEmpty(keys: set<JsString>)
    ensures KeepLines([[]], keys) == [[]]
  {
    assert ParseAssignmentLine([]) == None;
    assert KeepLines([], keys) == [];
  }

  lemma EmptyParse()
    ensures ParseLines(map[], []) == map[]
  {}

  /** The kept lines assign the values of all other keys. */
  lemma KeptValues(text: JsString, keys: set<JsString>)
    ensures ParseLines(map[], KeptOf(text, keys)) == ParseEnv(text) - keys
  {
    hide Split, ParseLines, KeepLines;
    KeepLinesParse(map[], Split(text), keys);
    var none: Env := map[];
    assert none - keys == none;
    PutBlank(map[]);
    ParseOneLine(map[], []);
    EmptyParse();
  }

  lemma KeptAt(text: JsString, keys: set<JsString>, key: JsString)
    requires key != PROTO
    ensures LastOf(KeptOf(text, keys), key) == At(ParseEnv(text) - keys, key)
  {
    hide KeptOf, ParseLines, LastOf, ParseEnv;
    KeptValues(text, keys);
    ParseAt(map[], KeptOf(text, keys), key);
  }

  /** The exact effect of a removal on any text. */
  lemma RemoveExactly(text: JsString, keys: set<JsString>, key: JsString)
    requires key != PROTO
    ensures var kept := KeptOf(text, keys);
            At(ParseEnv(RemoveEnvKeys(text, keys)), key)
            == Or(At(ParseEnv(text) - keys, key), Surfacing(kept, StripLines(kept, 1, 0), key))
  {
    hide *;
    var kept := KeptOf(text, keys);
    RemoveSplit(text, keys);
    ParseEnvAt(RemoveEnvKeys(text, keys), key);
    LastOfCollapsed(kept, 0, 1, 0, key);
    StrippedValue(kept, 1, 0, key);
    KeptAt(text, keys, key);
  }

  lemma KeptHidesNothing(text: JsString, keys: set<JsString>, key: JsString)
    requires NoneHides(Split(text), key)
    ensures NoneHides(KeptOf(text, keys), key)
  {
    hide Split, KeepLines, Hides, KeepsOut;
    KeptIsPart(Split(text), keys);
    EmptyHidesNothing(key);
  }

  /** Where no line hides the key, a removal does what it says. */
  lemma RemovePlainly(text: JsString, keys: set<JsString>, key: JsString)
    requires key != PROTO && NoneHides(Split(text), key)
    ensures NoneHides(Split(RemoveEnvKeys(text, keys)), key)
    ensures At(ParseEnv(RemoveEnvKeys(text, keys)), key) == At(ParseEnv(text) - keys, key)
  {
    hide Split, CollapseLines, StripLines, KeptOf, RemoveEnvKeys, ParseEnv, At, LastOf, Hides;
    var kept := KeptOf(text, keys);
    KeptHidesNothing(text, keys, key);
    RemoveSplit(text, keys);
    CollapsedIsPart(kept, 0);
    CleanLinesStripped(CollapseLines(kept, 0), 1, 0, key);
    ParseEnvAt(RemoveEnvKeys(text, keys), key);
    LastOfCollapsed(kept, 0, 1, 0, key);
    CleanLinesStripped(kept, 1, 0, key);
    KeptAt(text, keys, key);
  }

  // ------------------------------------------------------------ the canonical lines

  /** The lines of `raw` without the removed keys. */
  function Kept(raw: JsString): (r: seq<JsString>)
    ensures r != []
  {
    KeptOf(raw, REMOVED_KEYS)
  }

  /** The updates derived for `raw`. */
  function DerivedUpdates(raw: JsString): Option<Entries> {
    TopologyInvariantUpdates(ParseEnv(RemoveEnvKeys(raw, REMOVED_KEYS)))
  }

  /** All derived keys have a line already. */
  ghost predicate Complete(raw: JsString) {
    DerivedUpdates(raw).Some? && AssignsAll(RemoveEnvKeys(raw, REMOVED_KEYS), DerivedUpdates(raw).value)
  }

  function EditedOf(raw: JsString, updates: Entries): (r: seq<JsString>)
    ensures r != []
  {
    EditedLines(StripLines(CollapseLines(Kept(raw), 0), 1, 0), updates)
  }

  /** The lines of the file that is written, each ended by a line feed. */
  function CanonicalLines(raw: JsString): (r: seq<JsString>)
    requires DerivedUpdates(raw).Some?
    ensures r != []
  {
    TrimLines(CollapseLines(EditedOf(raw, DerivedUpdates(raw).value), 0))
  }

  lemma CanonicalIs(raw: JsString)
    ensures CanonicalText(raw)
         == match DerivedUpdates(raw)
            case None => None
            case Some(updates) => Some(TrimEnd(UpdateEnv(RemoveEnvKeys(raw, REMOVED_KEYS), updates)) + [LF])
  {}

  lemma DerivedIsStorable(raw: JsString)
    requires DerivedUpdates(raw).Some?
    ensures var u := DerivedUpdates(raw).value;
            && DistinctKeys(u) && IdentifierKeys(ToMap(u)) && Storable(ToMap(u))
            && ToMap(u).Keys <= DERIVED_KEYS && PROTO !in ToMap(u)
  {
    hide TopologyInvariantUpdates, HasSeparator, IdentifierKeys, ToMap, ParseEnv, RemoveEnvKeys, DERIVED_KEYS;
    TopologyIsStorable(ParseEnv(RemoveEnvKeys(raw, REMOVED_KEYS)));
  }

  lemma {:induction false} TrimLinesSingle(lines: seq<JsString>)
    requires lines != [] && SingleLines(lines)
    ensures SingleLines(TrimLines(lines))
    decreases |lines|
  {
    hide TrimEnd, Blank;
    var last := |lines| - 1;
    if last > 0 && Blank(lines[last]) {
      TrimLinesSingle(lines[..last]);
    } else {
      TrimIsPart(lines[last]);
    }
  }

  lemma TrimIsPart(line: JsString)
    ensures LF !in line ==> LF !in TrimEnd(line)
  {}

  /** The written text, line by line, and how it is split again. */
  lemma CanonicalSplit(raw: JsString)
    requires DerivedUpdates(raw).Some?
    ensures CanonicalText(raw) == Some(Join(CanonicalLines(raw)) + [LF]) && SingleLines(CanonicalLines(raw))
    ensures Split(CanonicalText(raw).value) == StripLines(CanonicalLines(raw), 1, 1) + [[]]
  {
    hide Split, Join, CollapseLines, StripLines, SingleLines, TrimLines, TrimEnd, RemoveEnvKeys, UpdateEnv, ToMap,
         IdentifierKeys, DistinctKeys, EditedLines, Kept, DerivedUpdates, CanonicalText, Storable, DERIVED_KEYS;
    var u := DerivedUpdates(raw).value;
    var edited := CollapseLines(EditedOf(raw, u), 0);
    DerivedIsStorable(raw);
    CanonicalIs(raw);
    RemoveSplit(raw, REMOVED_KEYS);
    KeptIs(raw);
    UpdateEnvSplit(RemoveEnvKeys(raw, REMOVED_KEYS), u);
    TrimEndJoin(edited);
    TrimLinesSingle(edited);
    SplitJoinedFeed(CanonicalLines(raw));
  }

  lemma KeptIs(raw: JsString)
    ensures Kept(raw) == KeptOf(raw, REMOVED_KEYS)
  {}

  /** What is written, in terms of the edited lines. */
  lemma WrittenValue(raw: JsString, key: JsString)
    requires DerivedUpdates(raw).Some? && key != PROTO
    ensures var edited := EditedOf(raw, DerivedUpdates(raw).value);
            At(ParseEnv(CanonicalText(raw).value), key)
            == Or(LastOf(StripLines(edited, 1, 1), key), Assigned(Ending(edited), key))
  {
    hide *;
    var edited := EditedOf(raw, DerivedUpdates(raw).value);
    CanonicalSplit(raw);
    CanonicalLinesIs(raw);
    ParseEnvAt(CanonicalText(raw).value, key);
    LastOfConcat(StripLines(CanonicalLines(raw), 1, 1), [[]], key);
    LastOfOne([], key);
    EmptyStays(0, key);
    OrLaws(LastOf(StripLines(CanonicalLines(raw), 1, 1), key), None, None);
    TrimmedValue(CollapseLines(edited, 0), 1, 1, key);
    LastOfCollapsed(edited, 0, 1, 1, key);
    EndingCollapsed(edited, 0);
  }

  lemma CanonicalLinesIs(raw: JsString)
    requires DerivedUpdates(raw).Some?
    ensures CanonicalLines(raw) == TrimLines(CollapseLines(EditedOf(raw, DerivedUpdates(raw).value), 0))
  {}

  // ------------------------------------------------------------ the value of a key that is not derived

  /** The value that the last remaining line shows once it is trimmed; it is when no line is added behind it. */
  ghost function Closing(raw: JsString, key: JsString): Option<JsString> {
    if Complete(raw) then Assigned(Ending(Kept(raw)), key) else None
  }

  lemma EditedElsewhere(lines: seq<JsString>, updates: Entries, n: nat, key: JsString)
    requires lines != [] && DistinctKeys(updates) && IdentifierKeys(ToMap(updates)) && key !in ToMap(updates)
    ensures LastOf(StripLines(EditedLines(lines, updates), n, n), key) == LastOf(StripLines(lines, n, n), key)
    ensures Assigned(Ending(EditedLines(lines, updates)), key)
         == if Appended(updates, SeenKeys(lines, ToMap(updates))) == [] then Assigned(Ending(lines), key) else None
  {
    hide *;
    var u := ToMap(updates);
    var append := Appended(updates, SeenKeys(lines, u));
    LastOfUpdated(lines, u, n, n, key);
    EndingUpdated(lines, u, key);
    if append == [] {
      EditedWithoutNew(lines, updates);
    } else {
      var gap := EditedWithNew(lines, updates);
      EntriesElsewhere(updates, key);
      StripLinesConcat(UpdateLines(lines, u), gap + append, n, n);
      LastOfConcat(StripLines(UpdateLines(lines, u), n, n), StripLines(gap + append, n, n), key);
      NewLinesStripped(updates, SeenKeys(lines, u), gap, n, n, key);
      OrLaws(LastOf(StripLines(UpdateLines(lines, u), n, n), key), None, None);
      EndingConcat(UpdateLines(lines, u), gap + append);
    }
  }

  lemma EntriesElsewhere(updates: Entries, key: JsString)
    requires DistinctKeys(updates) && IdentifierKeys(ToMap(updates)) && key !in ToMap(updates)
    ensures forall i :: 0 <= i < |updates| ==> IsIdentifier(updates[i].0) && updates[i].0 != key
  {
    hide IsIdentifier, ToMap;
    EntriesOfMap(updates);
  }

  lemma NewLinesStripped(entries: Entries, seen: set<JsString>, gap: seq<JsString>, n: nat, m: nat, key: JsString)
    requires forall i :: 0 <= i < |entries| ==> IsIdentifier(entries[i].0) && entries[i].0 != key
    requires Appended(entries, seen) != [] && (gap == [] || gap == [[]])
    ensures LastOf(StripLines(gap + Appended(entries, seen), n, m), key) == None
    ensures Ending(gap + Appended(entries, seen)) != []
    ensures Assigned(Ending(gap + Appended(entries, seen)), key) == None
  {
    hide *;
    var append := Appended(entries, seen);
    LastOfAppended(entries, seen, key);
    EndingAppended(entries, seen, key);
    GapAssignsNothing(gap, append, key);
    AppendedHidesNothing(entries, seen, key);
    EmptyHidesNothing(key);
    NoneHidesConcat(gap, append, key);
    CleanLinesStripped(gap + append, n, m, key);
  }

  lemma NoneHidesConcat(gap: seq<JsString>, append: seq<JsString>, key: JsString)
    requires (gap == [] || gap == [[]]) && NoneHides([[]], key) && NoneHides(append, key)
    ensures NoneHides(gap + append, key)
  {
    hide Hides;
    var empty: JsString := [];
    assert empty in [empty];
  }

  /**
   The exact value of every key that is not derived: what the kept lines say
   once two carriage returns are stripped from each, one from the last, and
   the last line, if none is added, is trimmed.
   */
  lemma WrittenElsewhere(raw: JsString, key: JsString)
    requires DerivedUpdates(raw).Some? && key != PROTO && key !in ToMap(DerivedUpdates(raw).value)
    ensures At(ParseEnv(CanonicalText(raw).value), key)
         == Or(LastOf(StripLines(Kept(raw), 2, 1), key), Closing(raw, key))
  {
    hide *;
    var u := DerivedUpdates(raw).value;
    var kept := Kept(raw);
    var lines := StripLines(CollapseLines(kept, 0), 1, 0);
    WrittenValue(raw, key);
    EditedOfIs(raw, u);
    DerivedIsStorable(raw);
    EditedElsewhere(lines, u, 1, key);
    StripLinesTwice(CollapseLines(kept, 0), 1, 0, 1, 1);
    LastOfCollapsed(kept, 0, 2, 1, key);
    EndingStripped(CollapseLines(kept, 0), 1, 0);
    EndingCollapsed(kept, 0);
    RemoveSplit(raw, REMOVED_KEYS);
    KeptIs(raw);
    AppendsUnlessAssigned(RemoveEnvKeys(raw, REMOVED_KEYS), u);
    ClosingIs(raw, key);
  }

  lemma EditedOfIs(raw: JsString, updates: Entries)
    ensures EditedOf(raw, updates) == EditedLines(StripLines(CollapseLines(Kept(raw), 0), 1, 0), updates)
  {}

  lemma ClosingIs(raw: JsString, key: JsString)
    requires DerivedUpdates(raw).Some?
    ensures Closing(raw, key)
         == if AssignsAll(RemoveEnvKeys(raw, REMOVED_KEYS), DerivedUpdates(raw).value)
            then Assigned(Ending(Kept(raw)), key) else None
  {
    hide DerivedUpdates, AssignsAll, RemoveEnvKeys, Assigned, Ending, Kept;
  }

  /** The exact value of every derived key: the derived value, unless an edited line comes to light behind it. */
  lemma WrittenDerived(raw: JsString, key: JsString)
    requires DerivedUpdates(raw).Some? && key in ToMap(DerivedUpdates(raw).value)
    ensures var u := DerivedUpdates(raw).value;
            var edited := EditedOf(raw, u);
            At(ParseEnv(CanonicalText(raw).value), key)
            == Or(Or(Some(ToMap(u)[key]), Surfacing(edited, StripLines(edited, 1, 1), key)), Assigned(Ending(edited), key))
  {
    hide *;
    var u := DerivedUpdates(raw).value;
    var lines := StripLines(CollapseLines(Kept(raw), 0), 1, 0);
    DerivedIsStorable(raw);
    WrittenValue(raw, key);
    StrippedValue(EditedOf(raw, u), 1, 1, key);
    EditedOfIs(raw, u);
    EditedLinesAt(lines, u, key);
    StorableAt(ParseLines(map[], lines), ToMap(u), key);
  }

  lemma StorableAt(before: Env, updates: Env, key: JsString)
    requires Storable(updates) && key in updates
    ensures At(EditedEnv(before, updates), key) == Some(updates[key])
  {
    hide HasSeparator;
  }

  // ------------------------------------------------------------ removed keys

  lemma {:induction false} NoneAssigns(lines: seq<JsString>, keys: set<JsString>, key: JsString)
    requires (forall line :: line in lines ==> KeepsOut(line, keys)) && key in keys
    ensures LastOf(lines, key) == None
    decreases |lines|
  {
    hide ParseAssignmentLine, UnquoteEnvValue;
    if lines != [] {
      assert KeepsOut(lines[0], keys);
      NoneAssigns(lines[1..], keys, key);
    }
  }

  lemma {:induction false} SomeAssigns(lines: seq<JsString>, line: JsString, key: JsString)
    requires line in lines && Assigned(line, key).Some?
    ensures LastOf(lines, key).Some?
    decreases |lines|
  {
    hide Assigned;
    if lines[0] != line {
      SomeAssigns(lines[1..], line, key);
    }
  }

  lemma NamesKey(line: JsString, keys: set<JsString>)
    ensures !KeepsOut(line, keys) ==> exists key :: key in keys && Assigned(line, key).Some?
    ensures forall key :: key in keys && Assigned(line, key).Some? ==> !KeepsOut(line, keys)
  {
    hide ParseAssignmentLine, UnquoteEnvValue;
    if !KeepsOut(line, keys) {
      assert Assigned(line, ParseAssignmentLine(line).value.key).Some?;
    }
  }

  /** No remaining line turns into an assignment of a removed key. */
  ghost predicate StaysRemoved(raw: JsString) {
    && (forall line :: line in StripLines(Kept(raw), 2, 1) ==> KeepsOut(line, REMOVED_KEYS))
    && (Complete(raw) ==> KeepsOut(Ending(Kept(raw)), REMOVED_KEYS))
  }

  lemma RemovedIsElsewhere(raw: JsString, key: JsString)
    requires DerivedUpdates(raw).Some? && key in REMOVED_KEYS
    ensures key != PROTO && key !in ToMap(DerivedUpdates(raw).value)
  {
    hide DerivedUpdates, ToMap, IdentifierKeys, DERIVED_KEYS, Storable, DistinctKeys;
    DerivedIsStorable(raw);
    RemovedIsLong(key);
    DerivedIsNotRemoved(key);
  }

  lemma RemovedIsLong(key: JsString)
    requires key in REMOVED_KEYS
    ensures |key| > 9 && |PROTO| == 9
  {}

  /** The written file has no removed key if and only if no line left is one once the later splits have stripped it. */
  lemma RemovedKeysStayOut(raw: JsString)
    requires DerivedUpdates(raw).Some?
    ensures ParseEnv(CanonicalText(raw).value).Keys !! REMOVED_KEYS <==> StaysRemoved(raw)
  {
    hide *;
    CanonicalIs(raw);
    var env := ParseEnv(CanonicalText(raw).value);
    forall key | key in REMOVED_KEYS
      ensures StaysRemoved(raw) ==> key !in env
    {
      if StaysRemoved(raw) {
        RemovedStaysOut(raw, key);
      }
    }
    if !StaysRemoved(raw) {
      var key := RemovedComesBack(raw);
    }
  }

  lemma RemovedStaysOut(raw: JsString, key: JsString)
    requires DerivedUpdates(raw).Some? && StaysRemoved(raw) && key in REMOVED_KEYS
    ensures key !in ParseEnv(CanonicalText(raw).value)
  {
    hide CanonicalText, DerivedUpdates, REMOVED_KEYS, ToMap, StripLines, Kept, LastOf, Assigned, KeepsOut, Ending,
         ParseEnv, Complete;
    RemovedIsElsewhere(raw, key);
    WrittenElsewhere(raw, key);
    NoneAssigns(StripLines(Kept(raw), 2, 1), REMOVED_KEYS, key);
    NamesKey(Ending(Kept(raw)), REMOVED_KEYS);
  }

  lemma RemovedComesBack(raw: JsString) returns (key: JsString)
    requires DerivedUpdates(raw).Some? && !StaysRemoved(raw)
    ensures key in REMOVED_KEYS && key in ParseEnv(CanonicalText(raw).value)
  {
    hide CanonicalText, DerivedUpdates, REMOVED_KEYS, ToMap, StripLines, Kept, LastOf, Assigned, KeepsOut, Ending,
         ParseEnv, Complete;
    var lines := StripLines(Kept(raw), 2, 1);
    if line :| line in lines && !KeepsOut(line, REMOVED_KEYS) {
      NamesKey(line, REMOVED_KEYS);
      key :| key in REMOVED_KEYS && Assigned(line, key).Some?;
      SomeAssigns(lines, line, key);
    } else {
      NamesKey(Ending(Kept(raw)), REMOVED_KEYS);
      key :| key in REMOVED_KEYS && Assigned(Ending(Kept(raw)), key).Some?;
    }
    RemovedIsElsewhere(raw, key);
    WrittenElsewhere(raw, key);
  }
}
