/** When the launcher's own settings survive an import in replace mode, on the lines of the imported text. */
module EnvImportLines {
  import opened JsStrings
  import opened TextLines
  import opened Dotenv
  import opened DotenvProofs
  import opened DotenvValues
  import opened DotenvEditing
  import opened EnvTopology
  import opened EnvLines
  import opened EnvStrays
  import opened EnvWritten
  import opened EnvImport
  import opened EnvImportProofs

  /** The lines of the imported text without those of the launcher's own settings. */
  function OpenLines(request: Import): (r: seq<JsString>)
    ensures r != []
  {
    KeptOf(request.raw, HIDDEN_KEYS + {HIGHEST_VERSION_USED})
  }

  lemma OpenSplit(live: JsString, request: Import)
    ensures Split(ImportStart(live, request, true)) == StripLines(CollapseLines(OpenLines(request), 0), 1, 0)
  {
    hide Split, StripLines, CollapseLines, RemoveEnvKeys, HIDDEN_KEYS, HIGHEST_VERSION_USED, KeptOf;
    StartIs(live, request);
    RemoveSplit(request.raw, HIDDEN_KEYS + {HIGHEST_VERSION_USED});
  }

  /** How often the last line is split again: once less when nothing is put back behind it. */
  ghost function LastCount(live: JsString, request: Import): nat {
    if AssignsAll(ImportStart(live, request, true), request.protectedEntries) then 3 else 4
  }

  /** The forms of the lines when the settings are put back, and when the file is read. */
  function EarlyLines(request: Import): (r: seq<JsString>)
    ensures |r| == |OpenLines(request)|
  {
    StripLines(OpenLines(request), 1, 0)
  }

  ghost function LateLines(live: JsString, request: Import): (r: seq<JsString>)
    ensures |r| == |OpenLines(request)|
  {
    StripLines(OpenLines(request), 5, LastCount(live, request))
  }

  // ------------------------------------------------------------ edits of another key

  lemma EditedOpen(lines: seq<JsString>, updates: Entries, n: nat, m: nat, key: JsString)
    requires lines != [] && DistinctKeys(updates) && IdentifierKeys(ToMap(updates)) && key !in ToMap(updates)
    ensures LastOf(StripLines(EditedLines(lines, updates), n, m), key)
         == LastOf(StripLines(lines, n, if Appended(updates, SeenKeys(lines, ToMap(updates))) == [] then m else n), key)
  {
    hide *;
    var u := ToMap(updates);
    var append := Appended(updates, SeenKeys(lines, u));
    LastOfUpdated(lines, u, n, n, key);
    LastOfUpdated(lines, u, n, m, key);
    if append == [] {
      EditedWithoutNew(lines, updates);
    } else {
      var gap := EditedWithNew(lines, updates);
      EntriesElsewhere(updates, key);
      StripLinesConcat(UpdateLines(lines, u), gap + append, n, m);
      LastOfConcat(StripLines(UpdateLines(lines, u), n, n), StripLines(gap + append, n, m), key);
      NewLinesStripped(updates, SeenKeys(lines, u), gap, n, m, key);
      OrLaws(LastOf(StripLines(UpdateLines(lines, u), n, n), key), None, None);
    }
  }

  // ------------------------------------------------------------ edits of the key itself

  lemma UpdatedHere(line: JsString, updates: Env, n: nat, key: JsString)
    requires key in updates && !HasSeparator(updates[key])
    ensures Assigned(StripN(UpdateLine(line, updates), n), key)
         == if Assigned(line, key).Some? then Some(updates[key]) else Assigned(StripN(line, n), key)
  {
    hide ParseAssignmentLine, StripN, TrimEnd, UnquoteEnvValue, Assign, HasSeparator, SerializeValue, KeptComment, WellFormed;
    if Updates(line, updates) {
      var a := ParseAssignmentLine(line).value;
      UpdatedLine(line, updates);
      TrimmedStays(UpdateLine(line, updates), n);
      if a.key == key {
        ParseAssignmentSound(line);
        AssignParses(a, updates[key]);
      } else {
        OtherKey(line, n, key);
      }
    } else {
      NotUpdated(line, updates);
    }
  }

  lemma SurfacingCons(line: JsString, lines: seq<JsString>, form: JsString, forms: seq<JsString>, key: JsString)
    requires |lines| == |forms|
    ensures Surfacing([line] + lines, [form] + forms, key)
         == if LastOf(forms, key).Some? then Surfacing(lines, forms, key)
            else if Assigned(line, key).None? then Assigned(form, key) else None
  {
    hide Assigned, LastOf;
    assert ([line] + lines)[1..] == lines && ([form] + forms)[1..] == forms;
  }

  lemma LastOfCons(line: JsString, lines: seq<JsString>, key: JsString)
    ensures LastOf([line] + lines, key) == Or(Assigned(line, key), LastOf(lines, key))
  {
    hide Assigned;
    assert ([line] + lines)[1..] == lines;
  }

  lemma StripCons(line: JsString, rest: seq<JsString>, n: nat, m: nat)
    ensures StripLines([line] + rest, n, m) == [StripN(line, if rest == [] then m else n)] + StripLines(rest, n, m)
  {
    hide StripN;
    assert ([line] + rest)[1..] == rest;
  }

  lemma NothingSurfaces(key: JsString)
    ensures Surfacing([], [], key) == None && LastOf([], key) == None
  {}

  lemma UpdateCons(line: JsString, rest: seq<JsString>, updates: Env)
    ensures UpdateLines([line] + rest, updates) == [UpdateLine(line, updates)] + UpdateLines(rest, updates)
    ensures UpdateLines([], updates) == []
  {
    hide UpdateLine;
    assert ([line] + rest)[1..] == rest;
  }

  lemma NoLinesStripped(n: nat, m: nat)
    ensures StripLines([], n, m) == []
  {}

  /** Rewritten lines say the new value, and a later one that comes to light overrides it. */
  lemma {:induction false} LastOfReplaced(lines: seq<JsString>, updates: Env, n: nat, m: nat, key: JsString)
    requires key in updates && !HasSeparator(updates[key])
    ensures LastOf(StripLines(UpdateLines(lines, updates), n, m), key)
         == Or(if LastOf(lines, key).Some? then Some(updates[key]) else None,
               Surfacing(lines, StripLines(lines, n, m), key))
    decreases |lines|
  {
    hide LastOf, Surfacing, StripLines, UpdateLines, Assigned, StripN, HasSeparator, UpdateLine;
    if lines == [] {
      NothingSurfaces(key);
      NoLinesStripped(n, m);
      UpdateCons([], [], updates);
    } else {
      var line, rest := lines[0], lines[1..];
      assert lines == [line] + rest;
      var count := if rest == [] then m else n;
      LastOfReplaced(rest, updates, n, m, key);
      StrippedValue(rest, n, m, key);
      UpdatedHere(line, updates, count, key);
      UpdateCons(line, rest, updates);
      StripCons(line, rest, n, m);
      StripCons(UpdateLine(line, updates), UpdateLines(rest, updates), n, m);
      LastOfCons(StripN(UpdateLine(line, updates), count), StripLines(UpdateLines(rest, updates), n, m), key);
      LastOfCons(line, rest, key);
      SurfacingCons(line, rest, StripN(line, count), StripLines(rest, n, m), key);
    }
  }

  lemma AppendedHere(entries: Entries, seen: set<JsString>, key: JsString)
    requires DistinctKeys(entries) && IdentifierKeys(ToMap(entries)) && key != PROTO
    requires key in ToMap(entries) && !HasSeparator(ToMap(entries)[key]) && key !in seen
    ensures LastOf(Appended(entries, seen), key) == Some(ToMap(entries)[key])
  {
    hide Appended, ParseLines, ToMap, IsIdentifier, LastOf, HasSeparator;
    EntriesAreIdentifiers(entries);
    AppendedParse(map[], entries, seen);
    ParseAt(map[], Appended(entries, seen), key);
  }

  lemma AppendedStripped(entries: Entries, seen: set<JsString>, gap: seq<JsString>, n: nat, m: nat, key: JsString)
    requires forall i :: 0 <= i < |entries| ==> IsIdentifier(entries[i].0)
    requires gap == [] || gap == [[]]
    ensures LastOf(StripLines(gap + Appended(entries, seen), n, m), key) == LastOf(Appended(entries, seen), key)
  {
    hide *;
    var append := Appended(entries, seen);
    GapAssignsNothing(gap, append, key);
    AppendedHidesNothing(entries, seen, key);
    EmptyHidesNothing(key);
    NoneHidesConcat(gap, append, key);
    CleanLinesStripped(gap + append, n, m, key);
  }

  lemma SeenUnlessAppended(updates: Entries, seen: set<JsString>, key: JsString)
    requires DistinctKeys(updates) && key in ToMap(updates) && Appended(updates, seen) == []
    ensures key in seen
  {
    hide Appended, ToMap;
    NothingAppended(updates, seen);
    EntriesOfMap(updates);
  }

  /** An edit of the key: its new value, unless its line was there and a later one comes to light. */
  lemma EditedHere(lines: seq<JsString>, updates: Entries, n: nat, m: nat, key: JsString)
    requires lines != [] && DistinctKeys(updates) && IdentifierKeys(ToMap(updates)) && key != PROTO
    requires key in ToMap(updates) && !HasSeparator(ToMap(updates)[key])
    ensures var last := if Appended(updates, SeenKeys(lines, ToMap(updates))) == [] then m else n;
            LastOf(StripLines(EditedLines(lines, updates), n, m), key)
            == Or(Some(ToMap(updates)[key]),
                  if LastOf(lines, key).Some? then Surfacing(lines, StripLines(lines, n, last), key) else None)
  {
    hide *;
    var u := ToMap(updates);
    var seen := SeenKeys(lines, u);
    var append := Appended(updates, seen);
    SeenIsAssigned(lines, u, key);
    if append == [] {
      SeenUnlessAppended(updates, seen, key);
      EditedWithoutNew(lines, updates);
      LastOfReplaced(lines, u, n, m, key);
    } else {
      var gap := EditedWithNew(lines, updates);
      StripLinesConcat(UpdateLines(lines, u), gap + append, n, m);
      LastOfConcat(StripLines(UpdateLines(lines, u), n, n), StripLines(gap + append, n, m), key);
      EntriesAreIdentifiers(updates);
      AppendedStripped(updates, seen, gap, n, m, key);
      LastOfReplaced(lines, u, n, n, key);
      if key in seen {
        LastOfAppended(updates, seen, key);
        OrLaws(LastOf(StripLines(UpdateLines(lines, u), n, n), key), None, None);
      } else {
        AppendedHere(updates, seen, key);
        OrSome(LastOf(StripLines(UpdateLines(lines, u), n, n), key), u[key]);
        OrLaws(Some(u[key]), None, None);
      }
    }
  }

  lemma OrSome(first: Option<JsString>, value: JsString)
    ensures Or(first, Some(value)) == Some(value)
  {}

  // ------------------------------------------------------------ collapsed lines

  lemma EmptyForm(n: nat, m: nat, rest: seq<JsString>)
    ensures StripLines([[]] + rest, n, m) == [[]] + StripLines(rest, n, m)
  {
    hide StripN, StripLines;
    StripCons([], rest, n, m);
    EmptyStays(n, []);
    EmptyStays(m, []);
  }

  lemma {:induction false} SurfacingNone(lines: seq<JsString>, forms: seq<JsString>, key: JsString)
    requires |lines| == |forms| && LastOf(forms, key).None?
    ensures Surfacing(lines, forms, key) == None
    decreases |lines|
  {
    hide Assigned;
    if lines != [] {
      SurfacingNone(lines[1..], forms[1..], key);
    }
  }

  lemma SurfacingBlank(lines: seq<JsString>, forms: seq<JsString>, key: JsString)
    requires |lines| == |forms|
    ensures Surfacing([[]] + lines, [[]] + forms, key) == Surfacing(lines, forms, key)
  {
    hide Surfacing, LastOf, Assigned;
    SurfacingCons([], lines, [], forms, key);
    EmptyStays(0, key);
    if LastOf(forms, key).None? {
      SurfacingNone(lines, forms, key);
    }
  }

  /** Two counts of stripping, for all lines but the last and for the last. */
  datatype Counts = Counts(early: nat, earlyLast: nat, late: nat, lateLast: nat)

  function SurfacingOf(lines: seq<JsString>, c: Counts, key: JsString): Option<JsString> {
    Surfacing(StripLines(lines, c.early, c.earlyLast), StripLines(lines, c.late, c.lateLast), key)
  }

  lemma SurfacingOfCons(line: JsString, rest: seq<JsString>, c: Counts, key: JsString)
    requires rest != []
    ensures SurfacingOf([line] + rest, c, key)
         == if LastOf(StripLines(rest, c.late, c.lateLast), key).Some? then SurfacingOf(rest, c, key)
            else if Assigned(StripN(line, c.early), key).None? then Assigned(StripN(line, c.late), key) else None
    ensures line == [] ==> SurfacingOf([line] + rest, c, key) == SurfacingOf(rest, c, key)
  {
    hide Surfacing, LastOf, Assigned, StripN, StripLines;
    var early, late := StripLines(rest, c.early, c.earlyLast), StripLines(rest, c.late, c.lateLast);
    StripCons(line, rest, c.early, c.earlyLast);
    StripCons(line, rest, c.late, c.lateLast);
    SurfacingCons(StripN(line, c.early), early, StripN(line, c.late), late, key);
    if line == [] {
      EmptyForm(c.early, c.earlyLast, rest);
      EmptyForm(c.late, c.lateLast, rest);
      SurfacingBlank(early, late, key);
    }
  }

  lemma {:induction false} SurfacingCollapsed(lines: seq<JsString>, run: nat, c: Counts, key: JsString)
    ensures SurfacingOf(CollapseLines(lines, run), c, key) == SurfacingOf(lines, c, key)
    decreases |lines|
  {
    hide SurfacingOf, LastOf, Assigned, StripN, StripLines, CollapseLines;
    if |lines| <= 1 {
      FewLines(lines, run);
    } else {
      var line, rest := lines[0], lines[1..];
      assert lines == [line] + rest;
      CollapseCons(line, rest, run);
      SurfacingOfCons(line, rest, c, key);
      if line != [] {
        SurfacingCollapsed(rest, 1, c, key);
        LastOfCollapsed(rest, 1, c.late, c.lateLast, key);
        SurfacingOfCons(line, CollapseLines(rest, 1), c, key);
      } else if run >= 2 {
        SurfacingCollapsed(rest, run, c, key);
      } else {
        SurfacingCollapsed(rest, run + 1, c, key);
        SurfacingOfCons([], CollapseLines(rest, run + 1), c, key);
      }
    }
  }

  // ------------------------------------------------------------ the values

  lemma RestrictedAway(env: Env, keys: set<JsString>, key: JsString)
    requires key !in env
    ensures key !in Restrict(env, keys)
  {}

  lemma {:induction false} NoLineAssigns(lines: seq<JsString>, key: JsString)
    ensures LastOf(lines, key) == None <==> forall line :: line in lines ==> Assigned(line, key) == None
    decreases |lines|
  {
    hide Assigned;
    if lines != [] {
      NoLineAssigns(lines[1..], key);
      assert lines[0] in lines;
    }
  }

  lemma ProtectedShape(live: JsString, request: Import)
    requires WellFormedImport(live, request)
    ensures var edits := ImportEdits(request, true);
            && edits == request.protectedEntries && DistinctKeys(edits) && IdentifierKeys(ToMap(edits))
            && ToMap(edits) == Restrict(ParseEnv(live), HIDDEN_KEYS) && PROTO !in ToMap(edits)
  {
    hide ToMap, ParseLines, HIDDEN_KEYS, IdentifierKeys, DistinctKeys, Split;
    EditsShape(live, request, true);
    NeverProto(map[], Split(live));
  }

  lemma LastCountIs(live: JsString, request: Import)
    requires WellFormedImport(live, request)
    ensures var edits := ImportEdits(request, true);
            var start := Split(ImportStart(live, request, true));
            LastCount(live, request) == if Appended(edits, SeenKeys(start, ToMap(edits))) == [] then 3 else 4
  {
    hide ToMap, ParseEnv, HIDDEN_KEYS, IdentifierKeys, DistinctKeys, Split, Appended, SeenKeys, ImportStart, AssignsAll,
         WellFormedImport, Restrict;
    ProtectedShape(live, request);
    AppendsUnlessAssigned(ImportStart(live, request, true), ImportEdits(request, true));
  }

  /** For a setting that the live file lacks, the imported text alone decides. */
  lemma AbsentValue(live: JsString, request: Import, key: JsString)
    requires WellFormedImport(live, request) && key !in ParseEnv(live)
    ensures LastOf(StripLines(ImportedLines(live, request, true), 4, 3), key) == LastOf(LateLines(live, request), key)
  {
    hide *;
    var open, last := OpenLines(request), LastCount(live, request);
    var collapsed := CollapseLines(open, 0);
    ProtectedShape(live, request);
    RestrictedAway(ParseEnv(live), HIDDEN_KEYS, key);
    AskedIs(live, request, true);
    OpenSplit(live, request);
    LastCountIs(live, request);
    FormsAre(live, request);
    EditedOpen(Split(ImportStart(live, request, true)), ImportEdits(request, true), 4, 3, key);
    StripLinesTwice(collapsed, 1, 0, 4, last);
    LastOfCollapsed(open, 0, 5, last, key);
  }

  lemma FormsAre(live: JsString, request: Import)
    ensures EarlyLines(request) == StripLines(OpenLines(request), 1, 0)
    ensures LateLines(live, request) == StripLines(OpenLines(request), 5, LastCount(live, request))
    ensures LastCount(live, request) in {3, 4}
  {
    hide StripLines, OpenLines, AssignsAll;
  }

  lemma RestrictedHere(live: JsString, key: JsString)
    requires key in KEPT_KEYS && key in ParseEnv(live)
    ensures var kept := Restrict(ParseEnv(live), HIDDEN_KEYS); key in kept && kept[key] == ParseEnv(live)[key]
  {
    hide KEPT_KEYS, EXCEPTED_KEYS, ParseEnv;
  }

  /** A setting of the live file has its old value, unless a line comes to light behind one that was rewritten. */
  lemma PresentValue(live: JsString, request: Import, key: JsString)
    requires WellFormedImport(live, request) && key in KEPT_KEYS && key in ParseEnv(live)
    requires !HasSeparator(ParseEnv(live)[key])
    ensures LastOf(StripLines(ImportedLines(live, request, true), 4, 3), key)
         == Or(Some(ParseEnv(live)[key]),
               if LastOf(EarlyLines(request), key).Some?
               then Surfacing(EarlyLines(request), LateLines(live, request), key) else None)
  {
    hide *;
    var open, last := OpenLines(request), LastCount(live, request);
    var collapsed := CollapseLines(open, 0);
    var c := Counts(1, 0, 5, last);
    KeptIsUntouched(key);
    ProtectedShape(live, request);
    RestrictedHere(live, key);
    AskedIs(live, request, true);
    OpenSplit(live, request);
    LastCountIs(live, request);
    FormsAre(live, request);
    EditedHere(Split(ImportStart(live, request, true)), ImportEdits(request, true), 4, 3, key);
    StripLinesTwice(collapsed, 1, 0, 4, last);
    LastOfCollapsed(open, 0, 1, 0, key);
    SurfacingCollapsed(open, 0, c, key);
    SurfacingOfIs(collapsed, c, key);
    SurfacingOfIs(open, c, key);
  }

  lemma SurfacingOfIs(lines: seq<JsString>, c: Counts, key: JsString)
    ensures SurfacingOf(lines, c, key)
         == Surfacing(StripLines(lines, c.early, c.earlyLast), StripLines(lines, c.late, c.lateLast), key)
  {
    hide Surfacing, StripLines;
  }

  /** The value that the last line left shows once it is trimmed, if none is added behind it. */
  ghost function LastShown(live: JsString, request: Import, key: JsString): Option<JsString> {
    if NothingAdded(live, request, true) then Assigned(EndKept(ImportedLines(live, request, true), 2, 1), key) else None
  }

  lemma FileValue(live: JsString, request: Import, key: JsString)
    requires WellFormedImport(live, request) && key in KEPT_KEYS
    requires CanonicalText(NextRaw(live, request, true)).Some?
    ensures At(ParseEnv(CanonicalText(NextRaw(live, request, true)).value), key)
         == Or(LastOf(StripLines(ImportedLines(live, request, true), 4, 3), key), LastShown(live, request, key))
  {
    hide *;
    var lines := ImportedLines(live, request, true);
    KeptIsUntouched(key);
    ImportedValue(live, request, true, key);
    UncoveredIs(live, request, true, key);
    AskedAt(live, request, true, key);
    StrippedValue(lines, 4, 3, key);
    LastShownIs(live, request, key);
    OrLaws(At(Asked(live, request, true), key), Surfacing(lines, StripLines(lines, 4, 3), key), LastShown(live, request, key));
  }

  lemma LastShownIs(live: JsString, request: Import, key: JsString)
    ensures LastShown(live, request, key)
         == if NothingAdded(live, request, true) then Assigned(EndKept(ImportedLines(live, request, true), 2, 1), key)
            else None
  {
    hide NothingAdded, Assigned, EndKept, ImportedLines;
  }

  // ------------------------------------------------------------ main results

  /**
   Replacing the file keeps a launcher setting absent if and only if no line of
   the imported text, other than those that are removed, assigns it once five
   carriage returns are stripped from it (three or four from the last one), nor
   does the last line that is left once it is trimmed.
   */
  lemma AbsentStaysAbsent(live: JsString, request: Import, key: JsString)
    requires WellFormedImport(live, request) && key in KEPT_KEYS && key !in ParseEnv(live)
    requires CanonicalText(NextRaw(live, request, true)).Some?
    ensures key !in ParseEnv(CanonicalText(NextRaw(live, request, true)).value)
       <==> (&& (forall line :: line in LateLines(live, request) ==> Assigned(line, key) == None)
             && LastShown(live, request, key) == None)
  {
    hide ParseEnv, CanonicalText, NextRaw, KEPT_KEYS, WellFormedImport, Assigned, LateLines, LastShown, StripLines, LastOf,
         ImportedLines;
    FileValue(live, request, key);
    AbsentValue(live, request, key);
    NoLineAssigns(LateLines(live, request), key);
  }

  /** The value that overrides the one that is put back. */
  ghost function Override(live: JsString, request: Import, key: JsString): Option<JsString> {
    Or(if LastOf(EarlyLines(request), key).Some?
       then Surfacing(EarlyLines(request), LateLines(live, request), key) else None,
       LastShown(live, request, key))
  }

  /**
   Replacing the file keeps the value of a launcher setting that a line can
   carry, if and only if nothing overrides it or what does is the same value.
   It is overridden when a line of the imported text assigns it after one split
   (and is rewritten), and the last line to assign it when the file is read is
   one that did not.
   */
  lemma PresentStaysPresent(live: JsString, request: Import, key: JsString)
    requires WellFormedImport(live, request) && key in KEPT_KEYS && key in ParseEnv(live)
    requires !HasSeparator(ParseEnv(live)[key]) && CanonicalText(NextRaw(live, request, true)).Some?
    ensures var after := ParseEnv(CanonicalText(NextRaw(live, request, true)).value);
            At(after, key) == At(ParseEnv(live), key)
            <==> Override(live, request, key) in {None, At(ParseEnv(live), key)}
  {
    hide ParseEnv, CanonicalText, NextRaw, KEPT_KEYS, WellFormedImport, Assigned, EarlyLines, LateLines, LastShown,
         StripLines, LastOf, ImportedLines, HasSeparator, Surfacing;
    FileValue(live, request, key);
    PresentValue(live, request, key);
  }
}
