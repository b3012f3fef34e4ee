/** What an import changes, and when the launcher's own settings survive it. */
module EnvImportProofs {
  import opened JsStrings
  import opened TextLines
  import opened Dotenv
  import opened DotenvProofs
  import opened DotenvValues
  import opened DotenvEditing
  import opened EnvTopology
  import opened EnvKeys
  import opened EnvLines
  import opened EnvStrays
  import opened EnvWritten
  import opened EnvImport

  // ------------------------------------------------------------ the edits of an import

  lemma WithoutKeys(k: JsString, v: JsString, rest: Env, keys: set<JsString>)
    ensures (map[k := v] + rest) - keys == if k in keys then rest - keys else map[k := v] + (rest - keys)
  {}

  lemma ConsMap(entry: (JsString, JsString), entries: Entries)
    ensures ToMap([entry] + entries) == map[entry.0 := entry.1] + ToMap(entries)
  {
    var all := [entry] + entries;
    assert all[1..] == entries && all[0] == entry;
  }

  lemma ConsDistinct(entry: (JsString, JsString), entries: Entries)
    requires DistinctKeys(entries) && entry.0 !in ToMap(entries)
    ensures DistinctKeys([entry] + entries) && ToMap([entry] + entries) == map[entry.0 := entry.1] + ToMap(entries)
  {
    hide ToMap;
    ConsMap(entry, entries);
    EntriesOfMap(entries);
    var all := [entry] + entries;
    forall i, j | 0 <= i < j < |all|
      ensures all[i].0 != all[j].0
    {
      assert all[j] == entries[j - 1];
      if i > 0 {
        assert all[i] == entries[i - 1];
      }
    }
  }

  lemma HeadIsNew(entries: Entries)
    requires entries != [] && DistinctKeys(entries)
    ensures DistinctKeys(entries[1..]) && entries[0].0 !in ToMap(entries[1..])
    ensures ToMap(entries) == map[entries[0].0 := entries[0].1] + ToMap(entries[1..])
  {
    EntriesOfMap(entries[1..]);
    hide ToMap;
    assert forall i :: 1 <= i < |entries| ==> entries[i] == entries[1..][i - 1];
  }

  lemma {:induction false} VisibleKeys(entries: Entries)
    requires DistinctKeys(entries)
    ensures DistinctKeys(Visible(entries))
    ensures ToMap(Visible(entries)) == ToMap(entries) - HIDDEN_KEYS
    decreases |entries|
  {
    if entries == [] {
      assert ToMap(entries) - HIDDEN_KEYS == map[];
    } else {
      hide HIDDEN_KEYS, ToMap, DistinctKeys;
      var entry, rest := entries[0], entries[1..];
      HeadIsNew(entries);
      VisibleKeys(rest);
      WithoutKeys(entry.0, entry.1, ToMap(rest), HIDDEN_KEYS);
      if entry.0 in HIDDEN_KEYS {
        assert [] + Visible(rest) == Visible(rest);
      } else {
        ConsDistinct(entry, Visible(rest));
      }
    }
  }

  lemma {:induction false} ParsedKeysAreIdentifiers(values: Env, lines: seq<JsString>)
    requires IdentifierKeys(values)
    ensures IdentifierKeys(ParseLines(values, lines))
    decreases |lines|
  {
    hide ParseAssignmentLine, UnquoteEnvValue, IsIdentifier, WellFormed;
    if lines != [] {
      if ParseAssignmentLine(lines[0]).Some? {
        ParseAssignmentSound(lines[0]);
        WellFormedParts(ParseAssignmentLine(lines[0]).value);
      }
      ParsedKeysAreIdentifiers(Put(values, lines[0]), lines[1..]);
    }
  }

  lemma LiveKeysAreIdentifiers(text: JsString)
    ensures IdentifierKeys(ParseEnv(text))
  {
    hide ParseLines, IsIdentifier;
    var none: Env := map[];
    ParsedKeysAreIdentifiers(none, Split(text));
  }

  lemma RestrictedKeys(env: Env, keys: set<JsString>)
    ensures Restrict(env, keys).Keys <= keys
    ensures IdentifierKeys(env) ==> IdentifierKeys(Restrict(env, keys))
  {
    hide IsIdentifier;
  }

  lemma OneEntry(k: JsString, v: JsString)
    requires IsIdentifier(k) && k != PROTO && !HasSeparator(v)
    ensures var u := [(k, v)];
            DistinctKeys(u) && ToMap(u) == map[k := v] && Carried(ToMap(u)) == ToMap(u)
  {
    assert [(k, v)][1..] == [];
  }

  lemma TwoEntries(k: JsString, v: JsString, l: JsString, w: JsString)
    requires IsIdentifier(k) && k != PROTO && !HasSeparator(v)
    requires IsIdentifier(l) && l != PROTO && !HasSeparator(w) && k != l
    ensures var u := [(k, v)] + [(l, w)];
            DistinctKeys(u) && ToMap(u) == map[k := v, l := w] && Carried(ToMap(u)) == ToMap(u)
  {
    hide HasSeparator, IsIdentifier, PROTO, Carried;
    var u := [(k, v)] + [(l, w)];
    assert u[1..] == [(l, w)];
    OneEntry(l, w);
    CarriedCons(k, v, map[l := w]);
    assert map[k := v] + map[l := w] == map[k := v, l := w];
  }

  lemma OwnedEntries(live: Env, proxyEnabled: bool)
    ensures var u := LauncherOwned(live, proxyEnabled);
            && DistinctKeys(u) && IdentifierKeys(ToMap(u)) && Carried(ToMap(u)) == ToMap(u)
            && ToMap(u).Keys <= {TRUST_PROXY_HEADERS, HTTP_HOST_BIND}
  {
    hide HasSeparator, IsIdentifier, Trim, TRUST_PROXY_HEADERS, HTTP_HOST_BIND, TRUE, FALSE, LOOPBACK, PROTO, ToMap,
         Carried, DistinctKeys;
    LauncherKeysAreIdentifiers();
    LauncherKeysDiffer();
    var first := LauncherOwned(live, proxyEnabled)[0];
    if proxyEnabled {
      TwoEntries(first.0, first.1, HTTP_HOST_BIND, LOOPBACK);
    } else {
      OneEntry(first.0, first.1);
      assert [first] + [] == [first];
    }
  }

  lemma LauncherKeysDiffer()
    ensures TRUST_PROXY_HEADERS != HTTP_HOST_BIND && TRUST_PROXY_HEADERS != PROTO && HTTP_HOST_BIND != PROTO
    ensures !HasSeparator(TRUE) && !HasSeparator(FALSE) && !HasSeparator(LOOPBACK)
  {
    assert |TRUST_PROXY_HEADERS| == 28 && |HTTP_HOST_BIND| == 23 && |PROTO| == 9;
  }

  /** The edits of an import: distinct identifiers, all hidden or all visible. */
  lemma EditsShape(live: JsString, request: Import, replaceMissing: bool)
    requires WellFormedImport(live, request)
    ensures var edits := ImportEdits(request, replaceMissing);
            && DistinctKeys(edits) && IdentifierKeys(ToMap(edits))
            && ToMap(edits)
               == if replaceMissing then Restrict(ParseEnv(live), HIDDEN_KEYS) else ToMap(request.values) - HIDDEN_KEYS
  {
    hide ToMap, ParseEnv, HIDDEN_KEYS, Visible, IsIdentifier, Restrict, DistinctKeys;
    if replaceMissing {
      LiveKeysAreIdentifiers(live);
      RestrictedKeys(ParseEnv(live), HIDDEN_KEYS);
    } else {
      VisibleKeys(request.values);
    }
  }

  lemma OwnedShape(live: JsString, request: Import)
    ensures var owned := LauncherOwned(ParseEnv(live), request.proxyEnabled);
            && DistinctKeys(owned) && IdentifierKeys(ToMap(owned)) && PROTO !in ToMap(owned)
  {
    hide ToMap, ParseEnv, LauncherOwned, IsIdentifier, DistinctKeys, TRUST_PROXY_HEADERS, HTTP_HOST_BIND, PROTO, Carried;
    OwnedEntries(ParseEnv(live), request.proxyEnabled);
    LauncherKeysDiffer();
  }

  // ------------------------------------------------------------ the text that is written

  /** The imported lines, with the launcher's values put back or the imported values put in. */
  function ImportedLines(live: JsString, request: Import, replaceMissing: bool): (r: seq<JsString>)
    ensures r != []
  {
    EditedLines(Split(ImportStart(live, request, replaceMissing)), ImportEdits(request, replaceMissing))
  }

  lemma ImportedSplit(live: JsString, request: Import, replaceMissing: bool)
    requires WellFormedImport(live, request)
    ensures Split(ImportedRaw(live, request, replaceMissing))
         == StripLines(CollapseLines(ImportedLines(live, request, replaceMissing), 0), 1, 0)
  {
    hide Split, StripLines, CollapseLines, EditedLines, UpdateEnv, ImportStart, ImportEdits, ToMap, Restrict, ParseEnv,
         HIDDEN_KEYS, IdentifierKeys, DistinctKeys, WellFormedImport;
    EditsShape(live, request, replaceMissing);
    UpdateEnvSplit(ImportStart(live, request, replaceMissing), ImportEdits(request, replaceMissing));
  }

  /** The lines of the next text, with the launcher's decisions. */
  function NextLines(live: JsString, request: Import, replaceMissing: bool): (r: seq<JsString>)
    ensures r != []
  {
    EditedLines(Split(ImportedRaw(live, request, replaceMissing)), LauncherOwned(ParseEnv(live), request.proxyEnabled))
  }

  lemma NextSplit(live: JsString, request: Import, replaceMissing: bool)
    ensures Split(NextRaw(live, request, replaceMissing))
         == StripLines(CollapseLines(NextLines(live, request, replaceMissing), 0), 1, 1) + [[]]
  {
    hide Split, StripLines, CollapseLines, EditedLines, UpdateEnv, ImportedRaw, LauncherOwned, ToMap, ParseEnv,
         IdentifierKeys, DistinctKeys, Join, SingleLines;
    var imported := ImportedRaw(live, request, replaceMissing);
    var owned := LauncherOwned(ParseEnv(live), request.proxyEnabled);
    OwnedShape(live, request);
    UpdateEnvSplit(imported, owned);
    SplitJoinedFeed(CollapseLines(EditedLines(Split(imported), owned), 0));
  }

  /** The environment an import asks for, before the launcher's own decisions. */
  ghost function Asked(live: JsString, request: Import, replaceMissing: bool): Env {
    EditedEnv(ParseEnv(ImportStart(live, request, replaceMissing)), ToMap(ImportEdits(request, replaceMissing)))
  }

  lemma AskedAt(live: JsString, request: Import, replaceMissing: bool, key: JsString)
    requires WellFormedImport(live, request) && key != PROTO
    ensures LastOf(ImportedLines(live, request, replaceMissing), key) == At(Asked(live, request, replaceMissing), key)
  {
    hide *;
    EditsShape(live, request, replaceMissing);
    EditedLinesAt(Split(ImportStart(live, request, replaceMissing)), ImportEdits(request, replaceMissing), key);
    ParseEnvIs(ImportStart(live, request, replaceMissing));
    AskedIs(live, request, replaceMissing);
  }

  lemma AskedIs(live: JsString, request: Import, replaceMissing: bool)
    ensures Asked(live, request, replaceMissing)
         == EditedEnv(ParseEnv(ImportStart(live, request, replaceMissing)), ToMap(ImportEdits(request, replaceMissing)))
    ensures ImportedLines(live, request, replaceMissing)
         == EditedLines(Split(ImportStart(live, request, replaceMissing)), ImportEdits(request, replaceMissing))
    ensures NextLines(live, request, replaceMissing)
         == EditedLines(Split(ImportedRaw(live, request, replaceMissing)), LauncherOwned(ParseEnv(live), request.proxyEnabled))
  {}

  /** The exact values of the next text: what it asks for, unless a stripped line says otherwise. */
  lemma NextRawParses(live: JsString, request: Import, replaceMissing: bool, key: JsString)
    requires WellFormedImport(live, request) && key != PROTO
    ensures var lines := NextLines(live, request, replaceMissing);
            var imported := ParseEnv(ImportedRaw(live, request, replaceMissing));
            At(ParseEnv(NextRaw(live, request, replaceMissing)), key)
            == Or(At(EditedEnv(imported, ToMap(LauncherOwned(ParseEnv(live), request.proxyEnabled))), key),
                  Surfacing(lines, StripLines(lines, 1, 1), key))
    ensures var lines := ImportedLines(live, request, replaceMissing);
            At(ParseEnv(ImportedRaw(live, request, replaceMissing)), key)
            == Or(At(Asked(live, request, replaceMissing), key), Surfacing(lines, StripLines(lines, 1, 0), key))
  {
    hide *;
    var lines := NextLines(live, request, replaceMissing);
    var owned := LauncherOwned(ParseEnv(live), request.proxyEnabled);
    NextSplit(live, request, replaceMissing);
    OwnedShape(live, request);
    AskedIs(live, request, replaceMissing);
    ParseEnvAt(NextRaw(live, request, replaceMissing), key);
    BlankBehind(StripLines(CollapseLines(lines, 0), 1, 1), key);
    LastOfCollapsed(lines, 0, 1, 1, key);
    StrippedValue(lines, 1, 1, key);
    EditedLinesAt(Split(ImportedRaw(live, request, replaceMissing)), owned, key);
    ParseEnvIs(ImportedRaw(live, request, replaceMissing));
    ImportedParses(live, request, replaceMissing, key);
  }

  lemma BlankBehind(lines: seq<JsString>, key: JsString)
    ensures LastOf(lines + [[]], key) == LastOf(lines, key)
  {
    hide Assigned;
    LastOfConcat(lines, [[]], key);
    LastOfOne([], key);
    EmptyStays(0, key);
  }

  lemma ImportedParses(live: JsString, request: Import, replaceMissing: bool, key: JsString)
    requires WellFormedImport(live, request) && key != PROTO
    ensures var lines := ImportedLines(live, request, replaceMissing);
            At(ParseEnv(ImportedRaw(live, request, replaceMissing)), key)
            == Or(At(Asked(live, request, replaceMissing), key), Surfacing(lines, StripLines(lines, 1, 0), key))
  {
    hide *;
    var lines := ImportedLines(live, request, replaceMissing);
    ImportedSplit(live, request, replaceMissing);
    ParseEnvAt(ImportedRaw(live, request, replaceMissing), key);
    LastOfCollapsed(lines, 0, 1, 0, key);
    StrippedValue(lines, 1, 0, key);
    AskedAt(live, request, replaceMissing, key);
  }

  // ------------------------------------------------------------ a launcher setting in the written file

  lemma {:induction false} LastOfKept(lines: seq<JsString>, keys: set<JsString>, n: nat, key: JsString)
    requires key !in keys
    ensures LastOf(StripLines(KeepLines(lines, keys), n, n), key) == LastOf(StripLines(lines, n, n), key)
    decreases |lines|
  {
    hide Assigned, StripN, KeepsOut, KeepLines;
    if lines == [] {
      KeepNothing(keys);
    } else {
      var line, rest := lines[0], lines[1..];
      LastOfKept(rest, keys, n, key);
      KeepLinesCons(lines, keys);
      assert lines == [line] + rest;
      StripCons(line, rest, n, key);
      StripCons(line, KeepLines(rest, keys), n, key);
      DroppedElsewhere(line, keys, n, key);
    }
  }

  lemma StripCons(line: JsString, rest: seq<JsString>, n: nat, key: JsString)
    ensures LastOf(StripLines([line] + rest, n, n), key)
         == Or(Assigned(StripN(line, n), key), LastOf(StripLines(rest, n, n), key))
  {
    hide Assigned, StripN, LastOf;
    if rest == [] {
      assert [line] + rest == [line];
      StripLinesOne(line, n, n);
      LastOfOne(StripN(line, n), key);
      LastOfNothing(key);
    } else {
      LastOfStripCons(line, rest, n, n, key);
    }
  }

  lemma DroppedElsewhere(line: JsString, keys: set<JsString>, n: nat, key: JsString)
    requires key !in keys
    ensures !KeepsOut(line, keys) ==> Assigned(StripN(line, n), key) == None
  {
    hide ParseAssignmentLine, StripN;
    if !KeepsOut(line, keys) {
      OtherKey(line, n, key);
    }
  }

  /** The end of the lines once they have lost n carriage returns and the removed keys. */
  function EndKept(lines: seq<JsString>, n: nat, m: nat): JsString {
    Ending(KeepLines(StripLines(lines, n, m), REMOVED_KEYS))
  }

  lemma EndKeptCons(line: JsString, rest: seq<JsString>, n: nat, m: nat)
    requires rest != []
    ensures EndKept([line] + rest, n, m)
         == if EndKept(rest, n, m) != [] then EndKept(rest, n, m)
            else if KeepsOut(StripN(line, n), REMOVED_KEYS) then TrimEnd(line) else []
  {
    hide StripN, TrimEnd, KeepsOut, REMOVED_KEYS;
    var kept := KeepLines(StripLines(rest, n, m), REMOVED_KEYS);
    var stripped := StripN(line, n);
    assert ([line] + rest)[1..] == rest;
    assert StripLines([line] + rest, n, m) == [stripped] + StripLines(rest, n, m);
    assert ([stripped] + StripLines(rest, n, m))[1..] == StripLines(rest, n, m);
    KeepLinesCons([stripped] + StripLines(rest, n, m), REMOVED_KEYS);
    StripCuts(line, n);
    assert ([stripped] + kept)[1..] == kept;
  }

  lemma EndKeptOne(line: JsString, n: nat, m: nat)
    ensures EndKept([line], n, m) == if KeepsOut(StripN(line, m), REMOVED_KEYS) then TrimEnd(line) else []
  {
    hide StripN, TrimEnd, KeepsOut, REMOVED_KEYS, KeepLines;
    StripLinesOne(line, n, m);
    assert [StripN(line, m)][1..] == [];
    KeepLinesCons([StripN(line, m)], REMOVED_KEYS);
    KeepNothing(REMOVED_KEYS);
    StripCuts(line, m);
    EndingOne(StripN(line, m));
    assert [StripN(line, m)] + [] == [StripN(line, m)];
    NoLinesEnd();
  }

  lemma EmptyIsKept(n: nat)
    ensures KeepsOut(StripN([], n), REMOVED_KEYS) && TrimEnd([]) == []
  {
    hide REMOVED_KEYS;
    EmptyStays(n, []);
    assert ParseAssignmentLine([]) == None;
  }

  lemma {:induction false} EndKeptCollapsed(lines: seq<JsString>, run: nat, n: nat, m: nat)
    ensures EndKept(CollapseLines(lines, run), n, m) == EndKept(lines, n, m)
    decreases |lines|
  {
    hide EndKept, StripN, TrimEnd, KeepsOut;
    if |lines| > 1 {
      var rest := lines[1..];
      assert lines == [lines[0]] + rest;
      EndKeptCons(lines[0], rest, n, m);
      EmptyIsKept(n);
      EndKeptCollapsed(rest, 1, n, m);
      EndKeptCollapsed(rest, run, n, m);
      EndKeptCollapsed(rest, run + 1, n, m);
      EndKeptCons(lines[0], CollapseLines(rest, 1), n, m);
      EndKeptCons([], CollapseLines(rest, run + 1), n, m);
    }
  }

  /** An updated line is still kept, and shows nothing of another key. */
  lemma UpdatedIsKept(line: JsString, updates: Env, n: nat, key: JsString)
    requires updates.Keys !! REMOVED_KEYS && key !in updates
    ensures KeepsOut(StripN(UpdateLine(line, updates), n), REMOVED_KEYS) <==> KeepsOut(StripN(line, n), REMOVED_KEYS)
  {
    hide ParseAssignmentLine, StripN, REMOVED_KEYS, TrimEnd, Assign;
    if Updates(line, updates) {
      UpdatedLine(line, updates);
      TrimmedStays(UpdateLine(line, updates), n);
      SameKeyStripped(line, n);
    }
  }

  lemma SameKeyStripped(line: JsString, n: nat)
    requires ParseAssignmentLine(line).Some?
    ensures ParseAssignmentLine(StripN(line, n)).Some?
    ensures ParseAssignmentLine(StripN(line, n)).value.key == ParseAssignmentLine(line).value.key
  {
    hide ParseAssignmentLine, StripN, UnquoteEnvValue;
    StripKeeps(line, n);
    var key := ParseAssignmentLine(line).value.key;
    assert Assigned(StripN(line, n), key) == Assigned(line, key);
  }

  lemma {:induction false} EndKeptUpdated(lines: seq<JsString>, updates: Env, n: nat, m: nat, key: JsString)
    requires lines != [] && updates.Keys !! REMOVED_KEYS && key !in updates
    ensures EndKept(UpdateLines(lines, updates), n, m) == [] <==> EndKept(lines, n, m) == []
    ensures Assigned(EndKept(UpdateLines(lines, updates), n, m), key) == Assigned(EndKept(lines, n, m), key)
    decreases |lines|
  {
    hide EndKept, StripN, TrimEnd, KeepsOut, UpdateLine, Assigned, REMOVED_KEYS, Blank;
    var line, updated, count := lines[0], UpdateLine(lines[0], updates), if |lines| == 1 then m else n;
    UpdatedElsewhere(line, updates, count, key);
    UpdatedIsKept(line, updates, count, key);
    BlankEnds(line, 0, key);
    BlankEnds(updated, 0, key);
    if |lines| == 1 {
      assert lines == [line] && UpdateLines(lines, updates) == [updated];
      EndKeptOne(line, n, m);
      EndKeptOne(updated, n, m);
    } else {
      var rest := lines[1..];
      assert lines == [line] + rest;
      EndKeptUpdated(rest, updates, n, m, key);
      EndKeptCons(line, rest, n, m);
      EndKeptCons(updated, UpdateLines(rest, updates), n, m);
    }
  }

  /** Both texts behind an import assign all the keys the launcher would otherwise add. */
  ghost predicate NothingAdded(live: JsString, request: Import, replaceMissing: bool) {
    && AssignsAll(ImportedRaw(live, request, replaceMissing), LauncherOwned(ParseEnv(live), request.proxyEnabled))
    && Complete(NextRaw(live, request, replaceMissing))
  }

  /**
   The value that stray carriage returns bring to light. The lines are split
   four more times, the last one three times, and the last line that is left
   is trimmed if none is added behind it.
   */
  ghost function Uncovered(live: JsString, request: Import, replaceMissing: bool, key: JsString): Option<JsString> {
    var lines := ImportedLines(live, request, replaceMissing);
    Or(Surfacing(lines, StripLines(lines, 4, 3), key),
       if NothingAdded(live, request, replaceMissing) then Assigned(EndKept(lines, 2, 1), key) else None)
  }

  lemma KeptNext(live: JsString, request: Import, replaceMissing: bool)
    ensures var next := StripLines(CollapseLines(NextLines(live, request, replaceMissing), 0), 1, 1);
            Kept(NextRaw(live, request, replaceMissing)) == KeepLines(next, REMOVED_KEYS) + [[]]
  {
    hide StripLines, CollapseLines, NextLines, KeepLines, NextRaw, REMOVED_KEYS, Split, TrimEnd;
    var next := StripLines(CollapseLines(NextLines(live, request, replaceMissing), 0), 1, 1);
    NextSplit(live, request, replaceMissing);
    KeptIs(NextRaw(live, request, replaceMissing));
    KeepLinesConcat(next, [[]], REMOVED_KEYS);
    KeepEmpty(REMOVED_KEYS);
  }

  lemma NextValue(live: JsString, request: Import, replaceMissing: bool, key: JsString)
    requires WellFormedImport(live, request) && key !in REMOVED_KEYS
    requires key !in ToMap(LauncherOwned(ParseEnv(live), request.proxyEnabled))
    ensures LastOf(StripLines(Kept(NextRaw(live, request, replaceMissing)), 2, 1), key)
         == LastOf(StripLines(ImportedLines(live, request, replaceMissing), 4, 3), key)
  {
    hide *;
    var lines, next := ImportedLines(live, request, replaceMissing), NextLines(live, request, replaceMissing);
    var split := Split(ImportedRaw(live, request, replaceMissing));
    var written := StripLines(CollapseLines(next, 0), 1, 1);
    KeptNext(live, request, replaceMissing);
    StripLinesConcat(KeepLines(written, REMOVED_KEYS), [[]], 2, 1);
    StripLinesOne([], 2, 1);
    EmptyStays(1, key);
    BlankBehind(StripLines(KeepLines(written, REMOVED_KEYS), 2, 2), key);
    LastOfKept(written, REMOVED_KEYS, 2, key);
    StripLinesTwice(CollapseLines(next, 0), 1, 1, 2, 2);
    LastOfCollapsed(next, 0, 3, 3, key);
    AskedIs(live, request, replaceMissing);
    OwnedShape(live, request);
    EditedElsewhere(split, LauncherOwned(ParseEnv(live), request.proxyEnabled), 3, key);
    ImportedSplit(live, request, replaceMissing);
    StripLinesTwice(CollapseLines(lines, 0), 1, 0, 3, 3);
    LastOfCollapsed(lines, 0, 4, 3, key);
  }

  lemma NextEnd(live: JsString, request: Import, replaceMissing: bool)
    ensures Ending(Kept(NextRaw(live, request, replaceMissing))) == EndKept(NextLines(live, request, replaceMissing), 1, 1)
  {
    hide *;
    var next := NextLines(live, request, replaceMissing);
    var kept := KeepLines(StripLines(CollapseLines(next, 0), 1, 1), REMOVED_KEYS);
    KeptNext(live, request, replaceMissing);
    EndingConcat(kept, [[]]);
    EndingOne([]);
    EmptyIsKept(0);
    EndKeptIs(CollapseLines(next, 0), 1, 1);
    EndKeptCollapsed(next, 0, 1, 1);
  }

  lemma EndKeptIs(lines: seq<JsString>, n: nat, m: nat)
    ensures EndKept(lines, n, m) == Ending(KeepLines(StripLines(lines, n, m), REMOVED_KEYS))
  {}

  /** Without added lines the end is that of the imported lines. */
  lemma OldEnd(live: JsString, request: Import, replaceMissing: bool, key: JsString)
    requires WellFormedImport(live, request)
    requires AssignsAll(ImportedRaw(live, request, replaceMissing), LauncherOwned(ParseEnv(live), request.proxyEnabled))
    requires var owned := ToMap(LauncherOwned(ParseEnv(live), request.proxyEnabled));
             key !in owned && owned.Keys !! REMOVED_KEYS
    ensures Assigned(EndKept(NextLines(live, request, replaceMissing), 1, 1), key)
         == Assigned(EndKept(ImportedLines(live, request, replaceMissing), 2, 1), key)
  {
    hide *;
    var lines := ImportedLines(live, request, replaceMissing);
    var imported, owned := ImportedRaw(live, request, replaceMissing), LauncherOwned(ParseEnv(live), request.proxyEnabled);
    OwnedShape(live, request);
    AskedIs(live, request, replaceMissing);
    AppendsUnlessAssigned(imported, owned);
    EditedWithoutNew(Split(imported), owned);
    EndKeptUpdated(Split(imported), ToMap(owned), 1, 1, key);
    ImportedSplit(live, request, replaceMissing);
    StripLinesTwice(CollapseLines(lines, 0), 1, 0, 1, 1);
    EndKeptIs(Split(imported), 1, 1);
    EndKeptIs(CollapseLines(lines, 0), 2, 1);
    EndKeptCollapsed(lines, 0, 2, 1);
  }

  lemma {:induction false} TrimmedAreStripped(lines: seq<JsString>, n: nat)
    requires forall line :: line in lines ==> TrimEnd(line) == line
    ensures StripLines(lines, n, n) == lines
    decreases |lines|
  {
    hide StripN, TrimEnd;
    if lines != [] {
      TrimmedStays(lines[0], n);
      TrimmedAreStripped(lines[1..], n);
      assert lines == [lines[0]] + lines[1..];
    }
  }

  lemma {:induction false} AppendedAreKept(entries: Entries, seen: set<JsString>)
    requires forall i :: 0 <= i < |entries| ==> IsIdentifier(entries[i].0) && entries[i].0 !in REMOVED_KEYS
    ensures forall line :: line in Appended(entries, seen) ==> KeepsOut(line, REMOVED_KEYS) && TrimEnd(line) == line
    decreases |entries|
  {
    hide NewLine, IsIdentifier, TrimEnd, ParseAssignmentLine, REMOVED_KEYS;
    if entries != [] {
      FreshLineShape(entries[0]);
      AppendedAreKept(entries[1..], seen);
    }
  }

  lemma GapIsKept(gap: seq<JsString>, append: seq<JsString>)
    requires gap == [] || gap == [[]]
    requires forall line :: line in append ==> KeepsOut(line, REMOVED_KEYS) && TrimEnd(line) == line
    ensures forall line :: line in gap + append ==> KeepsOut(line, REMOVED_KEYS) && TrimEnd(line) == line
  {
    hide REMOVED_KEYS;
    EmptyIsBlank();
    assert ParseAssignmentLine([]) == None;
  }

  lemma EntriesAreKept(updates: Entries)
    requires DistinctKeys(updates) && IdentifierKeys(ToMap(updates)) && ToMap(updates).Keys !! REMOVED_KEYS
    ensures forall i :: 0 <= i < |updates| ==> IsIdentifier(updates[i].0) && updates[i].0 !in REMOVED_KEYS
  {
    hide IsIdentifier, ToMap, REMOVED_KEYS, DistinctKeys, IdentifierKeys;
    EntriesAreIdentifiers(updates);
    forall i | 0 <= i < |updates|
      ensures updates[i].0 !in REMOVED_KEYS
    {
      EntryIsInMap(updates, i);
    }
  }

  lemma EntryIsInMap(updates: Entries, i: nat)
    requires i < |updates| && DistinctKeys(updates)
    ensures updates[i].0 in ToMap(updates)
  {
    hide ToMap;
    EntriesOfMap(updates);
  }

  /** An added line is the last one that is left, and it is not about the key. */
  lemma NewEnd(lines: seq<JsString>, updates: Entries, key: JsString)
    requires lines != [] && DistinctKeys(updates) && IdentifierKeys(ToMap(updates))
    requires key !in ToMap(updates) && ToMap(updates).Keys !! REMOVED_KEYS
    requires Appended(updates, SeenKeys(lines, ToMap(updates))) != []
    ensures Assigned(EndKept(EditedLines(lines, updates), 1, 1), key) == None
  {
    hide *;
    var u := ToMap(updates);
    var seen := SeenKeys(lines, u);
    var append := Appended(updates, seen);
    var gap := EditedWithNew(lines, updates);
    EntriesAreKept(updates);
    EntriesElsewhere(updates, key);
    AppendedAreKept(updates, seen);
    GapIsKept(gap, append);
    EndKeptIs(EditedLines(lines, updates), 1, 1);
    StripLinesConcat(UpdateLines(lines, u), gap + append, 1, 1);
    TrimmedAreStripped(gap + append, 1);
    KeepLinesConcat(StripLines(UpdateLines(lines, u), 1, 1), gap + append, REMOVED_KEYS);
    KeepAll(gap + append, REMOVED_KEYS);
    EndingConcat(KeepLines(StripLines(UpdateLines(lines, u), 1, 1), REMOVED_KEYS), gap + append);
    GapAssignsNothing(gap, append, key);
    EndingAppended(updates, seen, key);
  }

  lemma OwnedIsKept(live: JsString, request: Import, key: JsString)
    requires key in KEPT_KEYS
    ensures var owned := ToMap(LauncherOwned(ParseEnv(live), request.proxyEnabled));
            key !in owned && owned.Keys !! REMOVED_KEYS
  {
    hide ToMap, ParseEnv, LauncherOwned, Carried, IsIdentifier, KEPT_KEYS, REMOVED_KEYS, DistinctKeys,
         TRUST_PROXY_HEADERS, HTTP_HOST_BIND;
    OwnedEntries(ParseEnv(live), request.proxyEnabled);
    KeptIsUntouched(key);
    LauncherKeysAreKept();
  }

  lemma LauncherKeysAreKept()
    ensures TRUST_PROXY_HEADERS !in REMOVED_KEYS && HTTP_HOST_BIND !in REMOVED_KEYS
  {
    hide TRUST_PROXY_HEADERS, HTTP_HOST_BIND;
    assert forall k :: k in REMOVED_KEYS ==> k[0] as int == 'O' as int;
    LauncherKeysStart();
  }

  lemma LauncherKeysStart()
    ensures |TRUST_PROXY_HEADERS| > 0 && TRUST_PROXY_HEADERS[0] as int == 'F' as int
    ensures |HTTP_HOST_BIND| > 0 && HTTP_HOST_BIND[0] as int == 'F' as int
  {}

  lemma ClosingOfNext(live: JsString, request: Import, replaceMissing: bool, key: JsString)
    requires WellFormedImport(live, request) && key in KEPT_KEYS
    ensures Closing(NextRaw(live, request, replaceMissing), key)
         == if NothingAdded(live, request, replaceMissing)
            then Assigned(EndKept(ImportedLines(live, request, replaceMissing), 2, 1), key) else None
  {
    hide *;
    var imported, owned := ImportedRaw(live, request, replaceMissing), LauncherOwned(ParseEnv(live), request.proxyEnabled);
    OwnedShape(live, request);
    OwnedIsKept(live, request, key);
    NextEnd(live, request, replaceMissing);
    AskedIs(live, request, replaceMissing);
    ClosingParts(live, request, replaceMissing, key);
    if AssignsAll(imported, owned) {
      OldEnd(live, request, replaceMissing, key);
    } else {
      AppendsUnlessAssigned(imported, owned);
      NewEnd(Split(imported), owned, key);
    }
  }

  lemma ClosingParts(live: JsString, request: Import, replaceMissing: bool, key: JsString)
    ensures Closing(NextRaw(live, request, replaceMissing), key)
         == if Complete(NextRaw(live, request, replaceMissing))
            then Assigned(Ending(Kept(NextRaw(live, request, replaceMissing))), key) else None
    ensures NothingAdded(live, request, replaceMissing)
       <==> (&& AssignsAll(ImportedRaw(live, request, replaceMissing), LauncherOwned(ParseEnv(live), request.proxyEnabled))
             && Complete(NextRaw(live, request, replaceMissing)))
  {
    hide NextRaw, AssignsAll, Complete, Assigned, Ending, Kept, LauncherOwned, ImportedRaw;
  }

  lemma KeptIsElsewhere(raw: JsString, key: JsString)
    requires DerivedUpdates(raw).Some? && key in KEPT_KEYS
    ensures key != PROTO && key !in REMOVED_KEYS && key !in ToMap(DerivedUpdates(raw).value)
  {
    hide DerivedUpdates, ToMap, IdentifierKeys, DERIVED_KEYS, REMOVED_KEYS, KEPT_KEYS, Storable, DistinctKeys;
    DerivedIsStorable(raw);
    KeptIsUntouched(key);
  }

  lemma UncoveredIs(live: JsString, request: Import, replaceMissing: bool, key: JsString)
    ensures var lines := ImportedLines(live, request, replaceMissing);
            Uncovered(live, request, replaceMissing, key)
            == Or(Surfacing(lines, StripLines(lines, 4, 3), key),
                  if NothingAdded(live, request, replaceMissing) then Assigned(EndKept(lines, 2, 1), key) else None)
  {
    hide NothingAdded, EndKept, Surfacing, StripLines, Assigned, ImportedLines;
  }

  /** The exact value of a launcher setting in the file that is written, for any import of any text. */
  lemma ImportedValue(live: JsString, request: Import, replaceMissing: bool, key: JsString)
    requires WellFormedImport(live, request) && key in KEPT_KEYS
    requires CanonicalText(NextRaw(live, request, replaceMissing)).Some?
    ensures At(ParseEnv(CanonicalText(NextRaw(live, request, replaceMissing)).value), key)
         == Or(At(Asked(live, request, replaceMissing), key), Uncovered(live, request, replaceMissing, key))
  {
    hide *;
    var next, lines := NextRaw(live, request, replaceMissing), ImportedLines(live, request, replaceMissing);
    CanonicalIs(next);
    KeptIsElsewhere(next, key);
    OwnedIsKept(live, request, key);
    WrittenElsewhere(next, key);
    NextValue(live, request, replaceMissing, key);
    ClosingOfNext(live, request, replaceMissing, key);
    StrippedValue(lines, 4, 3, key);
    AskedAt(live, request, replaceMissing, key);
    UncoveredIs(live, request, replaceMissing, key);
    OrLaws(At(Asked(live, request, replaceMissing), key), Surfacing(lines, StripLines(lines, 4, 3), key),
           Closing(next, key));
  }

  // ------------------------------------------------------------ the frame

  /** Replacing the file loses a launcher setting whose value no dotenv line can carry. */
  ghost predicate Survives(live: Env, key: JsString, replaceMissing: bool) {
    replaceMissing && key in live ==> !HasSeparator(live[key])
  }

  /** The imported text defines a launcher setting that the live file lacks, although its own lines were removed. */
  ghost predicate Introduces(live: JsString, request: Import, replaceMissing: bool, key: JsString) {
    replaceMissing && key !in ParseEnv(live) && key in ParseEnv(ImportStart(live, request, replaceMissing))
  }

  lemma AskedKeeps(live: JsString, request: Import, replaceMissing: bool, key: JsString)
    requires WellFormedImport(live, request) && key in KEPT_KEYS
    ensures At(Asked(live, request, replaceMissing), key) == At(ParseEnv(live), key)
       <==> Survives(ParseEnv(live), key, replaceMissing) && !Introduces(live, request, replaceMissing, key)
  {
    hide ParseEnv, HasSeparator, KEPT_KEYS, EXCEPTED_KEYS, PROTO, ToMap, ImportStart, ImportEdits, IdentifierKeys,
         DistinctKeys, WellFormedImport;
    EditsShape(live, request, replaceMissing);
    KeptIsUntouched(key);
    assert key in HIDDEN_KEYS;
    assert !replaceMissing ==> ImportStart(live, request, replaceMissing) == live by { StartIs(live, request); }
  }

  lemma StartIs(live: JsString, request: Import)
    ensures ImportStart(live, request, false) == live
    ensures ImportStart(live, request, true) == RemoveEnvKeys(request.raw, HIDDEN_KEYS + {HIGHEST_VERSION_USED})
  {
    hide RemoveEnvKeys, HIDDEN_KEYS, HIGHEST_VERSION_USED;
  }

  /**
   When a launcher setting keeps its presence and value. If no stray carriage
   return brings a value of it to light: always in merge mode, and in replace
   mode if its value can be carried by a line and the text does not introduce
   it. Otherwise exactly when the value that comes to light is the old one.
   */
  lemma ImportKeepsLauncherSettings(live: JsString, request: Import, replaceMissing: bool, key: JsString)
    requires WellFormedImport(live, request) && key in KEPT_KEYS
    requires CanonicalText(NextRaw(live, request, replaceMissing)).Some?
    ensures var after := ParseEnv(CanonicalText(NextRaw(live, request, replaceMissing)).value);
            var uncovered := Uncovered(live, request, replaceMissing, key);
            At(after, key) == At(ParseEnv(live), key)
            <==> if uncovered.Some? then uncovered == At(ParseEnv(live), key)
                 else Survives(ParseEnv(live), key, replaceMissing) && !Introduces(live, request, replaceMissing, key)
  {
    hide ParseEnv, CanonicalText, NextRaw, Uncovered, Survives, Introduces, KEPT_KEYS, WellFormedImport, Asked;
    ImportedValue(live, request, replaceMissing, key);
    AskedKeeps(live, request, replaceMissing, key);
  }

  // ------------------------------------------------------------ imports without stray carriage returns

  /** The text whose lines an import goes through. */
  function ImportBase(live: JsString, request: Import, replaceMissing: bool): JsString {
    if replaceMissing then request.raw else live
  }

  lemma StartHidesNothing(live: JsString, request: Import, replaceMissing: bool, key: JsString)
    requires key in KEPT_KEYS && NoneHides(Split(ImportBase(live, request, replaceMissing)), key)
    ensures NoneHides(Split(ImportStart(live, request, replaceMissing)), key)
    ensures !Introduces(live, request, replaceMissing, key)
  {
    hide Split, ParseEnv, RemoveEnvKeys, Hides, KEPT_KEYS, EXCEPTED_KEYS, HIGHEST_VERSION_USED, PROTO;
    StartIs(live, request);
    if replaceMissing {
      KeptIsUntouched(key);
      assert key in HIDDEN_KEYS;
      RemovePlainly(request.raw, HIDDEN_KEYS + {HIGHEST_VERSION_USED}, key);
    }
  }

  lemma CleanEndKept(lines: seq<JsString>, key: JsString)
    requires NoneHides(lines, key) && key !in REMOVED_KEYS
    ensures Or(LastOf(lines, key), Assigned(EndKept(lines, 2, 1), key)) == LastOf(lines, key)
  {
    hide KeepLines, StripLines, LastOf, Assigned, Ending, Hides, REMOVED_KEYS, KeepsOut;
    var stripped := StripLines(lines, 2, 1);
    var kept := KeepLines(stripped, REMOVED_KEYS);
    CleanLinesStripped(lines, 2, 1, key);
    KeptIsPart(stripped, REMOVED_KEYS);
    CleanEnding(kept, key);
    LastOfKept(stripped, REMOVED_KEYS, 0, key);
    StripNoLines(stripped);
    StripNoLines(kept);
  }

  lemma CleanUncovers(live: JsString, request: Import, replaceMissing: bool, key: JsString)
    requires WellFormedImport(live, request) && key in KEPT_KEYS
    requires NoneHides(Split(ImportStart(live, request, replaceMissing)), key)
    ensures Or(At(Asked(live, request, replaceMissing), key), Uncovered(live, request, replaceMissing, key))
         == At(Asked(live, request, replaceMissing), key)
  {
    hide *;
    var lines := ImportedLines(live, request, replaceMissing);
    var asked := At(Asked(live, request, replaceMissing), key);
    var surfacing := Surfacing(lines, StripLines(lines, 4, 3), key);
    KeptIsUntouched(key);
    EditsShape(live, request, replaceMissing);
    AskedIs(live, request, replaceMissing);
    AskedAt(live, request, replaceMissing, key);
    EditedHidesNothing(Split(ImportStart(live, request, replaceMissing)), ImportEdits(request, replaceMissing), key);
    CleanLinesStripped(lines, 4, 3, key);
    StrippedValue(lines, 4, 3, key);
    CleanEndKept(lines, key);
    UncoveredIs(live, request, replaceMissing, key);
    OrLaws(asked, surfacing, if NothingAdded(live, request, replaceMissing) then Assigned(EndKept(lines, 2, 1), key) else None);
    OrLaws(asked, None, None);
  }

  /**
   An import in which no line assigns a launcher setting only once white space
   is cut off its end keeps the setting, in merge mode always and in replace
   mode exactly when its value can be carried by a line.
   */
  lemma CleanImportKeepsLauncherSettings(live: JsString, request: Import, replaceMissing: bool, key: JsString)
    requires WellFormedImport(live, request) && key in KEPT_KEYS
    requires CanonicalText(NextRaw(live, request, replaceMissing)).Some?
    requires NoneHides(Split(ImportBase(live, request, replaceMissing)), key)
    ensures var after := ParseEnv(CanonicalText(NextRaw(live, request, replaceMissing)).value);
            At(after, key) == At(ParseEnv(live), key) <==> Survives(ParseEnv(live), key, replaceMissing)
  {
    hide ParseEnv, CanonicalText, NextRaw, Uncovered, Survives, Introduces, KEPT_KEYS, WellFormedImport, Asked, ImportStart,
         ImportBase, NoneHides;
    StartHidesNothing(live, request, replaceMissing, key);
    CleanUncovers(live, request, replaceMissing, key);
    ImportedValue(live, request, replaceMissing, key);
    AskedKeeps(live, request, replaceMissing, key);
  }
}
