/** What an import brings: every setting of the file that is written, for texts in which no line hides an assignment. */
module EnvImportResults {
  import opened JsStrings
  import opened TextLines
  import opened Dotenv
  import opened DotenvValues
  import opened DotenvEditing
  import opened EnvTopology
  import opened EnvLines
  import opened EnvStrays
  import opened EnvSteady
  import opened EnvWritten
  import opened EnvCanonical
  import opened EnvImport
  import opened EnvImportProofs
  import opened TopologyMeaning

  // ------------------------------------------------------------ texts that hide nothing are steady

  lemma UnhiddenIsQuiet(line: JsString, n: nat)
    requires forall key :: !Hides(line, key)
    ensures Quiet(line, n) && (IsAssignment(TrimEnd(line)) ==> IsAssignment(line))
  {
    hide ParseAssignmentLine, UnquoteEnvValue, StripN, TrimEnd, Hides;
    if IsAssignment(StripN(line, n)) {
      var key := ParseAssignmentLine(StripN(line, n)).value.key;
      StrippedHides(line, n, key);
    }
    if IsAssignment(TrimEnd(line)) && !IsAssignment(line) {
      assert Hides(line, ParseAssignmentLine(TrimEnd(line)).value.key) by {
        HidesIs(line, ParseAssignmentLine(TrimEnd(line)).value.key);
      }
    }
  }

  lemma HidesIs(line: JsString, key: JsString)
    ensures Hides(line, key) <==> Assigned(line, key).None? && Assigned(TrimEnd(line), key).Some?
  {}

  lemma {:induction false} UnhiddenAreQuiet(lines: seq<JsString>, n: nat, m: nat)
    requires forall key :: NoneHides(lines, key)
    ensures QuietLines(lines, n, m) && QuietEnd(lines)
    decreases |lines|
  {
    hide Hides, Quiet, IsAssignment, TrimEnd;
    if lines != [] {
      assert lines[0] in lines;
      forall key
        ensures !Hides(lines[0], key)
      {
        assert NoneHides(lines, key);
      }
      UnhiddenIsQuiet(lines[0], n);
      UnhiddenIsQuiet(lines[0], m);
      forall key
        ensures NoneHides(lines[1..], key)
      {
        assert NoneHides(lines, key);
      }
      UnhiddenAreQuiet(lines[1..], n, m);
    }
  }

  lemma CleanIsSteady(raw: JsString)
    requires CleanText(raw)
    ensures Steady(raw)
  {
    hide Split, NoneHides, QuietLines, QuietEnd, Kept, Complete;
    forall key
      ensures NoneHides(Kept(raw), key)
    {
      KeptHidesNothing(raw, REMOVED_KEYS, key);
      KeptIs(raw);
    }
    UnhiddenAreQuiet(Kept(raw), 2, 1);
  }

  // ------------------------------------------------------------ the next text

  /** A value that a line can carry, None for another one. */
  function CarriedValue(value: Option<JsString>): Option<JsString> {
    if value.Some? && HasSeparator(value.value) then None else value
  }

  /** The imported settings: in replace mode the live hidden ones and the imported others, in merge mode the reverse. */
  function Brought(live: JsString, request: Import, replaceMissing: bool, key: JsString): Option<JsString> {
    if replaceMissing then
      if key in HIDDEN_KEYS then CarriedValue(At(ParseEnv(live), key))
      else if key == HIGHEST_VERSION_USED then None
      else At(ParseEnv(request.raw), key)
    else if key !in HIDDEN_KEYS && key in ToMap(request.values) then CarriedValue(Some(ToMap(request.values)[key]))
    else At(ParseEnv(live), key)
  }

  const YES_WORD := Js("true")
  const NO_WORD := Js("false")
  const LOCAL_HOST := Js("127.0.0.1")

  /** The proxy headers are trusted behind the launcher's proxy or another one; only the former binds to the local host. */
  function Asks(live: JsString, request: Import, replaceMissing: bool, key: JsString): Option<JsString> {
    var external := Trim(Value(ParseEnv(live), TRUSTED_UPSTREAMS)) != [];
    if key == TRUST_PROXY_HEADERS then Some(if request.proxyEnabled || external then YES_WORD else NO_WORD)
    else if key == HTTP_HOST_BIND && request.proxyEnabled then Some(LOCAL_HOST)
    else Brought(live, request, replaceMissing, key)
  }

  lemma EditedAt(before: Env, updates: Env, key: JsString)
    requires key != PROTO
    ensures At(EditedEnv(before, updates), key)
         == if key in updates then CarriedValue(Some(updates[key])) else At(before, key)
  {
    hide HasSeparator;
  }

  lemma RemoveStaysClean(text: JsString, keys: set<JsString>, key: JsString)
    requires NoneHides(Split(text), key)
    ensures NoneHides(Split(RemoveEnvKeys(text, keys)), key)
  {
    hide Split, CollapseLines, StripLines, KeptOf, RemoveEnvKeys, Hides;
    var kept := KeptOf(text, keys);
    KeptHidesNothing(text, keys, key);
    RemoveSplit(text, keys);
    CollapsedIsPart(kept, 0);
    CleanLinesStripped(CollapseLines(kept, 0), 1, 0, key);
  }

  lemma StartIsClean(live: JsString, request: Import, replaceMissing: bool)
    requires CleanText(ImportBase(live, request, replaceMissing))
    ensures CleanText(ImportStart(live, request, replaceMissing))
    ensures forall key :: key != PROTO ==>
              At(ParseEnv(ImportStart(live, request, replaceMissing)), key)
              == if replaceMissing then At(ParseEnv(request.raw) - (HIDDEN_KEYS + {HIGHEST_VERSION_USED}), key)
                 else At(ParseEnv(live), key)
  {
    hide ParseEnv, Split, RemoveEnvKeys, NoneHides, HIDDEN_KEYS, HIGHEST_VERSION_USED, PROTO, At, ImportStart;
    StartIs(live, request);
    if replaceMissing {
      var keys := HIDDEN_KEYS + {HIGHEST_VERSION_USED};
      forall key
        ensures NoneHides(Split(RemoveEnvKeys(request.raw, keys)), key)
        ensures key != PROTO ==> At(ParseEnv(RemoveEnvKeys(request.raw, keys)), key) == At(ParseEnv(request.raw) - keys, key)
      {
        RemoveStaysClean(request.raw, keys, key);
        if key != PROTO {
          RemovePlainly(request.raw, keys, key);
        }
      }
    }
  }

  lemma ImportedIsClean(live: JsString, request: Import, replaceMissing: bool)
    requires WellFormedImport(live, request) && CleanText(ImportBase(live, request, replaceMissing))
    ensures CleanText(ImportedRaw(live, request, replaceMissing))
    ensures forall key :: key != PROTO ==>
              At(ParseEnv(ImportedRaw(live, request, replaceMissing)), key) == Brought(live, request, replaceMissing, key)
  {
    hide ParseEnv, Split, NoneHides, CleanText, HIDDEN_KEYS, HIGHEST_VERSION_USED, PROTO, At, ImportStart, ImportEdits, UpdateEnv,
         EditedEnv, ToMap, WellFormedImport, IdentifierKeys, DistinctKeys, ImportBase, Brought;
    StartIsClean(live, request, replaceMissing);
    EditsShape(live, request, replaceMissing);
    var start, edits := ImportStart(live, request, replaceMissing), ImportEdits(request, replaceMissing);
    EditCleanText(start, edits);
    forall key | key != PROTO
      ensures At(ParseEnv(ImportedRaw(live, request, replaceMissing)), key) == Brought(live, request, replaceMissing, key)
    {
      EditedAt(ParseEnv(start), ToMap(edits), key);
      BroughtIs(live, request, replaceMissing, key);
    }
  }

  lemma BroughtIs(live: JsString, request: Import, replaceMissing: bool, key: JsString)
    ensures var edits := if replaceMissing then Restrict(ParseEnv(live), HIDDEN_KEYS) else ToMap(request.values) - HIDDEN_KEYS;
            var start := if replaceMissing then ParseEnv(request.raw) - (HIDDEN_KEYS + {HIGHEST_VERSION_USED}) else ParseEnv(live);
            Brought(live, request, replaceMissing, key)
            == if key in edits then CarriedValue(Some(edits[key])) else At(start, key)
  {
    hide ParseEnv, HIDDEN_KEYS, HIGHEST_VERSION_USED, ToMap, HasSeparator;
  }

  lemma NextLinesAreClean(live: JsString, request: Import, replaceMissing: bool, key: JsString)
    requires WellFormedImport(live, request) && CleanText(ImportedRaw(live, request, replaceMissing))
    ensures NoneHides(NextLines(live, request, replaceMissing), key)
    ensures NoneHides(Split(NextRaw(live, request, replaceMissing)), key)
  {
    hide *;
    var imported := ImportedRaw(live, request, replaceMissing);
    var lines := NextLines(live, request, replaceMissing);
    OwnedShape(live, request);
    AskedIs(live, request, replaceMissing);
    CleanAt(imported, key);
    EditedHidesNothing(Split(imported), LauncherOwned(ParseEnv(live), request.proxyEnabled), key);
    PartHidesNothing(lines, key);
    CleanLinesStripped(CollapseLines(lines, 0), 1, 1, key);
    NextSplit(live, request, replaceMissing);
    BlankHidesNothing(StripLines(CollapseLines(lines, 0), 1, 1), key);
  }

  lemma CleanAt(text: JsString, key: JsString)
    requires CleanText(text)
    ensures NoneHides(Split(text), key)
  {}

  lemma PartHidesNothing(lines: seq<JsString>, key: JsString)
    requires NoneHides(lines, key)
    ensures NoneHides(CollapseLines(lines, 0), key)
  {
    hide CollapseLines, Hides;
    CollapsedIsPart(lines, 0);
  }

  lemma BlankHidesNothing(lines: seq<JsString>, key: JsString)
    requires NoneHides(lines, key)
    ensures NoneHides(lines + [[]], key)
  {
    hide Hides;
    EmptyHidesNothing(key);
  }

  lemma EmptyHidesNothing(key: JsString)
    ensures !Hides([], key)
  {
    assert TrimEnd([]) == [];
  }

  lemma NextValue(live: JsString, request: Import, replaceMissing: bool, key: JsString)
    requires WellFormedImport(live, request) && CleanText(ImportedRaw(live, request, replaceMissing)) && key != PROTO
    ensures At(ParseEnv(NextRaw(live, request, replaceMissing)), key)
         == At(EditedEnv(ParseEnv(ImportedRaw(live, request, replaceMissing)),
                         ToMap(LauncherOwned(ParseEnv(live), request.proxyEnabled))), key)
  {
    hide *;
    var lines := NextLines(live, request, replaceMissing);
    NextLinesAreClean(live, request, replaceMissing, key);
    NextRawParses(live, request, replaceMissing, key);
    OwnedShape(live, request);
    AskedIs(live, request, replaceMissing);
    ParseEnvIs(ImportedRaw(live, request, replaceMissing));
    EditedLinesAt(Split(ImportedRaw(live, request, replaceMissing)), LauncherOwned(ParseEnv(live), request.proxyEnabled), key);
    StrippedValue(lines, 1, 1, key);
    CleanLinesStripped(lines, 1, 1, key);
  }

  lemma OwnedValues(live: Env, proxyEnabled: bool, key: JsString)
    ensures var owned := ToMap(LauncherOwned(live, proxyEnabled));
            var external := Trim(Value(live, TRUSTED_UPSTREAMS)) != [];
            At(owned, key) == if key == TRUST_PROXY_HEADERS then Some(if proxyEnabled || external then YES_WORD else NO_WORD)
                              else if key == HTTP_HOST_BIND && proxyEnabled then Some(LOCAL_HOST)
                              else None
    ensures var owned := ToMap(LauncherOwned(live, proxyEnabled)); key in owned ==> !HasSeparator(owned[key])
  {
    hide HasSeparator, Trim, TRUST_PROXY_HEADERS, HTTP_HOST_BIND, ToMap, TRUSTED_UPSTREAMS;
    LauncherKeysDiffer();
    LauncherKeysAreIdentifiers();
    var trust := LauncherOwned(live, proxyEnabled)[0].1;
    if proxyEnabled {
      TwoEntries(TRUST_PROXY_HEADERS, trust, HTTP_HOST_BIND, LOOPBACK);
    } else {
      EnvImportProofs.OneEntry(TRUST_PROXY_HEADERS, trust);
      assert LauncherOwned(live, proxyEnabled) == [(TRUST_PROXY_HEADERS, trust)];
    }
  }

  lemma OverriddenAt(before: Env, owned: Env, key: JsString)
    requires key != PROTO && (key in owned ==> !HasSeparator(owned[key]))
    ensures At(EditedEnv(before, owned), key) == if At(owned, key).Some? then At(owned, key) else At(before, key)
  {
    hide HasSeparator;
  }

  /** Every setting of the next text, which hides no assignment either. */
  lemma NextIsClean(live: JsString, request: Import, replaceMissing: bool)
    requires WellFormedImport(live, request) && CleanText(ImportBase(live, request, replaceMissing))
    ensures CleanText(NextRaw(live, request, replaceMissing))
    ensures forall key :: key != PROTO ==>
              At(ParseEnv(NextRaw(live, request, replaceMissing)), key) == Asks(live, request, replaceMissing, key)
  {
    hide ParseEnv, Split, NoneHides, PROTO, At, EditedEnv, ToMap, WellFormedImport, ImportBase, Brought, ImportedRaw, NextRaw,
         LauncherOwned, HasSeparator, Trim, TRUST_PROXY_HEADERS, HTTP_HOST_BIND, TRUSTED_UPSTREAMS;
    ImportedIsClean(live, request, replaceMissing);
    forall key
      ensures NoneHides(Split(NextRaw(live, request, replaceMissing)), key)
      ensures key != PROTO ==>
                At(ParseEnv(NextRaw(live, request, replaceMissing)), key) == Asks(live, request, replaceMissing, key)
    {
      NextLinesAreClean(live, request, replaceMissing, key);
      if key != PROTO {
        NextValue(live, request, replaceMissing, key);
        OwnedValues(ParseEnv(live), request.proxyEnabled, key);
        OverriddenAt(ParseEnv(ImportedRaw(live, request, replaceMissing)),
                     ToMap(LauncherOwned(ParseEnv(live), request.proxyEnabled)), key);
      }
    }
  }

  // ------------------------------------------------------------ the written file

  /**
   An import of clean texts writes the settings that were asked for, without the
   removed ones, with every derived setting as it follows from them.
   */
  lemma CleanImportWrites(live: JsString, request: Import, replaceMissing: bool)
    requires WellFormedImport(live, request) && CleanText(ImportBase(live, request, replaceMissing))
    requires CanonicalText(NextRaw(live, request, replaceMissing)).Some?
    ensures var next := ParseEnv(NextRaw(live, request, replaceMissing));
            && (forall key :: key != PROTO ==> At(next, key) == Asks(live, request, replaceMissing, key))
            && Routes(next - REMOVED_KEYS, ParseEnv(CanonicalText(NextRaw(live, request, replaceMissing)).value))
  {
    hide ParseEnv, CleanText, Steady, PROTO, Asks, NextRaw, CanonicalText, Routes, WellFormedImport, ImportBase, REMOVED_KEYS;
    NextIsClean(live, request, replaceMissing);
    CleanIsSteady(NextRaw(live, request, replaceMissing));
    WrittenRoutes(NextRaw(live, request, replaceMissing));
  }
}
