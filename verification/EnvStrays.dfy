/**
 Stray carriage returns. Every split of a text removes one carriage return in
 front of each line feed, so a line that assigns nothing may assign a value
 after the next split. This module says exactly which values come to light.
 */
module EnvStrays {
  import opened JsStrings
  import opened TextLines
  import opened Dotenv
  import opened DotenvProofs
  import opened DotenvValues
  import opened DotenvEditing
  import opened EnvLines

  // ------------------------------------------------------------ what editing leaves alone

  /** A line that gives a value to one key gives none to another, however much is stripped. */
  lemma OtherKey(line: JsString, n: nat, key: JsString)
    requires ParseAssignmentLine(line).Some? && ParseAssignmentLine(line).value.key != key
    ensures Assigned(StripN(line, n), key) == None && Assigned(TrimEnd(line), key) == None
  {
    hide ParseAssignmentLine, StripN, TrimEnd, UnquoteEnvValue;
    StripKeeps(line, n);
    TrimKeeps(line);
    assert Assigned(line, key) == None;
  }

  lemma {:induction false} LastOfCollapsed(lines: seq<JsString>, run: nat, n: nat, m: nat, key: JsString)
    ensures LastOf(StripLines(CollapseLines(lines, run), n, m), key) == LastOf(StripLines(lines, n, m), key)
    decreases |lines|
  {
    hide Assigned, StripN;
    if |lines| > 1 {
      var rest := lines[1..];
      LastOfStripCons(lines[0], rest, n, m, key);
      if lines[0] != [] {
        LastOfCollapsed(rest, 1, n, m, key);
        LastOfStripCons(lines[0], CollapseLines(rest, 1), n, m, key);
        assert [lines[0]] + rest == lines;
      } else {
        EmptyStays(n, key);
        assert [[]] + rest == lines;
        if run >= 2 {
          LastOfCollapsed(rest, run, n, m, key);
        } else {
          LastOfCollapsed(rest, run + 1, n, m, key);
          LastOfStripCons([], CollapseLines(rest, run + 1), n, m, key);
        }
      }
    }
  }

  lemma LastOfStripCons(line: JsString, rest: seq<JsString>, n: nat, m: nat, key: JsString)
    requires rest != []
    ensures LastOf(StripLines([line] + rest, n, m), key)
         == Or(Assigned(StripN(line, n), key), LastOf(StripLines(rest, n, m), key))
  {
    hide Assigned, StripN;
    assert ([line] + rest)[1..] == rest;
    assert StripLines([line] + rest, n, m)[1..] == StripLines(rest, n, m);
  }

  lemma EmptyStays(n: nat, key: JsString)
    ensures StripN([], n) == [] && Assigned([], key) == None
  {
    StripNothing([], n);
    EmptyIsBlank();
    AssignedOfBlank([], key);
  }

  // ------------------------------------------------------------ what an edit writes

  lemma KeptCommentAgain(value: JsString, tail: JsString)
    requires IsTail(tail)
    ensures KeptComment(SerializeValue(value) + tail) == tail
  {
    hide IsSpace, SerializeValue, InlineComment, TrimEnd, Trim;
    var s := SerializeValue(value);
    CommentBehindValue(value, tail);
    if tail != [] {
      assert (s + tail)[|s| + 1..] == tail[1..];
      HashIsNotSpace();
      assert tail[1..][0] == HASH && tail[1..][|tail| - 2] == tail[|tail| - 1];
      TrimIdentity(tail[1..]);
      assert tail == [SPACE] + tail[1..];
    }
  }

  lemma EndsTrimmed(front: JsString, value: JsString, tail: JsString)
    requires IsTail(tail)
    ensures TrimEnd(front + (SerializeValue(value) + tail)) == front + (SerializeValue(value) + tail)
  {
    hide IsSpace, SerializeValue, IsTail, TrimEnd;
    var s := SerializeValue(value);
    var line := front + (s + tail);
    SerializedEnds(value);
    TailEnds(tail);
    assert line[|line| - 1] == if tail == [] then s[|s| - 1] else tail[|tail| - 1];
    EndsInNonSpace(line);
  }

  lemma TrimmedHasNoCR(line: JsString)
    requires TrimEnd(line) == line
    ensures !EndsWithCR(line)
  {
    CarriageReturnIsSpace();
  }

  /** A rewritten line is trimmed and names its own key only. */
  lemma UpdatedLine(line: JsString, updates: Env)
    requires Updates(line, updates)
    ensures var r := UpdateLine(line, updates);
            && r != [] && TrimEnd(r) == r && (LF in r <==> LF in line)
            && (ParseAssignmentLine(r).Some? ==> ParseAssignmentLine(r).value.key == ParseAssignmentLine(line).value.key)
  {
    hide ParseAssignmentLine, SerializeValue, KeptComment, HasSeparator, IsTail, TrimEnd, IsPrefix, IsSeparator,
         HasTerminator, IsIdentifier, UnquoteEnvValue, InlineComment;
    var a := ParseAssignmentLine(line).value;
    ParseAssignmentSound(line);
    KeptCommentIsTail(a.valuePart);
    SerializedEnds(updates[a.key]);
    AssignParses(a, updates[a.key]);
    var front, back := a.prefix + (a.key + a.separator), SerializeValue(updates[a.key]) + KeptComment(a.valuePart);
    EndsTrimmed(front, updates[a.key], KeptComment(a.valuePart));
    NoLFInSerialized(updates[a.key], KeptComment(a.valuePart));
    LineFeedTerminates(a.valuePart);
    assert UpdateLine(line, updates) == front + back;
    assert line == front + a.valuePart;
  }

  lemma LineFeedTerminates(s: JsString)
    requires !HasTerminator(s)
    ensures LF !in s
  {
    assert IsLineTerminator(LF);
  }

  /** A new line is trimmed and names its own key only. */
  lemma FreshLineShape(entry: (JsString, JsString))
    requires IsIdentifier(entry.0)
    ensures var r := NewLine(entry);
            && r != [] && TrimEnd(r) == r && LF !in r
            && (ParseAssignmentLine(r).Some? ==> ParseAssignmentLine(r).value.key == entry.0)
  {
    hide ParseAssignmentLine, SerializeValue, HasSeparator, IsTail, TrimEnd, IsIdentifier, UnquoteEnvValue;
    NewLineParses(entry);
    NewLineIsSingle(entry);
    EqualsSeparates();
    EndsTrimmed(entry.0 + [EQUALS], entry.1, []);
    assert NewLine(entry) == (entry.0 + [EQUALS]) + (SerializeValue(entry.1) + []);
  }

  /** A trimmed line looks the same however much is stripped. */
  lemma TrimmedStays(line: JsString, n: nat)
    requires TrimEnd(line) == line
    ensures StripN(line, n) == line
  {
    hide TrimEnd, EndsWithCR;
    TrimmedHasNoCR(line);
    StripNothing(line, n);
  }

  lemma UpdatedElsewhere(line: JsString, updates: Env, n: nat, key: JsString)
    requires key !in updates
    ensures Assigned(StripN(UpdateLine(line, updates), n), key) == Assigned(StripN(line, n), key)
    ensures Assigned(TrimEnd(UpdateLine(line, updates)), key) == Assigned(TrimEnd(line), key)
    ensures Blank(UpdateLine(line, updates)) <==> Blank(line)
  {
    hide ParseAssignmentLine, StripN, TrimEnd, UnquoteEnvValue, Assign;
    if Updates(line, updates) {
      UpdatedLine(line, updates);
      OtherKey(line, n, key);
      TrimmedStays(UpdateLine(line, updates), n);
      NotBlank(line);
    }
  }

  lemma NotBlank(line: JsString)
    requires ParseAssignmentLine(line).Some?
    ensures !Blank(line)
  {
    hide ParseAssignmentLine, Blank, UnquoteEnvValue;
    if Blank(line) {
      AssignedOfBlank(line, ParseAssignmentLine(line).value.key);
    }
  }

  lemma {:induction false} LastOfUpdated(lines: seq<JsString>, updates: Env, n: nat, m: nat, key: JsString)
    requires key !in updates
    ensures LastOf(StripLines(UpdateLines(lines, updates), n, m), key) == LastOf(StripLines(lines, n, m), key)
    decreases |lines|
  {
    hide Assigned, StripN, UpdateLine, TrimEnd, Blank;
    if |lines| == 1 {
      UpdatedElsewhere(lines[0], updates, m, key);
      assert UpdateLines(lines, updates) == [UpdateLine(lines[0], updates)];
      LastOfOne(StripN(lines[0], m), key);
      LastOfOne(StripN(UpdateLine(lines[0], updates), m), key);
    } else if lines != [] {
      var rest := lines[1..];
      UpdatedElsewhere(lines[0], updates, n, key);
      LastOfUpdated(rest, updates, n, m, key);
      LastOfStripCons(lines[0], rest, n, m, key);
      LastOfStripCons(UpdateLine(lines[0], updates), UpdateLines(rest, updates), n, m, key);
      assert lines == [lines[0]] + rest;
    }
  }

  lemma {:induction false} LastOfAppended(entries: Entries, seen: set<JsString>, key: JsString)
    requires forall i :: 0 <= i < |entries| ==> IsIdentifier(entries[i].0) && (entries[i].0 != key || key in seen)
    ensures LastOf(Appended(entries, seen), key) == None
    decreases |entries|
  {
    hide NewLine, IsIdentifier, Assigned, LastOf;
    if entries == [] {
      LastOfNothing(key);
    } else {
      var first := if entries[0].0 in seen then [] else [NewLine(entries[0])];
      LastOfAppended(entries[1..], seen, key);
      LastOfConcat(first, Appended(entries[1..], seen), key);
      LastOfNothing(key);
      LastOfOne(NewLine(entries[0]), key);
      if entries[0].0 !in seen {
        NewLineNames(entries[0], key);
      }
    }
  }

  lemma LastOfNothing(key: JsString)
    ensures LastOf([], key) == None
  {}

  lemma NewLineNames(entry: (JsString, JsString), key: JsString)
    requires IsIdentifier(entry.0) && entry.0 != key
    ensures Assigned(NewLine(entry), key) == None
  {
    hide NewLine, IsIdentifier, ParseAssignmentLine, UnquoteEnvValue, TrimEnd;
    FreshLineShape(entry);
  }

  lemma SingleLinesConcat(first: seq<JsString>, second: seq<JsString>)
    ensures SingleLines(first) && SingleLines(second) ==> SingleLines(first + second)
  {}

  lemma {:induction false} UpdateLinesSingle(lines: seq<JsString>, updates: Env)
    requires SingleLines(lines)
    ensures SingleLines(UpdateLines(lines, updates))
    decreases |lines|
  {
    hide UpdateLine, ParseAssignmentLine;
    if lines != [] {
      if Updates(lines[0], updates) {
        UpdatedLine(lines[0], updates);
      } else {
        NotUpdated(lines[0], updates);
      }
      UpdateLinesSingle(lines[1..], updates);
    }
  }

  lemma {:induction false} AppendedSingle(entries: Entries, seen: set<JsString>)
    requires forall i :: 0 <= i < |entries| ==> IsIdentifier(entries[i].0)
    ensures SingleLines(Appended(entries, seen))
    decreases |entries|
  {
    hide NewLine, IsIdentifier, ParseAssignmentLine, TrimEnd;
    if entries != [] {
      FreshLineShape(entries[0]);
      AppendedSingle(entries[1..], seen);
    }
  }

  lemma EntriesAreIdentifiers(updates: Entries)
    requires DistinctKeys(updates) && IdentifierKeys(ToMap(updates))
    ensures forall i :: 0 <= i < |updates| ==> IsIdentifier(updates[i].0)
  {
    hide IsIdentifier, ToMap;
    EntriesOfMap(updates);
  }

  lemma EditedLinesSingle(lines: seq<JsString>, updates: Entries)
    requires lines != [] && SingleLines(lines) && DistinctKeys(updates) && IdentifierKeys(ToMap(updates))
    ensures SingleLines(EditedLines(lines, updates))
  {
    hide UpdateLines, Appended, SeenKeys, ToMap, SingleLines, IdentifierKeys, DistinctKeys;
    var u := ToMap(updates);
    var first, append := UpdateLines(lines, u), Appended(updates, SeenKeys(lines, u));
    EntriesAreIdentifiers(updates);
    UpdateLinesSingle(lines, u);
    AppendedSingle(updates, SeenKeys(lines, u));
    OneEmptyLine();
    SingleLinesConcat(first, [[]]);
    SingleLinesConcat(first, append);
    SingleLinesConcat(first + [[]], append);
  }

  lemma OneEmptyLine()
    ensures SingleLines([[]])
  {}

  /** The lines of an edited text: one stray carriage return per line is gone. */
  lemma UpdateEnvSplit(content: JsString, updates: Entries)
    requires DistinctKeys(updates) && IdentifierKeys(ToMap(updates))
    ensures var edited := CollapseLines(EditedLines(Split(content), updates), 0);
            && SingleLines(edited) && UpdateEnv(content, updates) == Join(edited)
            && Split(UpdateEnv(content, updates)) == StripLines(edited, 1, 0)
  {
    hide Split, Join, Collapse, EditedLines, CollapseLines, SingleLines, ToMap, StripLines, IdentifierKeys, DistinctKeys;
    var edited := EditedLines(Split(content), updates);
    SplitIsSingleLines(content);
    EditedLinesSingle(Split(content), updates);
    CollapseJoin(edited, 0);
    CollapseKeepsShape(edited, 0);
    SplitJoinStrips(CollapseLines(edited, 0));
  }

  // ------------------------------------------------------------ what comes to light

  /** The value of the last form that assigns the key, if its line does not. */
  function Surfacing(lines: seq<JsString>, forms: seq<JsString>, key: JsString): Option<JsString>
    requires |lines| == |forms|
    decreases |lines|
  {
    if lines == [] then None
    else if LastOf(forms[1..], key).Some? then Surfacing(lines[1..], forms[1..], key)
    else if Assigned(lines[0], key).None? then Assigned(forms[0], key)
    else None
  }

  ghost predicate Keeping(lines: seq<JsString>, forms: seq<JsString>, key: JsString)
    requires |lines| == |forms|
  {
    forall i :: 0 <= i < |lines| && Assigned(lines[i], key).Some? ==> Assigned(forms[i], key) == Assigned(lines[i], key)
  }

  lemma {:induction false} SurfacingDecides(lines: seq<JsString>, forms: seq<JsString>, key: JsString)
    requires |lines| == |forms| && Keeping(lines, forms, key)
    ensures LastOf(forms, key) == Or(LastOf(lines, key), Surfacing(lines, forms, key))
    decreases |lines|
  {
    hide Assigned;
    if lines != [] {
      assert Keeping(lines[1..], forms[1..], key) by {
        assert forall i :: 0 <= i < |lines| - 1 ==> lines[1..][i] == lines[i + 1] && forms[1..][i] == forms[i + 1];
      }
      SurfacingDecides(lines[1..], forms[1..], key);
    }
  }

  lemma StrippedKeeping(lines: seq<JsString>, n: nat, m: nat, key: JsString)
    ensures Keeping(lines, StripLines(lines, n, m), key)
  {
    hide StripN, StripLines, ParseAssignmentLine, UnquoteEnvValue;
    forall i | 0 <= i < |lines| && Assigned(lines[i], key).Some?
      ensures Assigned(StripLines(lines, n, m)[i], key) == Assigned(lines[i], key)
    {
      StripLinesAt(lines, n, m, i);
      StripKeeps(lines[i], if i == |lines| - 1 then m else n);
    }
  }

  lemma StrippedValue(lines: seq<JsString>, n: nat, m: nat, key: JsString)
    ensures LastOf(StripLines(lines, n, m), key)
         == Or(LastOf(lines, key), Surfacing(lines, StripLines(lines, n, m), key))
  {
    hide Keeping, StripLines, LastOf, Surfacing;
    StrippedKeeping(lines, n, m, key);
    SurfacingDecides(lines, StripLines(lines, n, m), key);
  }

  /** The environment that an edit asks for. */
  function EditedEnv(before: Env, updates: Env): Env {
    (before - updates.Keys) + Carried(updates)
  }

  lemma EditedLinesAt(lines: seq<JsString>, updates: Entries, key: JsString)
    requires lines != [] && DistinctKeys(updates) && IdentifierKeys(ToMap(updates)) && key != PROTO
    ensures LastOf(EditedLines(lines, updates), key) == At(EditedEnv(ParseLines(map[], lines), ToMap(updates)), key)
  {
    hide EditedLines, ParseLines, ToMap, IdentifierKeys, DistinctKeys, LastOf, Carried;
    EditedLinesParse(lines, updates);
    ParseAt(map[], EditedLines(lines, updates), key);
  }

  /**
   The exact effect of an edit on any text: every key has the value the edit
   asks for, unless a line that assigned nothing is the last one to assign the
   key once its stray carriage return is gone.
   */
  lemma EditExactly(content: JsString, updates: Entries, key: JsString)
    requires DistinctKeys(updates) && IdentifierKeys(ToMap(updates)) && key != PROTO
    ensures var lines := EditedLines(Split(content), updates);
            At(ParseEnv(UpdateEnv(content, updates)), key)
            == Or(At(EditedEnv(ParseEnv(content), ToMap(updates)), key), Surfacing(lines, StripLines(lines, 1, 0), key))
  {
    hide *;
    var lines := EditedLines(Split(content), updates);
    UpdateEnvSplit(content, updates);
    ParseEnvAt(UpdateEnv(content, updates), key);
    LastOfCollapsed(lines, 0, 1, 0, key);
    StrippedValue(lines, 1, 0, key);
    EditedLinesAt(Split(content), updates, key);
    ParseEnvIs(content);
  }

  lemma ParseEnvIs(text: JsString)
    ensures ParseEnv(text) == ParseLines(map[], Split(text))
  {}

  // ------------------------------------------------------------ the end of a trimmed text

  /** The last line that is not blank, trimmed. */
  function Ending(lines: seq<JsString>): JsString
    decreases |lines|
  {
    if lines == [] then []
    else
      var later := Ending(lines[1..]);
      if later != [] then later else TrimEnd(lines[0])
  }

  lemma {:induction false} EndingConcat(first: seq<JsString>, second: seq<JsString>)
    ensures Ending(first + second) == if Ending(second) != [] then Ending(second) else Ending(first)
    decreases |first|
  {
    hide TrimEnd;
    if first == [] {
      assert first + second == second;
    } else {
      assert (first + second)[1..] == first[1..] + second;
      EndingConcat(first[1..], second);
    }
  }

  lemma EndingOne(line: JsString)
    ensures Ending([line]) == TrimEnd(line)
  {
    hide TrimEnd;
    assert [line][1..] == [];
  }

  lemma {:induction false} EndingStripped(lines: seq<JsString>, n: nat, m: nat)
    ensures Ending(StripLines(lines, n, m)) == Ending(lines)
    decreases |lines|
  {
    hide TrimEnd, StripN;
    if |lines| == 1 {
      StripCuts(lines[0], m);
      assert lines[1..] == [];
    } else if lines != [] {
      StripCuts(lines[0], n);
      EndingStripped(lines[1..], n, m);
      assert StripLines(lines, n, m)[1..] == StripLines(lines[1..], n, m);
    }
  }

  lemma {:induction false} EndingCollapsed(lines: seq<JsString>, run: nat)
    ensures Ending(CollapseLines(lines, run)) == Ending(lines)
    decreases |lines|
  {
    EmptyIsBlank();
    hide TrimEnd;
    if |lines| > 1 {
      EndingCollapsed(lines[1..], 1);
      EndingCollapsed(lines[1..], run);
      EndingCollapsed(lines[1..], run + 1);
    }
  }

  /** A trimmed file has the values of its lines, and that of the last one trimmed. */
  lemma {:induction false} TrimmedValue(lines: seq<JsString>, n: nat, m: nat, key: JsString)
    requires lines != []
    ensures LastOf(StripLines(TrimLines(lines), n, n), key)
         == Or(LastOf(StripLines(lines, n, m), key), Assigned(Ending(lines), key))
    decreases |lines|
  {
    hide TrimEnd, StripN, StripLines, LastOf, Assigned, Ending, Blank;
    var last := |lines| - 1;
    var front, line := lines[..last], lines[last];
    assert lines == front + [line];
    StripLinesConcat(front, [line], n, m);
    StripLinesOne(line, n, m);
    LastOfConcat(StripLines(front, n, n), [StripN(line, m)], key);
    LastOfOne(StripN(line, m), key);
    EndingConcat(front, [line]);
    EndingOne(line);
    TrimShowsMore(line, m, key);
    BlankEnds(line, m, key);
    if last > 0 && Blank(line) {
      TrimmedValue(front, n, n, key);
    } else {
      TrimEndTwice(line);
      TrimmedStays(TrimEnd(line), n);
      StripLinesConcat(front, [TrimEnd(line)], n, n);
      StripLinesOne(TrimEnd(line), n, n);
      LastOfConcat(StripLines(front, n, n), [TrimEnd(line)], key);
      LastOfOne(TrimEnd(line), key);
      NoLinesEnd();
    }
  }

  lemma NoLinesEnd()
    ensures Ending([]) == []
  {}

  lemma StripLinesOne(line: JsString, n: nat, m: nat)
    ensures StripLines([line], n, m) == [StripN(line, m)]
  {}

  lemma BlankEnds(line: JsString, m: nat, key: JsString)
    ensures Blank(line) ==> TrimEnd(line) == [] && Assigned(StripN(line, m), key) == None && Assigned(TrimEnd(line), key) == None
    ensures !Blank(line) ==> TrimEnd(line) != []
  {
    hide TrimEnd, StripN, Assigned;
    if Blank(line) {
      StripCuts(line, m);
      AssignedOfBlank(StripN(line, m), key);
      EmptyIsBlank();
      AssignedOfBlank([], key);
    }
  }

  /** A file ends as before for a key that is not updated. */
  lemma {:induction false} EndingUpdated(lines: seq<JsString>, updates: Env, key: JsString)
    requires key !in updates
    ensures Ending(UpdateLines(lines, updates)) == [] <==> Ending(lines) == []
    ensures Assigned(Ending(UpdateLines(lines, updates)), key) == Assigned(Ending(lines), key)
    decreases |lines|
  {
    hide TrimEnd, UpdateLine, Assigned, Blank;
    if lines != [] {
      UpdatedElsewhere(lines[0], updates, 0, key);
      BlankEnds(lines[0], 0, key);
      BlankEnds(UpdateLine(lines[0], updates), 0, key);
      EndingUpdated(lines[1..], updates, key);
    }
  }

  lemma {:induction false} EndingAppended(entries: Entries, seen: set<JsString>, key: JsString)
    requires forall i :: 0 <= i < |entries| ==> IsIdentifier(entries[i].0) && entries[i].0 != key
    requires Appended(entries, seen) != []
    ensures Ending(Appended(entries, seen)) != [] && Assigned(Ending(Appended(entries, seen)), key) == None
    decreases |entries|
  {
    hide TrimEnd, NewLine, Assigned, IsIdentifier, Ending, ParseAssignmentLine;
    var rest := Appended(entries[1..], seen);
    var first := if entries[0].0 in seen then [] else [NewLine(entries[0])];
    EndingConcat(first, rest);
    EndingOne(NewLine(entries[0]));
    FreshLineShape(entries[0]);
    NewLineNames(entries[0], key);
    if rest != [] {
      EndingAppended(entries[1..], seen, key);
    } else {
      NoLinesEnd();
    }
  }

  // ------------------------------------------------------------ what is appended

  /** The text assigns every updated key, so an edit adds no line. */
  ghost predicate AssignsAll(text: JsString, updates: Entries) {
    forall entry :: entry in updates ==> entry.0 in ParseEnv(text)
  }

  lemma {:induction false} SeenIsAssigned(lines: seq<JsString>, updates: Env, key: JsString)
    ensures key in SeenKeys(lines, updates) <==> key in updates && LastOf(lines, key).Some?
    decreases |lines|
  {
    hide ParseAssignmentLine, UnquoteEnvValue;
    if lines != [] {
      SeenIsAssigned(lines[1..], updates, key);
    }
  }

  lemma {:induction false} NothingAppended(entries: Entries, seen: set<JsString>)
    ensures Appended(entries, seen) == [] <==> forall entry :: entry in entries ==> entry.0 in seen
    decreases |entries|
  {
    hide NewLine;
    if entries != [] {
      NothingAppended(entries[1..], seen);
    }
  }

  lemma AppendsUnlessAssigned(text: JsString, updates: Entries)
    requires DistinctKeys(updates) && PROTO !in ToMap(updates)
    ensures Appended(updates, SeenKeys(Split(text), ToMap(updates))) == [] <==> AssignsAll(text, updates)
  {
    hide ToMap, SeenKeys, Split, ParseEnv, Appended, LastOf;
    var seen := SeenKeys(Split(text), ToMap(updates));
    EntriesOfMap(updates);
    NothingAppended(updates, seen);
    forall entry | entry in updates
      ensures entry.0 in seen <==> entry.0 in ParseEnv(text)
    {
      var i :| 0 <= i < |updates| && updates[i] == entry;
      SeenIsAssigned(Split(text), ToMap(updates), entry.0);
      ParseEnvAt(text, entry.0);
    }
  }

  lemma EditedWithoutNew(lines: seq<JsString>, updates: Entries)
    requires lines != [] && Appended(updates, SeenKeys(lines, ToMap(updates))) == []
    ensures EditedLines(lines, updates) == UpdateLines(lines, ToMap(updates))
  {}

  /** With new lines, all the old ones are in front of others. */
  lemma EditedWithNew(lines: seq<JsString>, updates: Entries) returns (gap: seq<JsString>)
    requires lines != []
    ensures EditedLines(lines, updates)
         == UpdateLines(lines, ToMap(updates)) + (gap + Appended(updates, SeenKeys(lines, ToMap(updates))))
    ensures gap == [] || gap == [[]]
  {
    hide UpdateLines, Appended, SeenKeys, ToMap;
    var updated, append := UpdateLines(lines, ToMap(updates)), Appended(updates, SeenKeys(lines, ToMap(updates)));
    gap := if append == [] || updated[|updated| - 1] == [] then [] else [[]];
    assert updated + [[]] + append == updated + ([[]] + append);
    assert updated + ([] + append) == updated + append;
  }

  lemma GapAssignsNothing(gap: seq<JsString>, append: seq<JsString>, key: JsString)
    requires gap == [] || gap == [[]]
    ensures LastOf(gap + append, key) == LastOf(append, key)
    ensures Ending(gap + append) == Ending(append)
  {
    hide Assigned, TrimEnd;
    EmptyStays(0, key);
    EmptyIsBlank();
    LastOfConcat(gap, append, key);
    EndingConcat(gap, append);
    LastOfOne([], key);
    EndingOne([]);
    LastOfNothing(key);
    NoLinesEnd();
  }

  lemma {:induction false} CollapsedEnd(lines: seq<JsString>, run: nat)
    requires lines != []
    ensures var r := CollapseLines(lines, run); r != [] && r[|r| - 1] == lines[|lines| - 1]
    decreases |lines|
  {
    if |lines| > 1 {
      CollapsedEnd(lines[1..], 1);
      CollapsedEnd(lines[1..], run);
      CollapsedEnd(lines[1..], run + 1);
    }
  }

  lemma UpdatedEnd(lines: seq<JsString>, updates: Env)
    requires lines != [] && lines[|lines| - 1] == []
    ensures var r := UpdateLines(lines, updates); r[|r| - 1] == []
  {
    hide UpdateLine;
    UpdatedAt(lines, updates, |lines| - 1);
    UpdateEmpty(updates);
  }

  lemma UpdateEmpty(updates: Env)
    ensures UpdateLine([], updates) == []
  {
    assert ParseAssignmentLine([]) == None;
  }

  lemma {:induction false} UpdatedAt(lines: seq<JsString>, updates: Env, i: nat)
    requires i < |lines|
    ensures UpdateLines(lines, updates)[i] == UpdateLine(lines[i], updates)
    decreases |lines|
  {
    hide UpdateLine;
    if i > 0 {
      UpdatedAt(lines[1..], updates, i - 1);
    }
  }

  // ------------------------------------------------------------ lines that hide nothing

  /** The line assigns nothing to the key, but would if white space were cut off its end. */
  predicate Hides(line: JsString, key: JsString) {
    Assigned(line, key).None? && Assigned(TrimEnd(line), key).Some?
  }

  ghost predicate NoneHides(lines: seq<JsString>, key: JsString) {
    forall line :: line in lines ==> !Hides(line, key)
  }

  /** A text in which stripping brings nothing to light. */
  ghost predicate CleanText(text: JsString) {
    forall key :: NoneHides(Split(text), key)
  }

  lemma StrippedHides(line: JsString, n: nat, key: JsString)
    ensures Hides(StripN(line, n), key) ==> Hides(line, key)
    ensures !Hides(line, key) ==> Assigned(StripN(line, n), key) == Assigned(line, key)
  {
    hide ParseAssignmentLine, UnquoteEnvValue, StripN, TrimEnd;
    StripCuts(line, n);
    TrimShowsMore(line, n, key);
    if ParseAssignmentLine(line).Some? {
      StripKeeps(line, n);
    }
  }

  lemma {:induction false} CleanLinesStripped(lines: seq<JsString>, n: nat, m: nat, key: JsString)
    requires NoneHides(lines, key)
    ensures NoneHides(StripLines(lines, n, m), key)
    ensures LastOf(StripLines(lines, n, m), key) == LastOf(lines, key)
    decreases |lines|
  {
    hide Hides, StripN, Assigned;
    if |lines| == 1 {
      StrippedHides(lines[0], m, key);
      LastOfOne(lines[0], key);
      LastOfOne(StripN(lines[0], m), key);
      assert lines == [lines[0]];
    } else if lines != [] {
      StrippedHides(lines[0], n, key);
      CleanLinesStripped(lines[1..], n, m, key);
      LastOfStripCons(lines[0], lines[1..], n, m, key);
      assert lines == [lines[0]] + lines[1..];
    }
  }

  /** Trimming the last line that is not blank brings nothing to light either. */
  lemma {:induction false} CleanEnding(lines: seq<JsString>, key: JsString)
    requires NoneHides(lines, key)
    ensures Or(LastOf(lines, key), Assigned(Ending(lines), key)) == LastOf(lines, key)
    ensures Ending(lines) == [] ==> LastOf(lines, key) == None
    decreases |lines|
  {
    hide TrimEnd, ParseAssignmentLine, UnquoteEnvValue;
    EmptyIsBlank();
    AssignedOfBlank([], key);
    if lines != [] {
      assert !Hides(lines[0], key);
      CleanEnding(lines[1..], key);
      if ParseAssignmentLine(lines[0]).Some? {
        TrimKeeps(lines[0]);
      }
      if Blank(lines[0]) {
        AssignedOfBlank(lines[0], key);
      }
    }
  }

  lemma {:induction false} CollapsedIsPart(lines: seq<JsString>, run: nat)
    ensures forall line :: line in CollapseLines(lines, run) ==> line in lines
    decreases |lines|
  {
    if |lines| > 1 {
      CollapsedIsPart(lines[1..], 1);
      CollapsedIsPart(lines[1..], run);
      CollapsedIsPart(lines[1..], run + 1);
    }
  }

  lemma {:induction false} KeptIsPart(lines: seq<JsString>, keys: set<JsString>)
    ensures forall line :: line in KeepLines(lines, keys) ==> line in lines && KeepsOut(line, keys)
    decreases |lines|
  {
    hide ParseAssignmentLine;
    if lines != [] {
      KeptIsPart(lines[1..], keys);
    }
  }

  /** The line assigns none of the keys. */
  ghost predicate KeepsOut(line: JsString, keys: set<JsString>) {
    ParseAssignmentLine(line).Some? ==> ParseAssignmentLine(line).value.key !in keys
  }

  lemma TrimmedHidesNothing(line: JsString, key: JsString)
    requires TrimEnd(line) == line
    ensures !Hides(line, key)
  {}

  lemma {:induction false} UpdatedHidesNothing(lines: seq<JsString>, updates: Env, key: JsString)
    requires NoneHides(lines, key)
    ensures NoneHides(UpdateLines(lines, updates), key)
    decreases |lines|
  {
    hide Hides, UpdateLine, Updates, ParseAssignmentLine, TrimEnd;
    if lines != [] {
      if Updates(lines[0], updates) {
        UpdatedLine(lines[0], updates);
        TrimmedHidesNothing(UpdateLine(lines[0], updates), key);
      } else {
        NotUpdated(lines[0], updates);
      }
      UpdatedHidesNothing(lines[1..], updates, key);
    }
  }

  lemma {:induction false} AppendedHidesNothing(entries: Entries, seen: set<JsString>, key: JsString)
    requires forall i :: 0 <= i < |entries| ==> IsIdentifier(entries[i].0)
    ensures NoneHides(Appended(entries, seen), key)
    decreases |entries|
  {
    hide Hides, NewLine, IsIdentifier, TrimEnd, ParseAssignmentLine;
    if entries != [] {
      FreshLineShape(entries[0]);
      TrimmedHidesNothing(NewLine(entries[0]), key);
      AppendedHidesNothing(entries[1..], seen, key);
    }
  }

  lemma EmptyHidesNothing(key: JsString)
    ensures NoneHides([[]], key)
  {
    EmptyIsBlank();
    TrimmedHidesNothing([], key);
  }

  lemma EditedHidesNothing(lines: seq<JsString>, updates: Entries, key: JsString)
    requires lines != [] && NoneHides(lines, key) && DistinctKeys(updates) && IdentifierKeys(ToMap(updates))
    ensures NoneHides(EditedLines(lines, updates), key)
  {
    hide UpdateLines, Appended, SeenKeys, ToMap, IdentifierKeys, DistinctKeys, Hides;
    var u := ToMap(updates);
    EntriesAreIdentifiers(updates);
    UpdatedHidesNothing(lines, u, key);
    AppendedHidesNothing(updates, SeenKeys(lines, u), key);
    EmptyHidesNothing(key);
  }

  lemma EditStaysClean(content: JsString, updates: Entries, key: JsString)
    requires DistinctKeys(updates) && IdentifierKeys(ToMap(updates)) && NoneHides(Split(content), key)
    ensures NoneHides(Split(UpdateEnv(content, updates)), key)
  {
    hide Split, CollapseLines, EditedLines, StripLines, UpdateEnv, ToMap, IdentifierKeys, DistinctKeys, Hides, LastOf;
    var lines := EditedLines(Split(content), updates);
    UpdateEnvSplit(content, updates);
    EditedHidesNothing(Split(content), updates, key);
    CollapsedIsPart(lines, 0);
    assert NoneHides(CollapseLines(lines, 0), key);
    CleanLinesStripped(CollapseLines(lines, 0), 1, 0, key);
  }

  /** Where no line hides the key, an edit gives it the value asked for. */
  lemma EditPlainly(content: JsString, updates: Entries, key: JsString)
    requires DistinctKeys(updates) && IdentifierKeys(ToMap(updates)) && key != PROTO && NoneHides(Split(content), key)
    ensures At(ParseEnv(UpdateEnv(content, updates)), key) == At(EditedEnv(ParseEnv(content), ToMap(updates)), key)
  {
    hide *;
    var lines := EditedLines(Split(content), updates);
    UpdateEnvSplit(content, updates);
    EditedHidesNothing(Split(content), updates, key);
    CleanLinesStripped(lines, 1, 0, key);
    LastOfCollapsed(lines, 0, 1, 0, key);
    ParseEnvAt(UpdateEnv(content, updates), key);
    EditedLinesAt(Split(content), updates, key);
    ParseEnvIs(content);
  }

  lemma {:induction false} NeverProto(values: Env, lines: seq<JsString>)
    requires PROTO !in values
    ensures PROTO !in ParseLines(values, lines)
    decreases |lines|
  {
    hide ParseAssignmentLine, UnquoteEnvValue;
    if lines != [] {
      NeverProto(Put(values, lines[0]), lines[1..]);
    }
  }

  lemma SameEnv(a: Env, b: Env)
    requires forall key :: At(a, key) == At(b, key)
    ensures a == b
  {
    assert forall key :: key in a ==> At(a, key) == At(b, key);
    assert forall key :: key in b ==> At(a, key) == At(b, key);
  }

  lemma NeverCarried(before: Env, updates: Env)
    requires PROTO !in before
    ensures PROTO !in EditedEnv(before, updates)
  {
    hide HasSeparator;
  }

  /** An edit of a text that hides nothing hides nothing and has exactly the edited values. */
  lemma EditCleanText(text: JsString, updates: Entries)
    requires CleanText(text) && DistinctKeys(updates) && IdentifierKeys(ToMap(updates))
    ensures CleanText(UpdateEnv(text, updates))
    ensures ParseEnv(UpdateEnv(text, updates)) == EditedEnv(ParseEnv(text), ToMap(updates))
  {
    hide Split, ParseLines, UpdateEnv, ToMap, IdentifierKeys, DistinctKeys, EditedEnv, NoneHides;
    var after, asked := ParseEnv(UpdateEnv(text, updates)), EditedEnv(ParseEnv(text), ToMap(updates));
    NeverProto(map[], Split(text));
    NeverProto(map[], Split(UpdateEnv(text, updates)));
    NeverCarried(ParseEnv(text), ToMap(updates));
    forall key
      ensures NoneHides(Split(UpdateEnv(text, updates)), key)
      ensures At(after, key) == At(asked, key)
    {
      EditStaysClean(text, updates, key);
      if key != PROTO {
        EditPlainly(text, updates, key);
      }
    }
    SameEnv(after, asked);
  }
}
