/** Editing a dotenv text and parsing it again. */
module DotenvEditing {
  import opened JsStrings
  import opened TextLines
  import opened Dotenv
  import opened DotenvProofs
  import opened DotenvValues
  import JsonStrings

  ghost predicate IdentifierKeys(updates: Env) {
    forall k :: k in updates ==> IsIdentifier(k)
  }

  /** The values a dotenv line can carry, under keys an object literal can carry. */
  ghost predicate Storable(updates: Env) {
    forall k :: k in updates ==> k != PROTO && !HasSeparator(updates[k])
  }

  /** The updates that can be read back. */
  function Carried(updates: Env): Env {
    map k | k in updates && k != PROTO && !HasSeparator(updates[k]) :: updates[k]
  }

  function Restrict(updates: Env, keys: set<JsString>): Env {
    map k | k in keys && k in updates :: updates[k]
  }

  // ------------------------------------------------------------ one line

  /** What an edited line parses to. */
  lemma AssignParses(a: Assignment, value: JsString)
    requires WellFormed(a)
    ensures ParseAssignmentLine(Assign(a, value))
         == if HasSeparator(value) then None
            else Some(a.(valuePart := SerializeValue(value) + KeptComment(a.valuePart)))
    ensures UnquoteEnvValue(SerializeValue(value) + KeptComment(a.valuePart)) == value
    ensures InlineComment(SerializeValue(value) + KeptComment(a.valuePart))
         == CommentBehind(|SerializeValue(value)|, KeptComment(a.valuePart))
  {
    hide *;
    WellFormedParts(a);
    var tail := KeptComment(a.valuePart);
    KeptCommentIsTail(a.valuePart);
    SerializedEnds(value);
    SerializedTerminator(value, tail);
    UnquoteSerialized(value, tail);
    CommentBehindValue(value, tail);
    ParseAssignmentOf(a.prefix, a.key, a.separator, SerializeValue(value) + tail);
    AssignIs(a, value);
  }

  lemma WellFormedParts(a: Assignment)
    requires WellFormed(a)
    ensures IsPrefix(a.prefix) && IsIdentifier(a.key) && IsSeparator(a.separator) && !HasTerminator(a.valuePart)
  {}

  lemma AssignIs(a: Assignment, value: JsString)
    ensures Assign(a, value)
         == a.prefix + (a.key + (a.separator + (SerializeValue(value) + KeptComment(a.valuePart))))
  {}

  lemma EqualsSeparates()
    ensures IsSeparator([EQUALS]) && IsPrefix([]) && IsTail([]) && !HasTerminator([])
  {}

  lemma NewLineParses(entry: (JsString, JsString))
    requires IsIdentifier(entry.0)
    ensures ParseAssignmentLine(NewLine(entry))
         == if HasSeparator(entry.1) then None
            else Some(Assignment([], entry.0, [EQUALS], SerializeValue(entry.1)))
    ensures UnquoteEnvValue(SerializeValue(entry.1)) == entry.1
  {
    hide ParseAssignmentLine, IsSeparator, IsPrefix, IsIdentifier, HasTerminator, SerializeValue, UnquoteEnvValue,
         HasSeparator, IsTail;
    var s := SerializeValue(entry.1);
    EqualsSeparates();
    assert s + [] == s;
    SerializedEnds(entry.1);
    SerializedTerminator(entry.1, []);
    UnquoteSerialized(entry.1, []);
    ParseAssignmentOf([], entry.0, [EQUALS], s);
    assert NewLine(entry) == [] + (entry.0 + ([EQUALS] + s));
  }

  lemma PutUpdated(values: Env, line: JsString, updates: Env)
    requires Updates(line, updates)
    ensures var k := ParseAssignmentLine(line).value.key;
            Put(values, UpdateLine(line, updates))
            == if k == PROTO || HasSeparator(updates[k]) then values else values[k := updates[k]]
  {
    hide Assign, ParseAssignmentLine, SerializeValue, UnquoteEnvValue, KeptComment, HasSeparator, WellFormed;
    var a := ParseAssignmentLine(line).value;
    ParseAssignmentSound(line);
    AssignParses(a, updates[a.key]);
  }

  lemma PutNew(values: Env, entry: (JsString, JsString))
    requires IsIdentifier(entry.0)
    ensures Put(values, NewLine(entry))
         == if entry.0 == PROTO || HasSeparator(entry.1) then values else values[entry.0 := entry.1]
  {
    hide NewLine, ParseAssignmentLine, SerializeValue, UnquoteEnvValue, HasSeparator;
    NewLineParses(entry);
  }

  lemma PutBlank(values: Env)
    ensures Put(values, []) == values
  {}

  // ------------------------------------------------------------ lists of lines

  lemma {:induction false} ParseLinesConcat(values: Env, first: seq<JsString>, second: seq<JsString>)
    ensures ParseLines(values, first + second) == ParseLines(ParseLines(values, first), second)
    decreases |first|
  {
    hide Put;
    if first == [] {
      assert first + second == second;
    } else {
      assert (first + second)[1..] == first[1..] + second;
      ParseLinesConcat(Put(values, first[0]), first[1..], second);
    }
  }

  lemma ParseOneLine(values: Env, line: JsString)
    ensures ParseLines(values, [line]) == Put(values, line)
  {
    hide Put;
    assert [line][1..] == [];
  }

  lemma {:induction false} CollapseKeepsValues(values: Env, lines: seq<JsString>, run: nat)
    ensures ParseLines(values, CollapseLines(lines, run)) == ParseLines(values, lines)
    decreases |lines|
  {
    hide Put;
    PutBlank(values);
    if |lines| > 1 {
      if lines[0] != [] {
        CollapseKeepsValues(Put(values, lines[0]), lines[1..], 1);
        assert ([lines[0]] + CollapseLines(lines[1..], 1))[1..] == CollapseLines(lines[1..], 1);
      } else if run >= 2 {
        CollapseKeepsValues(values, lines[1..], run);
      } else {
        CollapseKeepsValues(values, lines[1..], run + 1);
        assert ([[]] + CollapseLines(lines[1..], run + 1))[1..] == CollapseLines(lines[1..], run + 1);
      }
    }
  }

  /** The old values of the keys not seen, and what the edit gives the keys seen. */
  function Edited(before: Env, updates: Env, keys: set<JsString>): Env {
    (before - keys) + Restrict(Carried(updates), keys)
  }

  lemma CarriedAt(updates: Env, k: JsString)
    requires k in updates
    ensures k in Carried(updates) <==> k != PROTO && !HasSeparator(updates[k])
    ensures k in Carried(updates) ==> Carried(updates)[k] == updates[k]
  {
    hide HasSeparator;
  }

  lemma RestrictAdd(updates: Env, keys: set<JsString>, k: JsString)
    ensures Restrict(updates, keys + {k})
         == if k in updates then Restrict(updates, keys)[k := updates[k]] else Restrict(updates, keys)
  {}

  lemma OverrideSeen(before: Env, updates: Env, keys: set<JsString>, k: JsString, value: JsString)
    requires k in updates && (k in before ==> k in keys)
    ensures var after := Edited(before, updates, keys);
            (if k == PROTO || HasSeparator(updates[k]) then after else after[k := updates[k]])
            == Edited(before[k := value], updates, keys + {k})
    ensures k == PROTO ==> Edited(before, updates, keys) == Edited(before, updates, keys + {k})
  {
    hide HasSeparator, Carried, Restrict;
    CarriedAt(updates, k);
    RestrictAdd(Carried(updates), keys, k);
    assert before[k := value] - (keys + {k}) == before - keys;
    assert before - (keys + {k}) == before - keys;
  }

  lemma OverrideOther(before: Env, updates: Env, keys: set<JsString>, k: JsString, value: JsString)
    requires k !in updates && keys <= updates.Keys
    ensures Edited(before, updates, keys)[k := value] == Edited(before[k := value], updates, keys)
  {
    hide HasSeparator;
  }

  lemma UpdateLineParses(before: Env, line: JsString, updates: Env, keys: set<JsString>)
    requires keys <= updates.Keys && before.Keys * updates.Keys <= keys
    ensures Put(Edited(before, updates, keys), UpdateLine(line, updates))
         == Edited(Put(before, line), updates, keys + SeenKey(line, updates))
    ensures Put(before, line).Keys * updates.Keys <= keys + SeenKey(line, updates)
  {
    hide Edited, UpdateLine, HasSeparator, ParseAssignmentLine, UnquoteEnvValue;
    var after := Edited(before, updates, keys);
    var parsed := ParseAssignmentLine(line);
    if Updates(line, updates) {
      PutUpdated(after, line, updates);
      OverrideSeen(before, updates, keys, parsed.value.key, UnquoteEnvValue(parsed.value.valuePart));
    } else {
      NotUpdated(line, updates);
      assert keys + {} == keys;
      if parsed.Some? {
        OverrideOther(before, updates, keys, parsed.value.key, UnquoteEnvValue(parsed.value.valuePart));
      }
    }
  }

  /** Rewriting the existing lines changes exactly the keys that were seen. */
  lemma {:induction false} UpdateLinesParse(before: Env, lines: seq<JsString>, updates: Env, keys: set<JsString>)
    requires keys <= updates.Keys && before.Keys * updates.Keys <= keys
    ensures ParseLines(Edited(before, updates, keys), UpdateLines(lines, updates))
         == Edited(ParseLines(before, lines), updates, keys + SeenKeys(lines, updates))
    ensures ParseLines(before, lines).Keys * updates.Keys <= keys + SeenKeys(lines, updates)
    decreases |lines|
  {
    hide Edited, UpdateLine, SeenKey, Put;
    if lines == [] {
      assert keys + {} == keys;
    } else {
      var line, rest := lines[0], lines[1..];
      var updated := UpdateLine(line, updates);
      assert ([updated] + UpdateLines(rest, updates))[1..] == UpdateLines(rest, updates);
      UpdateLineParses(before, line, updates, keys);
      UpdateLinesParse(Put(before, line), rest, updates, keys + SeenKey(line, updates));
      assert keys + SeenKey(line, updates) + SeenKeys(rest, updates) == keys + SeenKeys(lines, updates);
    }
  }

  lemma NotUpdated(line: JsString, updates: Env)
    requires !Updates(line, updates)
    ensures UpdateLine(line, updates) == line
    ensures ParseAssignmentLine(line).Some? ==> ParseAssignmentLine(line).value.key !in updates
  {}

  lemma TailIsDistinct(entries: Entries)
    requires DistinctKeys(entries) && entries != []
    ensures DistinctKeys(entries[1..])
    ensures forall i :: 0 <= i < |entries| - 1 ==> entries[1..][i] == entries[i + 1] && entries[i + 1].0 != entries[0].0
  {}

  lemma {:induction false} KeysOfMap(entries: Entries)
    ensures forall k :: k in ToMap(entries) ==> exists i :: 0 <= i < |entries| && entries[i].0 == k
    decreases |entries|
  {
    if entries != [] {
      var rest := entries[1..];
      KeysOfMap(rest);
      forall k | k in ToMap(entries)
        ensures exists i :: 0 <= i < |entries| && entries[i].0 == k
      {
        if k in ToMap(rest) {
          var i :| 0 <= i < |rest| && rest[i].0 == k;
          assert entries[i + 1].0 == k;
        } else {
          assert entries[0].0 == k;
        }
      }
    }
  }

  lemma {:induction false} EntryInMap(entries: Entries, i: nat)
    requires DistinctKeys(entries) && i < |entries|
    ensures entries[i].0 in ToMap(entries) && ToMap(entries)[entries[i].0] == entries[i].1
    decreases |entries|
  {
    hide DistinctKeys;
    TailIsDistinct(entries);
    if i > 0 {
      EntryInMap(entries[1..], i - 1);
    } else {
      HeadNotInTail(entries);
    }
  }

  lemma HeadNotInTail(entries: Entries)
    requires DistinctKeys(entries) && entries != []
    ensures entries[0].0 !in ToMap(entries[1..])
  {
    hide DistinctKeys, ToMap;
    TailIsDistinct(entries);
    KeysOfMap(entries[1..]);
  }

  lemma EntriesOfMap(entries: Entries)
    requires DistinctKeys(entries)
    ensures forall i :: 0 <= i < |entries| ==> entries[i].0 in ToMap(entries) && ToMap(entries)[entries[i].0] == entries[i].1
    ensures forall k :: k in ToMap(entries) ==> exists i :: 0 <= i < |entries| && entries[i].0 == k
  {
    hide ToMap, DistinctKeys;
    KeysOfMap(entries);
    forall i | 0 <= i < |entries|
      ensures entries[i].0 in ToMap(entries) && ToMap(entries)[entries[i].0] == entries[i].1
    {
      EntryInMap(entries, i);
    }
  }

  lemma CarriedCons(k: JsString, v: JsString, rest: Env)
    requires k !in rest
    ensures Carried(map[k := v] + rest)
         == (if k == PROTO || HasSeparator(v) then map[] else map[k := v]) + Carried(rest)
  {
    hide HasSeparator;
  }

  lemma ToMapCons(entries: Entries, seen: set<JsString>, values: Env)
    requires entries != [] && entries[0].0 !in ToMap(entries[1..])
    ensures var (k, v), rest := entries[0], ToMap(entries[1..]);
            values + (Carried(ToMap(entries)) - seen)
            == (if k in seen || k == PROTO || HasSeparator(v) then values else values[k := v]) + (Carried(rest) - seen)
  {
    hide HasSeparator, Carried, ToMap;
    var (k, v) := entries[0];
    var rest := ToMap(entries[1..]);
    ToMapFirst(entries);
    CarriedCons(k, v, rest);
    CarriedKeys(rest);
    AddFirst(values, k, v, Carried(rest), seen);
  }

  lemma CarriedKeys(updates: Env)
    ensures Carried(updates).Keys <= updates.Keys
  {
    hide HasSeparator;
  }

  lemma ToMapFirst(entries: Entries)
    requires entries != []
    ensures ToMap(entries) == map[entries[0].0 := entries[0].1] + ToMap(entries[1..])
  {}

  lemma AddFirst(values: Env, k: JsString, v: JsString, rest: Env, seen: set<JsString>)
    requires k !in rest
    ensures values + ((map[k := v] + rest) - seen)
         == (if k in seen then values else values[k := v]) + (rest - seen)
    ensures map[] + rest == rest
  {}

  lemma NothingToAppend(values: Env, seen: set<JsString>)
    ensures ParseLines(values, Appended([], seen)) == values + (Carried(ToMap([])) - seen)
  {
    assert values + (Carried(ToMap([])) - seen) == values;
  }

  lemma AppendedFirst(entries: Entries, seen: set<JsString>)
    requires entries != []
    ensures Appended(entries, seen)
         == if entries[0].0 in seen then Appended(entries[1..], seen)
            else [NewLine(entries[0])] + Appended(entries[1..], seen)
  {
    hide NewLine;
    assert [] + Appended(entries[1..], seen) == Appended(entries[1..], seen);
  }

  lemma {:induction false} AppendedParse(values: Env, entries: Entries, seen: set<JsString>)
    requires DistinctKeys(entries) && forall i :: 0 <= i < |entries| ==> IsIdentifier(entries[i].0)
    ensures ParseLines(values, Appended(entries, seen)) == values + (Carried(ToMap(entries)) - seen)
    decreases |entries|
  {
    hide NewLine, HasSeparator, IsIdentifier, Put, ToMap, ParseLines, Carried, Appended, DistinctKeys;
    if entries == [] {
      NothingToAppend(values, seen);
    } else {
      var entry, rest := entries[0], entries[1..];
      TailIsDistinct(entries);
      HeadNotInTail(entries);
      ToMapCons(entries, seen, values);
      AppendedFirst(entries, seen);
      if entry.0 in seen {
        AppendedParse(values, rest, seen);
      } else {
        PutNew(values, entry);
        AppendedParse(Put(values, NewLine(entry)), rest, seen);
        ParseOneLine(values, NewLine(entry));
        ParseLinesConcat(values, [NewLine(entry)], Appended(rest, seen));
      }
    }
  }

  lemma EditedLinesParts(values: Env, lines: seq<JsString>, updates: Entries)
    requires lines != []
    ensures var u := ToMap(updates);
            ParseLines(values, EditedLines(lines, updates))
            == ParseLines(ParseLines(values, UpdateLines(lines, u)), Appended(updates, SeenKeys(lines, u)))
  {
    hide UpdateLines, Appended, SeenKeys, Put;
    var u := ToMap(updates);
    var updated, append := UpdateLines(lines, u), Appended(updates, SeenKeys(lines, u));
    ParseLinesConcat(values, updated, append);
    ParseLinesConcat(values, updated, [[]]);
    ParseLinesConcat(values, updated + [[]], append);
    ParseOneLine(ParseLines(values, updated), []);
    PutBlank(ParseLines(values, updated));
  }

  lemma EditedAndRest(parsed: Env, u: Env, seen: set<JsString>)
    requires seen <= u.Keys && parsed.Keys * u.Keys <= seen
    ensures Edited(parsed, u, seen) + (Carried(u) - seen) == (parsed - u.Keys) + Carried(u)
  {
    hide HasSeparator;
  }

  lemma NothingEdited(u: Env)
    ensures Edited(map[], u, {}) == map[]
  {}

  /** The exact effect of an edit: every updated key has its new value, or is gone when no line can carry it. */
  lemma EditedLinesParse(lines: seq<JsString>, updates: Entries)
    requires lines != [] && DistinctKeys(updates) && IdentifierKeys(ToMap(updates))
    ensures ParseLines(map[], EditedLines(lines, updates))
         == (ParseLines(map[], lines) - ToMap(updates).Keys) + Carried(ToMap(updates))
  {
    hide UpdateLines, Appended, EditedLines, ParseLines, HasSeparator, IsIdentifier, ToMap, Edited, Carried, SeenKeys;
    var u := ToMap(updates);
    var seen := SeenKeys(lines, u);
    EditedLinesParts(map[], lines, updates);
    UpdateLinesParse(map[], lines, u, {});
    NothingEdited(u);
    assert {} + seen == seen;
    EntriesOfMap(updates);
    AppendedParse(ParseLines(map[], UpdateLines(lines, u)), updates, seen);
    EditedAndRest(ParseLines(map[], lines), u, seen);
  }

  lemma CarriesAll(original: Env, updates: Env)
    ensures (original - updates.Keys) + Carried(updates) == original + updates <==> Storable(updates)
  {
    hide HasSeparator;
    var edited := (original - updates.Keys) + Carried(updates);
    if Storable(updates) {
      assert edited == original + updates;
    } else {
      var k :| k in updates && (k == PROTO || HasSeparator(updates[k]));
      assert k !in edited && k in original + updates;
    }
  }

  // ------------------------------------------------------------ the text

  lemma JoinSplit(lines: seq<JsString>)
    requires lines != [] && SingleLines(lines) && NoTrailingCR(lines)
    ensures Split(Collapse(Join(lines), 0)) == CollapseLines(lines, 0)
  {
    hide Split, Collapse, Join;
    CollapseJoin(lines, 0);
    CollapseKeepsShape(lines, 0);
    SplitJoin(CollapseLines(lines, 0));
  }

  lemma {:induction false} CollapseKeepsShape(lines: seq<JsString>, run: nat)
    ensures SingleLines(lines) ==> SingleLines(CollapseLines(lines, run))
    ensures NoTrailingCR(lines) ==> NoTrailingCR(CollapseLines(lines, run))
    decreases |lines|
  {
    if |lines| > 1 {
      CollapseKeepsShape(lines[1..], 1);
      CollapseKeepsShape(lines[1..], run + 1);
      CollapseKeepsShape(lines[1..], run);
    }
  }

  predicate SingleLine(line: JsString) {
    LF !in line && !EndsWithCR(line)
  }

  lemma FreshLine(front: JsString, value: JsString, tail: JsString)
    requires LF !in front && IsTail(tail) && !HasTerminator(tail)
    ensures SingleLine(front + (SerializeValue(value) + tail))
  {
    hide IsSpace, SerializeValue, IsTail;
    var s := SerializeValue(value);
    var line := front + (s + tail);
    SerializedEnds(value);
    TailEnds(tail);
    NoLFInSerialized(value, tail);
    assert line[|line| - 1] == if tail == [] then s[|s| - 1] else tail[|tail| - 1];
    CarriageReturnIsSpace();
    assert forall c :: c in line ==> c in front || c in s + tail;
  }

  lemma CarriageReturnIsSpace()
    ensures IsSpace(CR)
  {}

  lemma TailEnds(tail: JsString)
    requires IsTail(tail)
    ensures tail != [] ==> !IsSpace(tail[|tail| - 1])
  {}

  lemma NoLFInSerialized(value: JsString, tail: JsString)
    requires !HasTerminator(tail)
    ensures LF !in SerializeValue(value) + tail
  {
    hide JsonStrings.Stringify, NeedsQuotes, HasTerminator;
    var s := SerializeValue(value);
    TerminatorIn(tail);
    if value != [] && NeedsQuotes(value) {
      JsonStrings.EscapeTerminators(value);
      assert JsonStrings.Stringify(value)
          == [DOUBLE_QUOTE] + (JsonStrings.EscapeBody(value) + [DOUBLE_QUOTE]) by { StringifyIs(value); }
      assert forall c :: c in s ==> c == DOUBLE_QUOTE || c in JsonStrings.EscapeBody(value);
    } else if value != [] {
      RawHasNoTerminator(value);
      TerminatorIn(value);
    }
  }

  lemma StringifyIs(value: JsString)
    ensures JsonStrings.Stringify(value) == [DOUBLE_QUOTE] + (JsonStrings.EscapeBody(value) + [DOUBLE_QUOTE])
  {}

  lemma UpdateLineIsSingle(line: JsString, updates: Env)
    requires LF !in line && (Updates(line, updates) || !EndsWithCR(line))
    ensures SingleLine(UpdateLine(line, updates))
  {
    hide ParseAssignmentLine, SerializeValue, KeptComment, EndsWithCR, IsPrefix, IsIdentifier, IsSeparator, IsTail,
         HasTerminator;
    if Updates(line, updates) {
      var a := ParseAssignmentLine(line).value;
      ParseAssignmentSound(line);
      var front, value, tail := a.prefix + (a.key + a.separator), updates[a.key], KeptComment(a.valuePart);
      assert line == front + a.valuePart;
      KeptCommentIsTail(a.valuePart);
      FreshLine(front, value, tail);
      assert UpdateLine(line, updates) == front + (SerializeValue(value) + tail);
    }
  }

  lemma {:induction false} UpdateLinesShape(lines: seq<JsString>, updates: Env)
    requires SingleLines(lines) && NoTrailingCR(lines)
    ensures var r := UpdateLines(lines, updates);
            SingleLines(r) && NoTrailingCR(r)
    decreases |lines|
  {
    if lines != [] {
      hide UpdateLine, Updates, EndsWithCR;
      UpdateLineIsSingle(lines[0], updates);
      UpdateLinesShape(lines[1..], updates);
    }
  }

  lemma NewLineIsSingle(entry: (JsString, JsString))
    requires IsIdentifier(entry.0)
    ensures SingleLine(NewLine(entry))
  {
    hide SerializeValue, EndsWithCR;
    LineFeedIsNotIdent();
    EqualsSeparates();
    assert LF !in entry.0 + [EQUALS];
    FreshLine(entry.0 + [EQUALS], entry.1, []);
    assert NewLine(entry) == (entry.0 + [EQUALS]) + (SerializeValue(entry.1) + []);
  }

  lemma LineFeedIsNotIdent()
    ensures !IdentPart(LF)
  {}

  lemma {:induction false} AppendedShape(entries: Entries, seen: set<JsString>)
    requires forall i :: 0 <= i < |entries| ==> IsIdentifier(entries[i].0)
    ensures var r := Appended(entries, seen);
            SingleLines(r) && NoTrailingCR(r)
    decreases |entries|
  {
    if entries != [] {
      hide NewLine, IsIdentifier, EndsWithCR;
      NewLineIsSingle(entries[0]);
      AppendedShape(entries[1..], seen);
    }
  }

  lemma EditedLinesShape(lines: seq<JsString>, updates: Entries)
    requires lines != [] && SingleLines(lines) && NoTrailingCR(lines)
    requires DistinctKeys(updates) && IdentifierKeys(ToMap(updates))
    ensures var r := EditedLines(lines, updates);
            SingleLines(r) && NoTrailingCR(r)
  {
    hide UpdateLines, Appended, SeenKeys, ToMap, IsIdentifier;
    EntriesOfMap(updates);
    UpdateLinesShape(lines, ToMap(updates));
    AppendedShape(updates, SeenKeys(lines, ToMap(updates)));
  }

  lemma UpdateEnvLines(content: JsString, updates: Entries)
    requires DistinctKeys(updates) && IdentifierKeys(ToMap(updates)) && NoTrailingCR(Split(content))
    ensures Split(UpdateEnv(content, updates)) == CollapseLines(EditedLines(Split(content), updates), 0)
    ensures ParseEnv(UpdateEnv(content, updates)) == ParseLines(map[], EditedLines(Split(content), updates))
  {
    hide Split, EditedLines, Collapse, Join, ParseLines, ToMap, CollapseLines;
    var edited := EditedLines(Split(content), updates);
    SplitIsSingleLines(content);
    EditedLinesShape(Split(content), updates);
    JoinSplit(edited);
    CollapseKeepsValues(map[], edited, 0);
  }

  /**
   Parsing an edited text gives the old values overridden by the updates,
   exactly when every update is storable. Prefixes, comments, duplicate keys,
   quotes, backslashes and blank lines are all covered.
   */
  lemma EditThenParse(content: JsString, updates: Entries)
    requires DistinctKeys(updates) && IdentifierKeys(ToMap(updates))
    requires NoTrailingCR(Split(content))
    ensures ParseEnv(UpdateEnv(content, updates)) == (ParseEnv(content) - ToMap(updates).Keys) + Carried(ToMap(updates))
    ensures ParseEnv(UpdateEnv(content, updates)) == ParseEnv(content) + ToMap(updates)
       <==> Storable(ToMap(updates))
  {
    hide Split, EditedLines, ParseLines, ToMap, UpdateEnv, IsIdentifier, HasSeparator, Carried, Storable;
    UpdateEnvLines(content, updates);
    EditedLinesParse(Split(content), updates);
    CarriesAll(ParseEnv(content), ToMap(updates));
  }
}
