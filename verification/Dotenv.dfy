/** The dotenv parser, printer and in-place editor of electron/server-manager.js. */
module Dotenv {
  import opened JsStrings
  import opened TextLines
  import JsonStrings

  // ------------------------------------------------------------ inline comments

  function Later(index: Option<nat>): Option<nat> {
    match index
    case None => None
    case Some(i) => Some(i + 1)
  }

  /** The quote that is open behind `c`. */
  function NextQuote(c: CodeUnit, quote: Option<CodeUnit>, escaped: bool): Option<CodeUnit> {
    if escaped || c == BACKSLASH then quote
    else if quote.Some? then (if quote.value == c then None else quote)
    else if c == DOUBLE_QUOTE || c == SINGLE_QUOTE then Some(c)
    else None
  }

  /**
   Index of the inline comment in `s`. `boundary` says whether `s` starts at
   the beginning of the value or behind white space.
   */
  function FindComment(s: JsString, boundary: bool, quote: Option<CodeUnit>, escaped: bool): (r: Option<nat>)
    ensures r.Some? ==> r.value < |s| && s[r.value] == HASH
  {
    if s == [] then None
    else if s[0] == HASH && !escaped && quote.None? && boundary then Some(0)
    else
      Later(FindComment(s[1..], IsSpace(s[0]), NextQuote(s[0], quote, escaped), !escaped && s[0] == BACKSLASH))
  }

  function InlineComment(valuePart: JsString): Option<nat> {
    FindComment(valuePart, true, None, false)
  }

  function Shift(index: Option<nat>, offset: nat): Option<nat> {
    match index
    case None => None
    case Some(i) => Some(i + offset)
  }

  /** The scanning loop; -1 when there is no comment. */
  method FindInlineCommentIndex(valuePart: JsString) returns (index: int)
    ensures index == match InlineComment(valuePart) case None => -1 case Some(i) => i
  {
    hide IsSpace, FindComment;
    var quote: Option<CodeUnit> := None;
    var escaped := false;
    var i := 0;
    while i < |valuePart|
      invariant 0 <= i <= |valuePart|
      invariant InlineComment(valuePart) ==
                Shift(FindComment(valuePart[i..], i == 0 || IsSpace(valuePart[i - 1]), quote, escaped), i)
    {
      var c := valuePart[i];
      FindCommentStep(valuePart, i, i == 0 || IsSpace(valuePart[i - 1]), quote, escaped);
      if escaped {
        escaped := false;
      } else if c == BACKSLASH {
        escaped := true;
      } else if quote.Some? {
        if c == quote.value {
          quote := None;
        }
      } else if c == DOUBLE_QUOTE || c == SINGLE_QUOTE {
        quote := Some(c);
      } else if c == HASH && (i == 0 || IsSpace(valuePart[i - 1])) {
        return i;
      }
      i := i + 1;
    }
    FindCommentEnd(valuePart, |valuePart| == 0 || IsSpace(valuePart[|valuePart| - 1]), quote, escaped);
    return -1;
  }

  lemma FindCommentStep(s: JsString, i: nat, boundary: bool, quote: Option<CodeUnit>, escaped: bool)
    requires i < |s|
    ensures FindComment(s[i..], boundary, quote, escaped)
         == if s[i] == HASH && !escaped && quote.None? && boundary then Some(0)
            else Later(FindComment(s[i + 1..], IsSpace(s[i]), NextQuote(s[i], quote, escaped),
                                   !escaped && s[i] == BACKSLASH))
  {
    assert s[i..][1..] == s[i + 1..];
  }

  lemma FindCommentEnd(s: JsString, boundary: bool, quote: Option<CodeUnit>, escaped: bool)
    ensures FindComment(s[|s|..], boundary, quote, escaped) == None
  {}

  // ------------------------------------------------------------ assignment lines

  /** The text in front of the key, the key, the text around `=` and the rest of the line. */
  datatype Assignment = Assignment(prefix: JsString, key: JsString, separator: JsString, valuePart: JsString)

  const EXPORT: JsString := [0x65, 0x78, 0x70, 0x6F, 0x72, 0x74]

  predicate IdentStart(c: CodeUnit) {
    IsLetter(c) || c == UNDERSCORE
  }

  predicate IdentPart(c: CodeUnit) {
    IdentStart(c) || IsDigit(c)
  }

  function PartRun(s: JsString): (n: nat)
    ensures n <= |s|
    ensures n < |s| ==> !IdentPart(s[n])
  {
    if s == [] || !IdentPart(s[0]) then 0 else PartRun(s[1..]) + 1
  }

  /** Length of the identifier at the start of `s`, 0 when there is none. */
  function IdentRun(s: JsString): (n: nat)
    ensures n <= |s|
  {
    if s == [] || !IdentStart(s[0]) then 0 else PartRun(s)
  }

  predicate HasTerminator(s: JsString) {
    exists i :: 0 <= i < |s| && IsLineTerminator(s[i])
  }

  /** Key, separator and value, once the prefix has been matched. */
  function ParseKeyed(prefix: JsString, text: JsString): Option<Assignment> {
    var k := IdentRun(text);
    var afterKey := text[k..];
    var a := SpaceRun(afterKey);
    if k == 0 || a == |afterKey| || afterKey[a] != EQUALS then None
    else
      var afterEquals := afterKey[a + 1..];
      var b := SpaceRun(afterEquals);
      if HasTerminator(afterEquals[b..]) then None
      else Some(Assignment(prefix, text[..k], afterKey[..a + 1 + b], afterEquals[b..]))
  }

  /**
   The match of `^(\s*(?:export\s+)?)([A-Za-z_][A-Za-z0-9_]*)(\s*=\s*)(.*)$`:
   with `export` as part of the prefix when that leads to a match, else without.
   */
  function ParseAssignmentLine(line: JsString): Option<Assignment> {
    var a := SpaceRun(line);
    var rest := line[a..];
    if EXPORT <= rest && SpaceRun(rest[6..]) > 0 then
      var b := 6 + SpaceRun(rest[6..]);
      match ParseKeyed(line[..a + b], rest[b..])
      case Some(assignment) => Some(assignment)
      case None => ParseKeyed(line[..a], rest)
    else ParseKeyed(line[..a], rest)
  }

  // ------------------------------------------------------------ values

  predicate OddBackslashRunBefore(value: JsString, index: nat)
    requires index <= |value|
  {
    index > 0 && value[index - 1] == BACKSLASH && !OddBackslashRunBefore(value, index - 1)
  }

  function ClosingIndex(value: JsString, quote: CodeUnit, from: nat): (i: nat)
    requires from <= |value|
    ensures from <= i <= |value|
    decreases |value| - from
  {
    if from == |value| || (value[from] == quote && !OddBackslashRunBefore(value, from)) then from
    else ClosingIndex(value, quote, from + 1)
  }

  /** `replace(/"/g, '\\"')` */
  function EscapeQuotes(s: JsString): JsString {
    if s == [] then []
    else (if s[0] == DOUBLE_QUOTE then [BACKSLASH, DOUBLE_QUOTE] else [s[0]]) + EscapeQuotes(s[1..])
  }

  /** `replace(/\\c/g, c)` for one character c */
  function DropEscape(s: JsString, c: CodeUnit): JsString
    decreases |s|
  {
    if s == [] then []
    else if |s| > 1 && s[0] == BACKSLASH && s[1] == c then [c] + DropEscape(s[2..], c)
    else [s[0]] + DropEscape(s[1..], c)
  }

  /** Hand-written values that are not complete JSON strings. */
  function DecodeLegacy(value: JsString): JsString {
    if value == [] || (value[0] != DOUBLE_QUOTE && value[0] != SINGLE_QUOTE) then value
    else
      var inner := value[1..ClosingIndex(value, value[0], 1)];
      if value[0] == SINGLE_QUOTE then inner
      else
        match JsonStrings.Parse([DOUBLE_QUOTE] + EscapeQuotes(inner) + [DOUBLE_QUOTE])
        case Some(decoded) => decoded
        case None => DropEscape(DropEscape(inner, DOUBLE_QUOTE), BACKSLASH)
  }

  function DecodeValue(value: JsString): JsString {
    if value != [] && value[0] == DOUBLE_QUOTE && value[|value| - 1] == DOUBLE_QUOTE then
      match JsonStrings.Parse(value)
      case Some(decoded) => decoded
      case None => DecodeLegacy(value)
    else DecodeLegacy(value)
  }

  function UnquoteEnvValue(valuePart: JsString): JsString {
    var value := Trim(valuePart);
    match InlineComment(value)
    case Some(i) => DecodeValue(Trim(value[..i]))
    case None => DecodeValue(value)
  }

  predicate NeedsQuotes(v: JsString) {
    exists i :: 0 <= i < |v| &&
      (IsSpace(v[i]) || v[i] == HASH || v[i] == DOUBLE_QUOTE || v[i] == SINGLE_QUOTE)
  }

  function SerializeValue(v: JsString): JsString {
    if v == [] then [DOUBLE_QUOTE, DOUBLE_QUOTE]
    else if NeedsQuotes(v) then JsonStrings.Stringify(v)
    else v
  }

  // ------------------------------------------------------------ whole files

  type Env = map<JsString, JsString>

  /** Assigning a string to this property of an object literal has no effect. */
  const PROTO: JsString := [0x5F, 0x5F, 0x70, 0x72, 0x6F, 0x74, 0x6F, 0x5F, 0x5F]

  function Put(values: Env, line: JsString): Env {
    match ParseAssignmentLine(line)
    case None => values
    case Some(a) => if a.key == PROTO then values else values[a.key := UnquoteEnvValue(a.valuePart)]
  }

  function ParseLines(values: Env, lines: seq<JsString>): Env
    decreases |lines|
  {
    if lines == [] then values else ParseLines(Put(values, lines[0]), lines[1..])
  }

  function ParseEnv(content: JsString): Env {
    ParseLines(map[], Split(content))
  }

  method ParseEnvContent(content: JsString) returns (values: Env)
    ensures values == ParseEnv(content)
  {
    values := map[];
    var lines := Split(content);
    var i := 0;
    while i < |lines|
      invariant 0 <= i <= |lines|
      invariant ParseLines(map[], lines) == ParseLines(values, lines[i..])
    {
      var parsed := ParseAssignmentLine(lines[i]);
      assert lines[i..][1..] == lines[i + 1..];
      if parsed.Some? && parsed.value.key != PROTO {
        values := values[parsed.value.key := UnquoteEnvValue(parsed.value.valuePart)];
      }
      i := i + 1;
    }
  }

  // ------------------------------------------------------------ editing

  /** The own entries of a JavaScript object, in insertion order. */
  type Entries = seq<(JsString, JsString)>

  ghost predicate DistinctKeys(entries: Entries) {
    forall i, j :: 0 <= i < j < |entries| ==> entries[i].0 != entries[j].0
  }

  function ToMap(entries: Entries): Env
    decreases |entries|
  {
    if entries == [] then map[] else map[entries[0].0 := entries[0].1] + ToMap(entries[1..])
  }

  /** The inline comment is kept, one space behind the new value. */
  function KeptComment(valuePart: JsString): JsString {
    match InlineComment(valuePart)
    case None => []
    case Some(i) => [SPACE] + Trim(valuePart[i..])
  }

  function Assign(a: Assignment, value: JsString): JsString {
    a.prefix + (a.key + (a.separator + (SerializeValue(value) + KeptComment(a.valuePart))))
  }

  predicate Updates(line: JsString, updates: Env) {
    var parsed := ParseAssignmentLine(line);
    parsed.Some? && parsed.value.key in updates
  }

  function UpdateLine(line: JsString, updates: Env): JsString {
    if Updates(line, updates) then
      var a := ParseAssignmentLine(line).value;
      Assign(a, updates[a.key])
    else line
  }

  function UpdateLines(lines: seq<JsString>, updates: Env): (r: seq<JsString>)
    ensures |r| == |lines|
    decreases |lines|
  {
    if lines == [] then []
    else [UpdateLine(lines[0], updates)] + UpdateLines(lines[1..], updates)
  }

  function SeenKey(line: JsString, updates: Env): (keys: set<JsString>)
    ensures keys <= updates.Keys
  {
    if Updates(line, updates) then {ParseAssignmentLine(line).value.key} else {}
  }

  function SeenKeys(lines: seq<JsString>, updates: Env): (keys: set<JsString>)
    ensures keys <= updates.Keys
    decreases |lines|
  {
    if lines == [] then {} else SeenKey(lines[0], updates) + SeenKeys(lines[1..], updates)
  }

  function NewLine(entry: (JsString, JsString)): JsString {
    entry.0 + ([EQUALS] + SerializeValue(entry.1))
  }

  function Appended(entries: Entries, seen: set<JsString>): (r: seq<JsString>)
    decreases |entries|
  {
    if entries == [] then []
    else (if entries[0].0 in seen then [] else [NewLine(entries[0])]) + Appended(entries[1..], seen)
  }

  /** Lines after an edit, before blank lines are collapsed. */
  function EditedLines(lines: seq<JsString>, updates: Entries): (r: seq<JsString>)
    requires lines != []
    ensures r != []
  {
    var updated := UpdateLines(lines, ToMap(updates));
    var append := Appended(updates, SeenKeys(lines, ToMap(updates)));
    if append == [] then updated
    else if updated[|updated| - 1] != [] then updated + [[]] + append
    else updated + append
  }

  function UpdateEnv(content: JsString, updates: Entries): JsString {
    Collapse(Join(EditedLines(Split(content), updates)), 0)
  }

  /** The pass over the existing lines. */
  method RewriteLines(original: seq<JsString>, changes: Env) returns (lines: seq<JsString>, seen: set<JsString>)
    ensures lines == UpdateLines(original, changes) && seen == SeenKeys(original, changes)
  {
    hide UpdateLine, Updates;
    seen := {};
    lines := [];
    var i := 0;
    while i < |original|
      invariant 0 <= i <= |original|
      invariant UpdateLines(original, changes) == lines + UpdateLines(original[i..], changes)
      invariant SeenKeys(original, changes) == seen + SeenKeys(original[i..], changes)
    {
      UpdateStep(original, changes, i, lines, seen);
      if Updates(original[i], changes) {
        UpdatesHasKey(original[i], changes);
        seen := seen + {ParseAssignmentLine(original[i]).value.key};
      }
      lines := lines + [UpdateLine(original[i], changes)];
      i := i + 1;
    }
  }

  lemma UpdatesHasKey(line: JsString, changes: Env)
    requires Updates(line, changes)
    ensures ParseAssignmentLine(line).Some?
  {}

  lemma UpdateStep(original: seq<JsString>, changes: Env, i: nat, lines: seq<JsString>, seen: set<JsString>)
    requires i < |original|
    ensures lines + UpdateLines(original[i..], changes)
         == lines + [UpdateLine(original[i], changes)] + UpdateLines(original[i + 1..], changes)
    ensures var key := if Updates(original[i], changes) then {ParseAssignmentLine(original[i]).value.key} else {};
            seen + SeenKeys(original[i..], changes) == seen + key + SeenKeys(original[i + 1..], changes)
  {
    hide UpdateLine;
    assert original[i..][1..] == original[i + 1..];
  }

  method NewLines(updates: Entries, seen: set<JsString>) returns (append: seq<JsString>)
    ensures append == Appended(updates, seen)
  {
    hide Appended, NewLine;
    append := [];
    AppendedStep(updates, seen, 0, []);
    var i := 0;
    while i < |updates|
      invariant 0 <= i <= |updates|
      invariant Appended(updates, seen) == append + Appended(updates[i..], seen)
    {
      AppendedStep(updates, seen, i, append);
      if updates[i].0 !in seen {
        append := append + [NewLine(updates[i])];
      }
      i := i + 1;
    }
    AppendedStep(updates, seen, i, append);
  }

  lemma AppendedStep(updates: Entries, seen: set<JsString>, i: nat, append: seq<JsString>)
    requires i <= |updates|
    ensures i == 0 ==> Appended(updates, seen) == [] + Appended(updates[0..], seen)
    ensures i == |updates| ==> append + Appended(updates[i..], seen) == append
    ensures i < |updates| ==>
              append + Appended(updates[i..], seen)
              == append + (if updates[i].0 in seen then [] else [NewLine(updates[i])]) + Appended(updates[i + 1..], seen)
  {
    assert updates[0..] == updates;
    if i < |updates| {
      assert updates[i..][1..] == updates[i + 1..];
    }
  }

  method UpdateEnvContent(content: JsString, updates: Entries) returns (text: JsString)
    ensures text == UpdateEnv(content, updates)
  {
    hide UpdateLines, SeenKeys, Appended, Split, Join, Collapse, ToMap;
    var lines, seen := RewriteLines(Split(content), ToMap(updates));
    var append := NewLines(updates, seen);
    if append != [] {
      if lines[|lines| - 1] != [] {
        lines := lines + [[]];
      }
      lines := lines + append;
    }
    text := Collapse(Join(lines), 0);
  }

  function KeepLines(lines: seq<JsString>, keys: set<JsString>): seq<JsString>
    decreases |lines|
  {
    if lines == [] then []
    else
      var parsed := ParseAssignmentLine(lines[0]);
      (if parsed.Some? && parsed.value.key in keys then [] else [lines[0]]) + KeepLines(lines[1..], keys)
  }

  /** `removeEnvKeysFromContent` for a non-empty set of keys. */
  function RemoveEnvKeys(content: JsString, keys: set<JsString>): JsString {
    Collapse(Join(KeepLines(Split(content), keys)), 0)
  }
}
