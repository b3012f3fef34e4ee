/** The highest version that ever ran, as electron/server-manager.js records it. */
module VersionHistory {
  import opened JsStrings
  import opened Versions
  import SemVer

  // ------------------------------------------------------------ concrete versions

  /** The text behind a run of digits, None when there is no digit. */
  function AfterDigits(s: JsString): Option<JsString> {
    if DigitRun(s) == 0 then None else Some(s[DigitRun(s)..])
  }

  function AfterDot(s: Option<JsString>): Option<JsString> {
    if s.None? || s.value == [] || s.value[0] != DOT then None else Some(s.value[1..])
  }

  function AfterNumber(s: Option<JsString>): Option<JsString> {
    if s.None? then None else AfterDigits(s.value)
  }

  /** `[0-9A-Za-z.-]` */
  predicate VersionUnit(c: CodeUnit) {
    IsDigit(c) || IsLetter(c) || c == DOT || c == HYPHEN
  }

  /** `^\\d+\\.\\d+\\.\\d+(?:-[0-9A-Za-z.-]+)?$` */
  predicate IsConcrete(s: JsString) {
    var rest := AfterNumber(AfterDot(AfterNumber(AfterDot(AfterDigits(s)))));
    rest.Some? &&
    (rest.value == [] ||
     (rest.value[0] == HYPHEN && |rest.value| > 1
      && forall c :: c in rest.value[1..] ==> VersionUnit(c)))
  }

  /** The normal form of a concrete version; empty for moving and custom tags. */
  function TrackableServerVersion(value: JsString): JsString {
    var normalized := NormalizeVersion(value);
    if IsConcrete(normalized) then normalized else []
  }

  function HighestServerVersion(currentHighest: JsString, successfulVersion: JsString): JsString {
    var current := TrackableServerVersion(currentHighest);
    var candidate := TrackableServerVersion(successfulVersion);
    if candidate == [] then current
    else if current == [] || CompareVersions(candidate, current) > 0 then candidate
    else current
  }

  /** Nothing recorded is below everything. */
  predicate AtLeast(a: JsString, b: JsString) {
    b == [] || (a != [] && CompareVersions(a, b) >= 0)
  }

  lemma AtLeastChains(a: JsString, b: JsString, c: JsString)
    requires AtLeast(a, b) && AtLeast(b, c)
    ensures AtLeast(a, c)
  {
    hide CompareVersions;
    VersionOrder(c, b, a);
    VersionOrder(b, a, c);
    VersionOrder(c, a, b);
  }

  lemma AtLeastItself(a: JsString)
    ensures AtLeast(a, a)
  {
    hide CompareVersions;
    VersionOrder(a, a, a);
  }

  /** What is behind a number or a dot ends as the whole text does, unless it is empty. */
  lemma SameEnd(s: JsString, n: nat)
    requires n < |s|
    ensures s[n..] != [] && s[n..][|s[n..]| - 1] == s[|s| - 1]
  {}

  lemma BehindNumber(s: JsString)
    requires AfterDigits(s).Some?
    ensures s != [] && IsDigit(s[0])
    ensures AfterDigits(s).value != [] ==> AfterDigits(s).value[|AfterDigits(s).value| - 1] == s[|s| - 1]
    ensures AfterDigits(s).value == [] ==> IsDigit(s[|s| - 1])
  {
    LastOfNumber(s);
    if DigitRun(s) < |s| {
      SameEnd(s, DigitRun(s));
    }
  }

  lemma BehindDot(s: JsString)
    requires AfterDot(Some(s)).Some?
    ensures s != [] && AfterDot(Some(s)).value == s[1..]
    ensures s[1..] != [] ==> s[1..][|s[1..]| - 1] == s[|s| - 1]
  {}

  lemma EndOfRest(rest: JsString)
    requires |rest| > 1 && forall c :: c in rest[1..] ==> VersionUnit(c)
    ensures VersionUnit(rest[|rest| - 1])
  {
    assert rest[|rest| - 1] == rest[1..][|rest| - 2];
  }

  lemma ConcreteShape(s: JsString)
    requires IsConcrete(s)
    ensures s != [] && IsDigit(s[0]) && !IsSpace(s[|s| - 1])
  {
    hide AfterDigits, IsDigit, IsLetter, IsSpace;
    var a := AfterDigits(s);
    var b := AfterDot(a);
    var c := AfterNumber(b);
    var d := AfterDot(c);
    var rest := AfterNumber(d).value;
    BehindNumber(s);
    BehindDot(a.value);
    BehindNumber(b.value);
    BehindDot(c.value);
    BehindNumber(d.value);
    if rest != [] {
      EndOfRest(rest);
    }
    UnitsAreNotSpace(s[|s| - 1]);
  }

  lemma UnitsAreNotSpace(c: CodeUnit)
    ensures VersionUnit(c) ==> !IsSpace(c)
  {}

  lemma LastOfNumber(s: JsString)
    requires DigitRun(s) > 0
    ensures IsDigit(s[DigitRun(s) - 1])
  {
    DigitRunIsDigits(s);
    var run := s[..DigitRun(s)];
    assert run[|run| - 1] in run;
  }

  lemma TrackableIsStable(value: JsString)
    ensures TrackableServerVersion(TrackableServerVersion(value)) == TrackableServerVersion(value)
  {
    hide IsConcrete, NormalizeVersion;
    if TrackableServerVersion(value) != [] {
      ConcreteShape(TrackableServerVersion(value));
      SemVer.NormalizedIsSame(TrackableServerVersion(value));
    } else {
      NothingIsNotConcrete();
    }
  }

  lemma NothingIsNotConcrete()
    ensures NormalizeVersion([]) == [] && !IsConcrete([])
  {}

  /** The higher of the two, in normal form; the current one when they are level. */
  lemma HighestDominates(current: JsString, candidate: JsString)
    ensures var highest := HighestServerVersion(current, candidate);
            && AtLeast(highest, TrackableServerVersion(current)) && AtLeast(highest, TrackableServerVersion(candidate))
            && highest in {TrackableServerVersion(current), TrackableServerVersion(candidate)}
            && TrackableServerVersion(highest) == highest
    ensures var a, b := TrackableServerVersion(current), TrackableServerVersion(candidate);
            AtLeast(a, b) ==> HighestServerVersion(current, candidate) == a
  {
    hide CompareVersions, TrackableServerVersion;
    var a, b := TrackableServerVersion(current), TrackableServerVersion(candidate);
    TrackableIsStable(current);
    TrackableIsStable(candidate);
    AtLeastItself(a);
    AtLeastItself(b);
    VersionOrder(a, b, b);
  }

  // ------------------------------------------------------------ what a concrete version looks like

  predicate AllDigits(s: JsString) {
    s != [] && forall i :: 0 <= i < |s| ==> IsDigit(s[i])
  }

  /** Nothing, or a hyphen and at least one letter, digit, dot or hyphen. */
  predicate IsSuffix(tail: JsString) {
    tail == [] || (tail[0] as int == '-' as int && |tail| > 1 && forall i :: 1 <= i < |tail| ==> IsSuffixUnit(tail[i]))
  }

  predicate IsSuffixUnit(c: CodeUnit) {
    IsDigit(c) || IsLetter(c) || c as int == '.' as int || c as int == '-' as int
  }

  function Concrete(major: JsString, minor: JsString, patch: JsString, tail: JsString): JsString {
    major + ([DOT] + (minor + ([DOT] + (patch + tail))))
  }

  lemma {:induction false} RunIs(digits: JsString, rest: JsString)
    requires (forall i :: 0 <= i < |digits| ==> IsDigit(digits[i])) && (rest == [] || !IsDigit(rest[0]))
    ensures DigitRun(digits + rest) == |digits|
    decreases |digits|
  {
    if digits == [] {
      assert digits + rest == rest;
    } else {
      assert (digits + rest)[1..] == digits[1..] + rest;
      RunIs(digits[1..], rest);
    }
  }

  lemma BehindDigits(digits: JsString, rest: JsString)
    requires AllDigits(digits) && (rest == [] || !IsDigit(rest[0]))
    ensures AfterDigits(digits + rest) == Some(rest)
  {
    RunIs(digits, rest);
    assert (digits + rest)[|digits|..] == rest;
  }

  lemma SameUnits(c: CodeUnit)
    ensures IsSuffixUnit(c) <==> VersionUnit(c)
  {}

  lemma SuffixUnits(tail: JsString)
    ensures IsSuffix(tail) <==> tail == [] || (tail[0] == HYPHEN && |tail| > 1 && forall c :: c in tail[1..] ==> VersionUnit(c))
  {
    hide IsSuffixUnit, VersionUnit;
    forall c
      ensures IsSuffixUnit(c) <==> VersionUnit(c)
    {
      SameUnits(c);
    }
    if |tail| > 1 {
      var rest := tail[1..];
      assert forall i :: 1 <= i < |tail| ==> tail[i] == rest[i - 1] && tail[i] in rest;
      assert forall i :: 0 <= i < |rest| ==> rest[i] == tail[i + 1];
    }
  }

  /** Three numbers with dots between them and such a suffix make a concrete version. */
  lemma PartsAreConcrete(major: JsString, minor: JsString, patch: JsString, tail: JsString)
    requires AllDigits(major) && AllDigits(minor) && AllDigits(patch) && IsSuffix(tail)
    ensures IsConcrete(Concrete(major, minor, patch, tail))
  {
    hide AllDigits, VersionUnit;
    SuffixUnits(tail);
    hide IsSuffix;
    var last := patch + tail;
    var second := minor + ([DOT] + last);
    BehindDigits(major, [DOT] + second);
    BehindDigits(minor, [DOT] + last);
    BehindDigits(patch, tail);
    assert ([DOT] + second)[1..] == second && ([DOT] + last)[1..] == last;
  }

  lemma SplitDigits(s: JsString) returns (digits: JsString)
    requires AfterDigits(s).Some?
    ensures AllDigits(digits) && s == digits + AfterDigits(s).value
  {
    DigitRunIsDigits(s);
    digits := s[..DigitRun(s)];
    assert forall i :: 0 <= i < |digits| ==> digits[i] in digits;
  }

  /** Every concrete version is made that way. */
  lemma ConcreteHasParts(s: JsString) returns (major: JsString, minor: JsString, patch: JsString, tail: JsString)
    requires IsConcrete(s)
    ensures AllDigits(major) && AllDigits(minor) && AllDigits(patch) && IsSuffix(tail)
    ensures s == Concrete(major, minor, patch, tail)
  {
    hide AfterDigits, AllDigits, VersionUnit;
    var a := AfterDigits(s);
    var b := AfterDot(a);
    var c := AfterNumber(b);
    var d := AfterDot(c);
    tail := AfterNumber(d).value;
    major := SplitDigits(s);
    minor := SplitDigits(b.value);
    patch := SplitDigits(d.value);
    SuffixUnits(tail);
    hide IsSuffix;
    assert a.value == [DOT] + b.value && c.value == [DOT] + d.value;
  }

  // ------------------------------------------------------------ serialized updates

  /** One queued read-modify-write; None updates something else in the metadata. */
  datatype Update = Update(version: Option<JsString>)

  /**
   The stored value, the chain of updates that have not begun, the value read
   by the one under way, and what has been recorded successfully so far.
   */
  datatype State = State(stored: JsString, waiting: seq<Update>, running: Option<(Update, JsString)>, recorded: set<JsString>)

  datatype Action = Enqueue(update: Update) | Read(works: bool) | Write(works: bool)

  function Next(update: Update, current: JsString): JsString {
    if update.version.Some? then HighestServerVersion(current, update.version.value) else TrackableServerVersion(current)
  }

  /** One step of the chain: the next update starts only when the one before it has settled. */
  function Do(s: State, action: Action): State {
    match action
    case Enqueue(update) => s.(waiting := s.waiting + [update])
    case Read(works) =>
      if s.running.Some? || s.waiting == [] then s
      else if works then s.(waiting := s.waiting[1..], running := Some((s.waiting[0], s.stored)))
      else s.(waiting := s.waiting[1..])
    case Write(works) =>
      if s.running.None? then s
      else
        var (update, current) := s.running.value;
        if works then
          s.(stored := Next(update, current), running := None,
             recorded := s.recorded + if update.version.Some? then {TrackableServerVersion(update.version.value)} else {})
        else s.(running := None)
  }

  function Run(s: State, schedule: seq<Action>): State
    decreases |schedule|
  {
    if schedule == [] then s else Run(Do(s, schedule[0]), schedule[1..])
  }

  ghost predicate Invariant(s: State) {
    && TrackableServerVersion(s.stored) == s.stored
    && (s.running.Some? ==> s.running.value.1 == s.stored)
    && forall version :: version in s.recorded ==> AtLeast(s.stored, version)
  }

  lemma StepIsMonotone(s: State, action: Action)
    requires Invariant(s)
    ensures Invariant(Do(s, action)) && AtLeast(Do(s, action).stored, s.stored)
  {
    hide AtLeast, TrackableServerVersion, HighestServerVersion;
    AtLeastItself(s.stored);
    if action.Write? && action.works && s.running.Some? {
      var update := s.running.value.0;
      var s' := Do(s, action);
      TrackableIsStable(s.stored);
      if update.version.Some? {
        HighestDominates(s.stored, update.version.value);
      }
      forall version | version in s'.recorded
        ensures AtLeast(s'.stored, version)
      {
        if version in s.recorded {
          AtLeastChains(s'.stored, s.stored, version);
        }
      }
    }
  }

  /** Over any interleaving, with any failures, the stored version never decreases and dominates all that were recorded. */
  lemma {:induction false} HistoryIsMonotone(s: State, schedule: seq<Action>)
    requires Invariant(s)
    ensures Invariant(Run(s, schedule)) && AtLeast(Run(s, schedule).stored, s.stored)
    decreases |schedule|
  {
    hide AtLeast, Do, Invariant;
    if schedule == [] {
      AtLeastItself(s.stored);
    } else {
      var s1 := Do(s, schedule[0]);
      StepIsMonotone(s, schedule[0]);
      HistoryIsMonotone(s1, schedule[1..]);
      AtLeastChains(Run(s1, schedule[1..]).stored, s1.stored, s.stored);
    }
  }

  // ------------------------------------------------------------ what the updates come to

  function Folded(stored: JsString, updates: seq<Update>): JsString
    decreases |updates|
  {
    if updates == [] then stored else Folded(Next(updates[0], stored), updates[1..])
  }

  function Draining(count: nat): seq<Action> {
    if count == 0 then [] else [Read(true), Write(true)] + Draining(count - 1)
  }

  lemma RunTwo(s: State, a: Action, b: Action, rest: seq<Action>)
    ensures Run(s, [a, b] + rest) == Run(Do(Do(s, a), b), rest)
  {
    hide Do;
    var all := [a, b] + rest;
    assert all[1..] == [b] + rest && ([b] + rest)[1..] == rest;
    assert Run(s, all) == Run(Do(s, a), [b] + rest);
  }

  /** Enqueued updates are carried out one after another, in their order. */
  lemma {:induction false} QueueIsCarriedOut(s: State)
    requires s.running.None?
    ensures var s' := Run(s, Draining(|s.waiting|));
            s'.running.None? && s'.waiting == [] && s'.stored == Folded(s.stored, s.waiting)
    decreases |s.waiting|
  {
    hide Next, Run;
    if s.waiting == [] {
      assert Run(s, []) == s by { RunNothing(s); }
    } else {
      var s' := Do(Do(s, Read(true)), Write(true));
      RunTwo(s, Read(true), Write(true), Draining(|s.waiting| - 1));
      QueueIsCarriedOut(s');
    }
  }

  lemma RunNothing(s: State)
    ensures Run(s, []) == s
  {}

  /** Updates wait in their order; one that fails changes nothing and lets the next one begin. */
  lemma UpdatesExactly(s: State, update: Update, works: bool)
    ensures Do(s, Enqueue(update)) == s.(waiting := s.waiting + [update])
    ensures s.running.None? && s.waiting != [] ==>
              var read := Do(s, Read(works));
              && read.waiting == s.waiting[1..] && read.stored == s.stored && read.recorded == s.recorded
              && (if works then read.running == Some((s.waiting[0], s.stored)) else read.running == None)
    ensures s.running.Some? ==>
              var (u, current), written := s.running.value, Do(s, Write(works));
              && Do(s, Read(works)) == s && written.running == None && written.waiting == s.waiting
              && written.stored == (if works then Next(u, current) else s.stored)
              && written.recorded == s.recorded + (if works && u.version.Some? then {TrackableServerVersion(u.version.value)} else {})
  {
    hide Next, TrackableServerVersion;
  }
}
