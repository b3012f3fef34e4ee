/**
 The manager of automatic updates: its timer, its store on disk, its runs,
 crashes and restarts.
 */
module UpdateScheduler {
  import opened JsStrings
  import opened ScheduledUpdates

  /** The key of an update window, or of a manual run. */
  datatype Key = Window(day: int, hour: int, minute: int) | Manual(instant: Instant)

  /** What is kept in memory and on disk. */
  datatype Store = Store(settings: Settings, nextRunAt: Option<Instant>, lastKey: Option<Key>, blocked: bool)

  const DEFAULTS := Store(Settings(false, Daily, 3, 0), None, None, false)

  /** `attempts` records the scheduled windows for which a run was begun. */
  datatype State = State(now: Instant, memory: Store, disk: Store, timer: bool, running: bool, attempts: seq<Instant>)

  function WindowKeyForRun(instant: Instant, settings: Settings): Key {
    Window(DayOf(instant), settings.hour, settings.minute)
  }

  function Saved(s: State, works: bool): State {
    if works then s.(disk := s.memory) else s
  }

  /** `armTimer`: the timer is set only for a known next run. */
  function Armed(s: State): State {
    s.(timer := s.memory.settings.enabled && s.memory.nextRunAt.Some? && !s.memory.blocked)
  }

  /** Whether a write succeeds, and whether the launcher has become new enough to lift a block. */
  datatype Luck = Luck(saves: bool, unblocks: bool)

  /** `scheduleNext`: a failed write leaves the timer cleared. Settings are normalized, so their time is valid. */
  function ScheduleNext(s: State, luck: Luck): State {
    if !s.memory.settings.enabled then
      Saved(s.(timer := false, memory := s.memory.(nextRunAt := None, blocked := false)), luck.saves)
    else if s.memory.blocked && !luck.unblocks then
      Saved(s.(timer := false, memory := s.memory.(nextRunAt := None)), luck.saves)
    else
      var next := s.(timer := false,
                     memory := s.memory.(blocked := false, nextRunAt := NextRunDate(s.memory.settings, s.now)));
      if luck.saves then Armed(Saved(next, true)) else next
  }

  /** `normalizeLoadedState`: with updates off, a stored next run or block is forgotten. */
  function Normalized(store: Store): Store {
    if store.settings.enabled then store else store.(nextRunAt := None, blocked := false)
  }

  function Loaded(s: State): State {
    s.(memory := Normalized(s.disk))
  }

  /** A recorded outcome replaces the state of the status, so a block is forgotten. */
  function Ended(s: State): State {
    s.(running := false, memory := s.memory.(blocked := false))
  }

  /** The end of a run, and every reason not to begin one. */
  function Recorded(s: State, luck: Luck): State {
    ScheduleNext(Ended(s), luck)
  }

  function Blocked(s: State, luck: Luck): State {
    Saved(s.(running := false, memory := s.memory.(blocked := true, nextRunAt := None)), luck.saves)
  }

  function SetRunning(s: State, key: Key, window: Option<Instant>): State {
    s.(running := true, timer := false, memory := s.memory.(lastKey := Some(key), blocked := false),
       attempts := if window.Some? then s.attempts + [window.value] else s.attempts)
  }

  /** The body of `runUpdate` up to the first check of the server; `window` is None for a manual run. */
  function BeginRun(s: State, key: Key, window: Option<Instant>, otherOperation: bool, saves: bool, luck: Luck): State {
    var loaded := Loaded(s);
    if loaded.running then Recorded(loaded, luck)
    else if window.Some? && !loaded.memory.settings.enabled then loaded
    else if otherOperation then Recorded(loaded, luck)
    else
      var run := Saved(SetRunning(loaded, key, window), saves);
      // when the status cannot be written, a scheduled run ends in recordFailure
      if !saves && window.Some? then Recorded(run, luck) else run
  }

  function Wake(s: State, lockFree: bool, otherOperation: bool, saves: bool, luck: Luck): State {
    var fired := s.(timer := false);
    if !s.memory.settings.enabled || s.memory.blocked then fired
    else
      var next := if s.memory.nextRunAt.Some? then s.memory.nextRunAt else NextRunDate(s.memory.settings, s.now);
      if next.None? then ScheduleNext(fired, luck)
      else if next.value > s.now then Armed(fired)
      else
        var key := WindowKeyForRun(next.value, s.memory.settings);
        if s.memory.lastKey == Some(key) then ScheduleNext(fired, luck)
        else if !lockFree then Recorded(fired, luck)
        else BeginRun(fired, key, next, otherOperation, saves, luck)
  }

  datatype Event =
    | Tick(elapsed: nat)
    | TimerFires(lockFree: bool, otherOperation: bool, saves: bool, luck: Luck)
    | RunNow(lockFree: bool, otherOperation: bool, saves: bool, luck: Luck)
    | RunEnds(blocked: bool, luck: Luck)
    | SaveSettings(lockFree: bool, settings: Settings, luck: Luck)
    | Restart(readable: bool, luck: Luck)

  function Do(s: State, event: Event): State {
    match event
    case Tick(elapsed) => s.(now := s.now + elapsed)
    case TimerFires(lockFree, otherOperation, saves, luck) =>
      if s.timer then Wake(s, lockFree, otherOperation, saves, luck) else s
    case RunNow(lockFree, otherOperation, saves, luck) =>
      if lockFree then BeginRun(s, Manual(s.now), None, otherOperation, saves, luck) else s
    case RunEnds(blocked, luck) =>
      if !s.running then s else if blocked then Blocked(s, luck) else Recorded(s, luck)
    case SaveSettings(lockFree, settings, luck) =>
      if !lockFree || !ValidTime(settings) then s
      else
        var loaded := Loaded(s);
        ScheduleNext(loaded.(memory := loaded.memory.(settings := settings, blocked := false)), luck)
    case Restart(readable, luck) =>
      // memory and the timer are lost; an unreadable store falls back to the defaults
      ScheduleNext(s.(memory := if readable then Normalized(s.disk) else DEFAULTS, running := false, timer := false), luck)
  }

  function Run(s: State, events: seq<Event>): State
    decreases |events|
  {
    if events == [] then s else Run(Do(s, events[0]), events[1..])
  }

  // ------------------------------------------------------------ the manager

  class ScheduledUpdateManager {
    var state: State

    constructor (initial: State)
      ensures state == initial
    {
      state := initial;
    }

    method Schedule(luck: Luck)
      modifies this
      ensures state == ScheduleNext(old(state), luck)
    {
      state := state.(timer := false);
      if !state.memory.settings.enabled {
        state := state.(memory := state.memory.(nextRunAt := None, blocked := false));
        state := Saved(state, luck.saves);
        return;
      }
      if state.memory.blocked {
        if luck.unblocks {
          state := state.(memory := state.memory.(blocked := false));
        } else {
          state := state.(memory := state.memory.(nextRunAt := None));
          state := Saved(state, luck.saves);
          return;
        }
      }
      var next := FindNextRun(state.memory.settings, state.now);
      state := state.(memory := state.memory.(nextRunAt := next));
      if luck.saves {
        state := Armed(Saved(state, true));
      }
    }

    method OnTimer(lockFree: bool, otherOperation: bool, saves: bool, luck: Luck)
      modifies this
      ensures state == Wake(old(state), lockFree, otherOperation, saves, luck)
    {
      hide NextRunDate, ScheduleNext;
      state := state.(timer := false);
      if !state.memory.settings.enabled || state.memory.blocked {
        return;
      }
      var next := state.memory.nextRunAt;
      if next.None? {
        next := FindNextRun(state.memory.settings, state.now);
      }
      if next.None? {
        Schedule(luck);
        return;
      }
      if next.value > state.now {
        state := Armed(state);
        return;
      }
      var key := WindowKeyForRun(next.value, state.memory.settings);
      if state.memory.lastKey == Some(key) {
        Schedule(luck);
      } else if !lockFree {
        state := Ended(state);
        Schedule(luck);
      } else {
        RunUpdate(key, next, otherOperation, saves, luck);
      }
    }

    method RunUpdate(key: Key, window: Option<Instant>, otherOperation: bool, saves: bool, luck: Luck)
      modifies this
      ensures state == BeginRun(old(state), key, window, otherOperation, saves, luck)
    {
      hide ScheduleNext;
      state := Loaded(state);
      if state.running {
        state := Ended(state);
        Schedule(luck);
        return;
      }
      if window.Some? && !state.memory.settings.enabled {
        return;
      }
      if otherOperation {
        state := Ended(state);
        Schedule(luck);
        return;
      }
      state := Saved(SetRunning(state, key, window), saves);
      if !saves && window.Some? {
        state := Ended(state);
        Schedule(luck);
      }
    }
  }

  // ------------------------------------------------------------ windows are attempted in order

  predicate Increasing(attempts: seq<Instant>) {
    forall i, j :: 0 <= i < j < |attempts| ==> attempts[i] < attempts[j]
  }

  /** All windows attempted so far are behind the given instant. */
  predicate AllBefore(attempts: seq<Instant>, instant: Instant) {
    forall i :: 0 <= i < |attempts| ==> attempts[i] < instant
  }

  predicate AllReached(attempts: seq<Instant>, now: Instant) {
    forall i :: 0 <= i < |attempts| ==> attempts[i] <= now
  }

  ghost predicate Invariant(s: State) {
    && ValidTime(s.memory.settings) && ValidTime(s.disk.settings)
    && Increasing(s.attempts) && AllReached(s.attempts, s.now)
    && (s.timer && s.memory.nextRunAt.Some? ==> AllBefore(s.attempts, s.memory.nextRunAt.value))
  }
}
