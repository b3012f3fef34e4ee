/** Update windows are attempted in order, over any run of the manager. */
module UpdateSchedulerProofs {
  import opened JsStrings
  import opened ScheduledUpdates
  import opened UpdateScheduler

  // ------------------------------------------------------------ windows are attempted in order

  lemma ScheduleKeepsInvariant(s: State, luck: Luck)
    requires Invariant(s.(timer := false))
    ensures Invariant(ScheduleNext(s, luck)) && ScheduleNext(s, luck).attempts == s.attempts
  {
    hide NextRunDate, ValidTime;
    if s.memory.settings.enabled {
      NextRunIsLeast(s.memory.settings, s.now, 0);
    }
  }

  lemma BeginKeepsInvariant(
    s: State, key: Key, window: Option<Instant>, otherOperation: bool, saves: bool, luck: Luck)
    requires Invariant(s) && (window.Some? ==> !s.timer && AllBefore(s.attempts, window.value) && window.value <= s.now)
    ensures Invariant(BeginRun(s, key, window, otherOperation, saves, luck))
  {
    hide ScheduleNext, ValidTime;
    var loaded := Loaded(s);
    ScheduleKeepsInvariant(Ended(loaded), luck);
    var run := Saved(SetRunning(loaded, key, window), saves);
    assert Invariant(run);
    ScheduleKeepsInvariant(Ended(run), luck);
  }

  lemma WakeKeepsInvariant(s: State, lockFree: bool, otherOperation: bool, saves: bool, luck: Luck)
    requires Invariant(s) && s.timer
    ensures Invariant(Wake(s, lockFree, otherOperation, saves, luck))
  {
    hide ScheduleNext, BeginRun, ValidTime, NextRunDate;
    var fired := s.(timer := false);
    ScheduleKeepsInvariant(fired, luck);
    ScheduleKeepsInvariant(Ended(fired), luck);
    var next := s.memory.nextRunAt;
    if next.Some? && next.value <= s.now {
      BeginKeepsInvariant(fired, WindowKeyForRun(next.value, s.memory.settings), next, otherOperation, saves, luck);
    } else if next.None? && s.memory.settings.enabled {
      NextRunIsLeast(s.memory.settings, s.now, 0);
    }
  }

  lemma StepKeepsInvariant(s: State, event: Event)
    requires Invariant(s)
    ensures Invariant(Do(s, event))
    ensures s.attempts <= Do(s, event).attempts
  {
    hide ScheduleNext, BeginRun, ValidTime, Wake;
    match event
    case Tick(elapsed) =>
    case TimerFires(lockFree, otherOperation, saves, luck) =>
      if s.timer {
        WakeKeepsInvariant(s, lockFree, otherOperation, saves, luck);
        WakeExtends(s, lockFree, otherOperation, saves, luck);
      }
    case RunNow(lockFree, otherOperation, saves, luck) =>
      BeginKeepsInvariant(s, Manual(s.now), None, otherOperation, saves, luck);
      BeginExtends(s, Manual(s.now), None, otherOperation, saves, luck);
    case RunEnds(blocked, luck) =>
      ScheduleKeepsInvariant(Ended(s), luck);
      ScheduleExtends(Ended(s), luck);
      BlockedKeepsInvariant(s, luck);
    case SaveSettings(lockFree, settings, luck) =>
      if ValidTime(settings) {
        var loaded := Loaded(s);
        ScheduleKeepsInvariant(loaded.(memory := loaded.memory.(settings := settings, blocked := false)), luck);
      }
    case Restart(readable, luck) =>
      DefaultsAreValid();
      ScheduleKeepsInvariant(
        s.(memory := if readable then Normalized(s.disk) else DEFAULTS, running := false, timer := false), luck);
  }

  lemma DefaultsAreValid()
    ensures ValidTime(DEFAULTS.settings)
  {}

  lemma BlockedKeepsInvariant(s: State, luck: Luck)
    requires Invariant(s)
    ensures Invariant(Blocked(s, luck)) && Blocked(s, luck).attempts == s.attempts
  {}

  lemma ScheduleExtends(s: State, luck: Luck)
    ensures ScheduleNext(s, luck).attempts == s.attempts
  {}

  lemma BeginExtends(s: State, key: Key, window: Option<Instant>, otherOperation: bool, saves: bool, luck: Luck)
    ensures s.attempts <= BeginRun(s, key, window, otherOperation, saves, luck).attempts
  {
    hide ScheduleNext;
    var loaded := Loaded(s);
    ScheduleExtends(Ended(loaded), luck);
    ScheduleExtends(Ended(Saved(SetRunning(loaded, key, window), saves)), luck);
  }

  lemma WakeExtends(s: State, lockFree: bool, otherOperation: bool, saves: bool, luck: Luck)
    ensures s.attempts <= Wake(s, lockFree, otherOperation, saves, luck).attempts
  {
    hide ScheduleNext, BeginRun, NextRunDate;
    var fired := s.(timer := false);
    ScheduleExtends(fired, luck);
    ScheduleExtends(Ended(fired), luck);
    var next := if s.memory.nextRunAt.Some? then s.memory.nextRunAt else NextRunDate(s.memory.settings, s.now);
    if next.Some? {
      BeginExtends(fired, WindowKeyForRun(next.value, s.memory.settings), next, otherOperation, saves, luck);
    }
  }

  /**
   While the clock does not go back, the scheduled windows attempted over any
   run are strictly increasing, so none is attempted twice, across manual
   runs, changed settings, failed writes, crashes and restarts.
   */
  lemma {:induction false} WindowsAreAttemptedInOrder(s: State, events: seq<Event>)
    requires Invariant(s)
    ensures Invariant(Run(s, events)) && s.attempts <= Run(s, events).attempts && Increasing(Run(s, events).attempts)
    decreases |events|
  {
    hide Do, Invariant;
    if events != [] {
      StepKeepsInvariant(s, events[0]);
      WindowsAreAttemptedInOrder(Do(s, events[0]), events[1..]);
    } else {
      InvariantIsOrder(s);
    }
  }

  lemma InvariantIsOrder(s: State)
    requires Invariant(s)
    ensures Increasing(s.attempts)
  {}

  /** Whatever a past process left on disk, a new one starts in the invariant. */
  lemma FreshProcessIsOrdered(now: Instant, disk: Store)
    requires ValidTime(disk.settings)
    ensures Invariant(State(now, disk, disk, false, false, []))
  {}

  /** So from any store on disk with a valid time of day, over the whole life of the launcher. */
  lemma WindowsOfLauncherAreInOrder(now: Instant, disk: Store, events: seq<Event>)
    requires ValidTime(disk.settings)
    ensures Increasing(Run(State(now, disk, disk, false, false, []), events).attempts)
  {
    hide Run, Invariant, Increasing, ValidTime;
    FreshProcessIsOrdered(now, disk);
    WindowsAreAttemptedInOrder(State(now, disk, disk, false, false, []), events);
  }

  // ------------------------------------------------------------ windows are attempted, and replaced

  /** The next run is the least later instant that the settings ask for; there is none when they are off. */
  ghost predicate IsNextRun(next: Option<Instant>, settings: Settings, now: Instant) {
    if !settings.enabled then next.None?
    else
      && next.Some? && next.value > now && IsScheduled(settings, next.value)
      && forall other :: now < other < next.value ==> !IsScheduled(settings, other)
  }

  /** `r` is `s` with the given memory, scheduled anew: the timer is set for a next run that was saved. */
  ghost predicate Rescheduled(r: State, s: State, memory: Store, luck: Luck) {
    && r.now == s.now && r.running == s.running && r.attempts == s.attempts
    && r.memory.settings == memory.settings && r.memory.lastKey == memory.lastKey
    && (r.memory.blocked <==> memory.settings.enabled && memory.blocked && !luck.unblocks)
    && (if r.memory.blocked then r.memory.nextRunAt.None? else IsNextRun(r.memory.nextRunAt, memory.settings, s.now))
    && r.disk == (if luck.saves then r.memory else s.disk)
    && (r.timer <==> luck.saves && r.memory.nextRunAt.Some?)
  }

  lemma NextRunIs(settings: Settings, now: Instant)
    requires ValidTime(settings)
    ensures IsNextRun(NextRunDate(settings, now), settings, now)
  {
    hide IsScheduled, ValidTime;
    if settings.enabled {
      NextRunIsLeast(settings, now, 0);
      forall other | now < other < NextRunDate(settings, now).value
        ensures !IsScheduled(settings, other)
      {
        NextRunIsLeast(settings, now, other);
      }
    } else {
      assert NextRunDate(settings, now) == None;
    }
  }

  lemma ScheduleExactly(s: State, luck: Luck)
    requires ValidTime(s.memory.settings)
    ensures Rescheduled(ScheduleNext(s, luck), s, s.memory, luck)
  {
    NextRunIs(s.memory.settings, s.now);
    hide NextRunDate, IsNextRun, ValidTime;
    NoNextRun(s.memory.settings, s.now);
  }

  lemma NoNextRun(settings: Settings, now: Instant)
    ensures !settings.enabled ==> IsNextRun(None, settings, now)
    ensures settings.enabled && IsNextRun(NextRunDate(settings, now), settings, now) ==> NextRunDate(settings, now).Some?
  {
    hide NextRunDate, IsScheduled;
  }

  /** The window of the timer, when it is due: known, reached, and not the last one attempted. */
  predicate Due(s: State) {
    && s.memory.settings.enabled && !s.memory.blocked
    && s.memory.nextRunAt.Some? && s.memory.nextRunAt.value <= s.now
  }

  predicate AttemptedLast(s: State)
    requires s.memory.nextRunAt.Some?
  {
    s.memory.lastKey == Some(WindowKeyForRun(s.memory.nextRunAt.value, s.memory.settings))
  }

  /** Nothing keeps a due window from being attempted. */
  predicate MayAttempt(s: State, lockFree: bool, otherOperation: bool) {
    Due(s) && !AttemptedLast(s) && lockFree && !s.running && s.disk.settings.enabled && !otherOperation
  }

  /** What is read from disk: as it was stored, but nothing of a next run or a block when updates are off. */
  lemma ReadExactly(store: Store)
    ensures var read := Normalized(store);
            && read.settings == store.settings && read.lastKey == store.lastKey
            && (store.settings.enabled ==> read == store)
            && (!store.settings.enabled ==> read.nextRunAt.None? && !read.blocked)
  {}

  /**
   A firing timer attempts its window exactly when that is due and was not the
   last one attempted, the lock is free, no run is under way, the settings on
   disk are enabled and no other operation runs. If the status can be saved,
   the run is then under way and its key is in memory and on disk; otherwise the
   run ends at once and the next window is scheduled.
   */
  lemma AttemptsExactly(s: State, lockFree: bool, otherOperation: bool, saves: bool, luck: Luck)
    requires s.timer && ValidTime(s.memory.settings) && ValidTime(s.disk.settings)
    ensures var r := Do(s, TimerFires(lockFree, otherOperation, saves, luck));
            if !MayAttempt(s, lockFree, otherOperation) then r.attempts == s.attempts
            else
              var window := s.memory.nextRunAt.value;
              var memory := Normalized(s.disk).(lastKey := Some(WindowKeyForRun(window, s.memory.settings)), blocked := false);
              var attempted := s.(attempts := s.attempts + [window]);
              if saves then r == attempted.(running := true, timer := false, memory := memory, disk := memory)
              else Rescheduled(r, attempted.(running := false), memory, luck)
  {
    hide ScheduleNext, ValidTime, IsNextRun, BeginRun, Loaded;
    var fired := s.(timer := false);
    if s.memory.nextRunAt.None? && s.memory.settings.enabled {
      NextRunIsLeast(s.memory.settings, s.now, 0);
    }
    hide NextRunDate, WindowKeyForRun;
    ScheduleExtends(fired, luck);
    ScheduleExtends(Ended(fired), luck);
    if Due(s) && !AttemptedLast(s) && lockFree {
      var window := s.memory.nextRunAt.value;
      BeginExactly(fired, WindowKeyForRun(window, s.memory.settings), Some(window), otherOperation, saves, luck);
    }
  }

  /** What `runUpdate` comes to: a run under way, a new schedule, or nothing when the settings have been turned off. */
  lemma BeginExactly(s: State, key: Key, window: Option<Instant>, otherOperation: bool, saves: bool, luck: Luck)
    requires ValidTime(s.disk.settings)
    ensures var r := BeginRun(s, key, window, otherOperation, saves, luck);
            var memory := Normalized(s.disk).(lastKey := Some(key), blocked := false);
            var attempts := if window.Some? then s.attempts + [window.value] else s.attempts;
            if s.running || (otherOperation && (window.None? || s.disk.settings.enabled))
            then Rescheduled(r, s.(running := false), Normalized(s.disk).(blocked := false), luck)
            else if window.Some? && !s.disk.settings.enabled then r == s.(memory := Normalized(s.disk))
            else if saves then r == s.(running := true, timer := false, memory := memory, disk := memory, attempts := attempts)
            else if window.None? then r == s.(running := true, timer := false, memory := memory)
            else Rescheduled(r, s.(running := false, attempts := attempts), memory, luck)
  {
    var memory := Normalized(s.disk).(lastKey := Some(key), blocked := false);
    var attempts := if window.Some? then s.attempts + [window.value] else s.attempts;
    ScheduleFrom(s.(running := false), Normalized(s.disk).(blocked := false), luck);
    ScheduleFrom(s.(running := false, timer := false, attempts := attempts), memory, luck);
    hide ScheduleNext, ValidTime, Rescheduled;
    assert Ended(Loaded(s)) == s.(running := false, memory := Normalized(s.disk).(blocked := false));
    assert Ended(SetRunning(Loaded(s), key, window))
        == s.(running := false, timer := false, attempts := attempts, memory := memory);
  }

  lemma ScheduleFrom(s: State, memory: Store, luck: Luck)
    requires ValidTime(memory.settings)
    ensures Rescheduled(ScheduleNext(s.(memory := memory), luck), s, memory, luck)
  {
    hide ScheduleNext, IsNextRun;
    ScheduleExactly(s.(memory := memory), luck);
  }

  /**
   A due window that a firing timer passes over is replaced by the next one:
   when it was attempted last, when the lock is taken, when a run is under way
   or when another operation runs. The settings are those on disk once the
   lock was taken; if they have been turned off, the timer is only cleared.
   */
  lemma PassedOverIsReplaced(s: State, lockFree: bool, otherOperation: bool, saves: bool, luck: Luck)
    requires s.timer && ValidTime(s.memory.settings) && ValidTime(s.disk.settings)
    requires Due(s) && !MayAttempt(s, lockFree, otherOperation)
    ensures var r := Do(s, TimerFires(lockFree, otherOperation, saves, luck));
            if AttemptedLast(s) then Rescheduled(r, s, s.memory, luck)
            else if !lockFree then Rescheduled(r, s.(running := false), s.memory, luck)
            else if !s.running && !s.disk.settings.enabled then r == s.(timer := false, memory := Normalized(s.disk))
            else Rescheduled(r, s.(running := false), Normalized(s.disk).(blocked := false), luck)
  {
    var fired := s.(timer := false);
    ScheduleFrom(fired, s.memory, luck);
    ScheduleFrom(fired.(running := false), s.memory, luck);
    hide ScheduleNext, ValidTime, BeginRun, Loaded, NextRunDate, WindowKeyForRun;
    assert Ended(fired) == fired.(running := false, memory := s.memory);
    if !AttemptedLast(s) && lockFree {
      var window := s.memory.nextRunAt.value;
      BeginExactly(fired, WindowKeyForRun(window, s.memory.settings), Some(window), otherOperation, saves, luck);
    }
  }

  /** A timer that fires before its window is set again, for as long as it is needed. */
  lemma EarlyTimerIsSetAgain(s: State, lockFree: bool, otherOperation: bool, saves: bool, luck: Luck)
    requires s.timer && ValidTime(s.memory.settings) && !Due(s)
    ensures Do(s, TimerFires(lockFree, otherOperation, saves, luck))
         == s.(timer := s.memory.settings.enabled && !s.memory.blocked && s.memory.nextRunAt.Some?)
  {
    hide ScheduleNext, BeginRun, ValidTime;
    if s.memory.nextRunAt.None? && s.memory.settings.enabled {
      NextRunIsLeast(s.memory.settings, s.now, 0);
    }
    hide NextRunDate;
  }

  /** Everything else that happens to the manager. */
  lemma OtherEventsExactly(s: State, event: Event)
    requires !event.TimerFires? && ValidTime(s.memory.settings) && ValidTime(s.disk.settings)
    ensures var r := Do(s, event);
            match event
            case Tick(elapsed) => r == s.(now := s.now + elapsed)
            case TimerFires(_, _, _, _) => true
            case RunNow(lockFree, otherOperation, saves, luck) =>
              var memory := Normalized(s.disk).(lastKey := Some(Manual(s.now)), blocked := false);
              if !lockFree then r == s
              else if s.running || otherOperation
              then Rescheduled(r, s.(running := false), Normalized(s.disk).(blocked := false), luck)
              else r == s.(running := true, timer := false, memory := memory, disk := if saves then memory else s.disk)
            case RunEnds(blocked, luck) =>
              var memory := s.memory.(blocked := true, nextRunAt := None);
              if !s.running then r == s
              else if blocked then r == s.(running := false, memory := memory, disk := if luck.saves then memory else s.disk)
              else Rescheduled(r, s.(running := false), s.memory.(blocked := false), luck)
            case SaveSettings(lockFree, settings, luck) =>
              if !lockFree || !ValidTime(settings) then r == s
              else Rescheduled(r, s, Normalized(s.disk).(settings := settings, blocked := false), luck)
            case Restart(readable, luck) =>
              Rescheduled(r, s.(running := false), if readable then Normalized(s.disk) else DEFAULTS, luck)
  {
    hide ScheduleNext, BeginRun, IsNextRun, ValidTime;
    match event
    case Tick(_) =>
    case TimerFires(_, _, _, _) =>
    case RunNow(lockFree, otherOperation, saves, luck) =>
      BeginExactly(s, Manual(s.now), None, otherOperation, saves, luck);
    case RunEnds(_, luck) =>
      ScheduleFrom(s.(running := false), s.memory.(blocked := false), luck);
    case SaveSettings(_, settings, luck) =>
      if ValidTime(settings) {
        ScheduleFrom(s, Normalized(s.disk).(settings := settings, blocked := false), luck);
      }
    case Restart(readable, luck) =>
      DefaultsAreValid();
      ScheduleFrom(s.(running := false, timer := false), if readable then Normalized(s.disk) else DEFAULTS, luck);
  }

  predicate WritesWork(event: Event) {
    match event
    case Tick(_) => true
    case TimerFires(_, _, saves, luck) => saves && luck.saves
    case RunNow(_, _, saves, luck) => saves && luck.saves
    case RunEnds(_, luck) => luck.saves
    case SaveSettings(_, _, luck) => luck.saves
    case Restart(readable, luck) => readable && luck.saves
  }

  /** An idle manager that is enabled and not blocked has its timer set for a window of its settings. */
  ghost predicate Waits(s: State) {
    && ValidTime(s.memory.settings) && s.disk == s.memory
    && (s.memory.settings.enabled && !s.memory.blocked && !s.running ==>
        s.timer && s.memory.nextRunAt.Some? && IsScheduled(s.memory.settings, s.memory.nextRunAt.value))
  }

  lemma RescheduledWaits(r: State, s: State, memory: Store, luck: Luck)
    requires Rescheduled(r, s, memory, luck) && luck.saves && ValidTime(memory.settings)
    ensures Waits(r)
  {
    hide IsScheduled, ValidTime;
  }

  lemma TimerStillWaits(s: State, lockFree: bool, otherOperation: bool, luck: Luck)
    requires Waits(s) && s.timer && luck.saves
    ensures Waits(Do(s, TimerFires(lockFree, otherOperation, true, luck)))
  {
    hide Do, Rescheduled, IsScheduled, ValidTime, WindowKeyForRun;
    var r := Do(s, TimerFires(lockFree, otherOperation, true, luck));
    AttemptsExactly(s, lockFree, otherOperation, true, luck);
    if !Due(s) {
      EarlyTimerIsSetAgain(s, lockFree, otherOperation, true, luck);
    } else if !MayAttempt(s, lockFree, otherOperation) {
      PassedOverIsReplaced(s, lockFree, otherOperation, true, luck);
      forall s', memory | Rescheduled(r, s', memory, luck) && ValidTime(memory.settings)
        ensures Waits(r)
      {
        RescheduledWaits(r, s', memory, luck);
      }
    }
  }

  lemma StepStillWaits(s: State, event: Event)
    requires Waits(s) && WritesWork(event)
    ensures Waits(Do(s, event))
  {
    hide Do, Rescheduled, IsScheduled, ValidTime;
    if event.TimerFires? {
      if s.timer {
        TimerStillWaits(s, event.lockFree, event.otherOperation, event.luck);
      } else {
        NoTimerNoWake(s, event);
      }
    } else {
      OtherEventsExactly(s, event);
      DefaultsAreValid();
      if !event.Tick? {
        forall s', memory | Rescheduled(Do(s, event), s', memory, event.luck) && ValidTime(memory.settings)
          ensures Waits(Do(s, event))
        {
          RescheduledWaits(Do(s, event), s', memory, event.luck);
        }
      }
    }
  }

  lemma NoTimerNoWake(s: State, event: Event)
    requires event.TimerFires? && !s.timer
    ensures Do(s, event) == s
  {}

  /**
   As long as its store can be read and written, an enabled manager that is
   neither blocked nor busy always waits for a window of its settings, over
   any events. With `AttemptsExactly` and `PassedOverIsReplaced`, that window
   is attempted or replaced by a later one.
   */
  lemma {:induction false} WindowIsAwaited(s: State, events: seq<Event>)
    requires Waits(s) && forall event :: event in events ==> WritesWork(event)
    ensures Waits(Run(s, events))
    decreases |events|
  {
    hide Do, Waits, WritesWork;
    if events != [] {
      assert events[0] in events;
      StepStillWaits(s, events[0]);
      WindowIsAwaited(Do(s, events[0]), events[1..]);
    }
  }

  /** A new process waits from its start, whatever it finds on disk. */
  lemma FreshProcessWaits(now: Instant, disk: Store, luck: Luck)
    requires ValidTime(disk.settings) && luck.saves
    ensures Waits(Do(State(now, disk, disk, false, false, []), Restart(true, luck)))
  {
    hide Do, Rescheduled, ValidTime;
    var s := State(now, disk, disk, false, false, []);
    OtherEventsExactly(s, Restart(true, luck));
    RescheduledWaits(Do(s, Restart(true, luck)), s.(running := false), Normalized(disk), luck);
  }
}
