/**
 Automatic updates of electron/scheduled-updates.js, on a local calendar
 without daylight saving.
 */
module ScheduledUpdates {
  import opened JsStrings

  // ------------------------------------------------------------ the calendar

  const DAY := 86_400_000

  /** Milliseconds since the first local midnight. */
  type Instant = int

  function DayOf(instant: Instant): int {
    instant / DAY
  }

  /** 0 is Sunday; day 0 was a Thursday. */
  function Weekday(day: int): int {
    (day + 4) % 7
  }

  datatype Schedule = Daily | Weekends | Custom(selected: set<int>)

  datatype Settings = Settings(enabled: bool, schedule: Schedule, hour: int, minute: int)

  const ALL_WEEKDAYS: set<int> := {0, 1, 2, 3, 4, 5, 6}

  /** The days on which updates may run; an empty selection means all of them. */
  function ScheduleWeekdays(schedule: Schedule): (days: set<int>)
    ensures days != {} && days <= ALL_WEEKDAYS
  {
    match schedule
    case Daily => ALL_WEEKDAYS
    case Weekends => {0, 6}
    case Custom(selected) => if selected * ALL_WEEKDAYS == {} then ALL_WEEKDAYS else selected * ALL_WEEKDAYS
  }

  predicate ValidTime(settings: Settings) {
    0 <= settings.hour < 24 && 0 <= settings.minute < 60
  }

  function TimeOfDay(settings: Settings): int {
    (settings.hour * 60 + settings.minute) * 60_000
  }

  function RunOn(settings: Settings, day: int): Instant {
    day * DAY + TimeOfDay(settings)
  }

  /** An instant at which the schedule asks for a run. */
  predicate IsScheduled(settings: Settings, instant: Instant) {
    instant == RunOn(settings, DayOf(instant)) && Weekday(DayOf(instant)) in ScheduleWeekdays(settings.schedule)
  }

  /** The search from an offset on, for at most two weeks. */
  function Search(settings: Settings, from: Instant, offset: int): Option<Instant>
    decreases 14 - offset
  {
    if offset >= 14 then None
    else
      var day := DayOf(from) + offset;
      if Weekday(day) in ScheduleWeekdays(settings.schedule) && RunOn(settings, day) > from then Some(RunOn(settings, day))
      else Search(settings, from, offset + 1)
  }

  function NextRunDate(settings: Settings, from: Instant): Option<Instant> {
    if settings.enabled then Search(settings, from, 0) else None
  }

  method FindNextRun(settings: Settings, from: Instant) returns (next: Option<Instant>)
    ensures next == NextRunDate(settings, from)
  {
    hide Weekday, ScheduleWeekdays, RunOn, DayOf;
    if !settings.enabled {
      return None;
    }
    var weekdays := ScheduleWeekdays(settings.schedule);
    for offset := 0 to 14
      invariant NextRunDate(settings, from) == Search(settings, from, offset)
    {
      var day := DayOf(from) + offset;
      var candidate := RunOn(settings, day);
      if Weekday(day) in weekdays && candidate > from {
        return Some(candidate);
      }
    }
    next := None;
  }

  lemma DayOfRun(settings: Settings, day: int)
    requires ValidTime(settings)
    ensures DayOf(RunOn(settings, day)) == day
  {
    TimeIsInDay(settings);
    var t := TimeOfDay(settings);
    assert (day * DAY + t) / DAY == day;
  }

  lemma TimeIsInDay(settings: Settings)
    requires ValidTime(settings)
    ensures 0 <= TimeOfDay(settings) < DAY
  {}

  lemma DayBounds(instant: Instant)
    ensures DayOf(instant) * DAY <= instant < (DayOf(instant) + 1) * DAY
  {}

  lemma LaterDayIsLater(settings: Settings, from: Instant, offset: int)
    requires ValidTime(settings) && offset >= 1
    ensures RunOn(settings, DayOf(from) + offset) > from
  {
    DayBounds(from);
    TimeIsInDay(settings);
    hide DayOf, TimeOfDay;
    assert (DayOf(from) + offset) * DAY >= (DayOf(from) + 1) * DAY;
  }

  /** Some day of every week is allowed. */
  lemma AllowedDayAhead(schedule: Schedule, day: int) returns (offset: int)
    ensures 1 <= offset <= 7 && Weekday(day + offset) in ScheduleWeekdays(schedule)
  {
    var allowed :| allowed in ScheduleWeekdays(schedule);
    assert allowed in ALL_WEEKDAYS && 0 <= allowed < 7;
    var today := Weekday(day);
    offset := if allowed > today then allowed - today else allowed - today + 7;
    assert day + 4 == 7 * ((day + 4) / 7) + today;
    WeekdayAhead(day, offset, allowed);
  }

  lemma WeekdayAhead(day: int, offset: int, allowed: int)
    requires 0 <= allowed < 7 && (offset == allowed - Weekday(day) || offset == allowed - Weekday(day) + 7)
    ensures Weekday(day + offset) == allowed
  {}

  lemma {:induction false} SearchFinds(settings: Settings, from: Instant, offset: int, allowed: int)
    requires ValidTime(settings) && 0 <= offset <= allowed < 14 && allowed >= 1
    requires Weekday(DayOf(from) + allowed) in ScheduleWeekdays(settings.schedule)
    ensures Search(settings, from, offset).Some?
    decreases allowed - offset
  {
    hide Weekday, DayOf, RunOn, ScheduleWeekdays;
    LaterDayIsLater(settings, from, allowed);
    if offset < allowed {
      SearchFinds(settings, from, offset + 1, allowed);
    }
  }

  /** What is found is scheduled and later than `from`, and no such day at or behind the offset is passed over. */
  lemma {:induction false} SearchIsLeast(settings: Settings, from: Instant, offset: int, day: int)
    requires ValidTime(settings) && offset >= 0 && Search(settings, from, offset).Some?
    ensures var found := Search(settings, from, offset).value;
            && found > from && found == RunOn(settings, DayOf(found))
            && Weekday(DayOf(found)) in ScheduleWeekdays(settings.schedule)
            && ((DayOf(from) + offset <= day && Weekday(day) in ScheduleWeekdays(settings.schedule)
                 && RunOn(settings, day) > from) ==> DayOf(found) <= day)
    decreases 14 - offset
  {
    hide Weekday, DayOf, RunOn, ScheduleWeekdays;
    DayOfRun(settings, DayOf(from) + offset);
    var candidate := DayOf(from) + offset;
    if !(Weekday(candidate) in ScheduleWeekdays(settings.schedule) && RunOn(settings, candidate) > from) {
      SearchIsLeast(settings, from, offset + 1, day);
    }
  }

  /** The search always succeeds, and finds the least scheduled instant behind `from`. */
  lemma NextRunIsLeast(settings: Settings, from: Instant, other: Instant)
    requires settings.enabled && ValidTime(settings)
    ensures NextRunDate(settings, from).Some?
    ensures var next := NextRunDate(settings, from).value;
            && next > from && IsScheduled(settings, next)
            && (IsScheduled(settings, other) && other > from ==> next <= other)
  {
    var offset := AllowedDayAhead(settings.schedule, DayOf(from));
    SearchFinds(settings, from, 0, offset);
    SearchIsLeast(settings, from, 0, DayOf(other));
    var next := NextRunDate(settings, from).value;
    DayBounds(from);
    DayBounds(other);
    if IsScheduled(settings, other) && other > from {
      SameTimeOrder(settings, DayOf(next), DayOf(other), from, other);
    }
    hide Weekday, DayOf, ScheduleWeekdays, Search;
  }

  lemma SameTimeOrder(settings: Settings, first: int, second: int, from: Instant, other: Instant)
    ensures first <= second ==> RunOn(settings, first) <= RunOn(settings, second)
    ensures other > from ==> DayOf(from) <= DayOf(other)
  {
    hide TimeOfDay;
    DayBounds(from);
    DayBounds(other);
  }

  /** Which days a schedule allows; day 0 was a Thursday, so days 2 and 3 were a weekend. */
  lemma DaysExactly(schedule: Schedule, day: int)
    ensures var allowed := Weekday(day) in ScheduleWeekdays(schedule);
            match schedule
            case Daily => allowed
            case Weekends => allowed <==> day % 7 == 2 || day % 7 == 3
            case Custom(selected) => allowed <==> Weekday(day) in selected || !exists d: int :: 0 <= d < 7 && d in selected
    ensures 0 <= Weekday(day) < 7 && Weekday(day + 1) == (if Weekday(day) == 6 then 0 else Weekday(day) + 1)
    ensures Weekday(0) == 4
  {
    assert forall d: int :: 0 <= d < 7 <==> d in ALL_WEEKDAYS;
    if schedule.Custom? {
      assert forall d :: d in schedule.selected * ALL_WEEKDAYS <==> d in schedule.selected && d in ALL_WEEKDAYS;
    }
  }
}
