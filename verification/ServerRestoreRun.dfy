/** A whole restore, whose every step may fail. */
module ServerRestoreRun {
  import opened JsStrings
  import opened ServerRestore

  datatype Action = StopServices | StopContainers(ids: seq<JsString>) | RunRestore | StartServices | RestartServices

  /** A Docker command, with the containers there were when it ran. */
  datatype Event = Event(action: Action, world: World, ok: bool)

  /** What the caller is told. */
  datatype Report = Restored | Refused | StoppedSafely | RestartFailed | LeftStopped | StartupFailed

  /**
   Which steps succeed, if they are reached, and what the steps with an
   unknown effect leave behind. `safeToRestart` is the recovery decision the
   restore command reported, None when there was none to read.
   */
  datatype Outcomes = Outcomes(
    prepared: bool,
    stop: bool, afterStop: World,
    listed: bool, inventory: Inventory,
    stopRest: bool, afterStopRest: World,
    restore: bool, afterRestore: World, safeToRestart: Option<bool>,
    start: bool, afterStart: World,
    ready: bool, recorded: bool, stateRead: bool,
    restart: bool, afterRestart: World, restartReady: bool)

  /** The run so far, and the flags of the source. */
  datatype Attempt = Attempt(
    world: World, log: seq<Event>,
    stopAttempted: bool, applicationStopped: bool, restoreStarted: bool, dataReplaced: bool, ok: bool)

  function Fenced(world: World, o: Outcomes): Attempt {
    var stopped := Attempt(o.afterStop, [Event(StopServices, world, o.stop)], true, false, false, false, false);
    if !o.stop || !o.listed then stopped
    else
      match RestoreApplicationContainerIds(o.inventory)
      case Failed => stopped
      case Ok(ids) =>
        if ids == [] then stopped.(applicationStopped := true)
        else
          stopped.(world := if o.stopRest then StopAll(o.afterStop, ids) else o.afterStopRest,
                   log := stopped.log + [Event(StopContainers(ids), o.afterStop, o.stopRest)],
                   applicationStopped := o.stopRest)
  }

  function Replaced(a: Attempt, o: Outcomes): Attempt {
    var run := a.(world := o.afterRestore, log := a.log + [Event(RunRestore, a.world, o.restore)], restoreStarted := true);
    if !o.restore then run
    else
      var started := run.(world := o.afterStart, log := run.log + [Event(StartServices, run.world, o.start)],
                          dataReplaced := true);
      if !o.start then started
      else started.(applicationStopped := false, ok := o.ready && o.recorded && o.stateRead)
  }

  function Tried(world: World, o: Outcomes): Attempt {
    if !o.prepared then Attempt(world, [], false, false, false, false, false)
    else
      var a := Fenced(world, o);
      if a.applicationStopped then Replaced(a, o) else a
  }

  predicate Recoverable(a: Attempt, o: Outcomes) {
    var safeToRestart := if a.restoreStarted then o.safeToRestart == Some(true) else true;
    !a.applicationStopped || safeToRestart
  }

  function Recovered(a: Attempt, o: Outcomes): (Attempt, Report) {
    if a.stopAttempted && !a.dataReplaced then
      if Recoverable(a, o) then
        (a.(world := o.afterRestart, log := a.log + [Event(RestartServices, a.world, o.restart)]),
         if o.restart && o.restartReady then StoppedSafely else RestartFailed)
      else (a, LeftStopped)
    else (a, if a.dataReplaced then StartupFailed else Refused)
  }

  function RestoreRun(world: World, o: Outcomes): (Attempt, Report) {
    var a := Tried(world, o);
    if a.ok then (a, Restored) else Recovered(a, o)
  }

  // ------------------------------------------------------------ the run step by step

  class Launcher {
    var world: World
    var log: seq<Event>

    constructor (containers: World)
      ensures world == containers && log == []
    {
      world, log := containers, [];
    }

    method Docker(action: Action, works: bool, after: World) returns (ok: bool)
      modifies this
      ensures ok == works && world == after && log == old(log) + [Event(action, old(world), works)]
    {
      log := log + [Event(action, world, works)];
      world := after;
      ok := works;
    }

    /** The graceful stop and the fence behind it. */
    method StopApplication(o: Outcomes) returns (ok: bool)
      modifies this
      ensures var a := Fenced(old(world), o);
              world == a.world && log == old(log) + a.log && ok == a.applicationStopped
    {
      hide RestoreApplicationContainerIds, StopAll;
      ok := Docker(StopServices, o.stop, o.afterStop);
      if !ok || !o.listed {
        return false;
      }
      var found := FindApplicationContainers(o.inventory);
      if found.Failed? {
        return false;
      }
      if found.value != [] {
        var after := if o.stopRest then StopAll(world, found.value) else o.afterStopRest;
        ok := Docker(StopContainers(found.value), o.stopRest, after);
      }
    }

    method Restore(o: Outcomes) returns (report: Report)
      modifies this
      ensures var r := RestoreRun(old(world), o);
              world == r.0.world && log == old(log) + r.0.log && report == r.1
    {
      hide Fenced;
      if !o.prepared {
        return Refused;
      }
      var stopped := StopApplication(o);
      var restoreStarted, dataReplaced := false, false;
      if stopped {
        restoreStarted := true;
        dataReplaced := Docker(RunRestore, o.restore, o.afterRestore);
        if dataReplaced {
          var started := Docker(StartServices, o.start, o.afterStart);
          if started {
            stopped := false;
            if o.ready && o.recorded && o.stateRead {
              return Restored;
            }
          }
        }
      }
      FencedFlags(old(world), o);
      if dataReplaced {
        return StartupFailed;
      }
      var safeToRestart := if restoreStarted then o.safeToRestart == Some(true) else true;
      if stopped && !safeToRestart {
        return LeftStopped;
      }
      var restarted := Docker(RestartServices, o.restart, o.afterRestart);
      report := if restarted && o.restartReady then StoppedSafely else RestartFailed;
    }
  }

  lemma FencedFlags(world: World, o: Outcomes)
    ensures var a := Fenced(world, o); a.stopAttempted && !a.restoreStarted && !a.dataReplaced && !a.ok
  {}

  // ------------------------------------------------------------ main results

  lemma FencedIsQuiet(world: World, o: Outcomes)
    requires IsInventoryOf(o.inventory, o.afterStop) && Fenced(world, o).applicationStopped
    ensures Quiet(Fenced(world, o).world)
    ensures forall e :: e in Fenced(world, o).log ==> !e.action.RunRestore? && !e.action.RestartServices?
  {
    hide RestoreApplicationContainerIds, Quiet, StopAll;
    FenceIsComplete(o.inventory, o.afterStop);
    StopNothing(o.afterStop);
  }

  lemma {:induction false} StopNothing(world: World)
    ensures StopAll(world, []) == world
    decreases |world|
  {
    if world != [] {
      StopNothing(world[1..]);
      assert world == [world[0]] + world[1..];
    }
  }

  lemma FencedCommands(world: World, o: Outcomes)
    ensures forall e :: e in Fenced(world, o).log ==> e.action.StopServices? || e.action.StopContainers?
  {
    hide RestoreApplicationContainerIds, StopAll;
  }

  /** The restore command only ever runs when no active container is an application or one-off container. */
  lemma RestoresInQuiet(world: World, o: Outcomes, e: Event)
    requires IsInventoryOf(o.inventory, o.afterStop)
    requires e in RestoreRun(world, o).0.log && e.action == RunRestore
    ensures Quiet(e.world)
  {
    hide Fenced, Quiet;
    FencedCommands(world, o);
    FencedFlags(world, o);
    if Fenced(world, o).applicationStopped {
      FencedIsQuiet(world, o);
    }
  }

  ghost predicate Ran(log: seq<Event>, action: Action, ok: bool) {
    exists e :: e in log && e.action == action && e.ok == ok
  }

  ghost predicate Attempted(log: seq<Event>, action: Action) {
    Ran(log, action, true) || Ran(log, action, false)
  }

  lemma FencedStops(world: World, o: Outcomes)
    ensures Fenced(world, o).log != [] && Fenced(world, o).log[0] == Event(StopServices, world, o.stop)
  {
    hide RestoreApplicationContainerIds, StopAll;
  }

  // ------------------------------------------------------------ the whole log

  /** The containers there are behind a command. */
  function After(e: Event, o: Outcomes): World {
    match e.action
    case StopServices => o.afterStop
    case StopContainers(ids) => if e.ok then StopAll(e.world, ids) else o.afterStopRest
    case RunRestore => o.afterRestore
    case StartServices => o.afterStart
    case RestartServices => o.afterRestart
  }

  predicate Succeeds(action: Action, o: Outcomes) {
    match action
    case StopServices => o.stop
    case StopContainers(_) => o.stopRest
    case RunRestore => o.restore
    case StartServices => o.start
    case RestartServices => o.restart
  }

  function Place(action: Action): nat {
    match action
    case StopServices => 0
    case StopContainers(_) => 1
    case RunRestore => 2
    case StartServices => 3
    case RestartServices => 4
  }

  /** Commands in the order of their places, each run in the world that the one before it left, up to `last`. */
  ghost predicate Plays(world: World, log: seq<Event>, o: Outcomes, last: World)
    decreases |log|
  {
    if log == [] then last == world
    else
      var front, e := log[..|log| - 1], log[|log| - 1];
      && last == After(e, o) && e.ok == Succeeds(e.action, o)
      && (forall before :: before in front ==> Place(before.action) < Place(e.action))
      && Plays(world, front, o, e.world)
  }

  lemma PlaysOn(world: World, log: seq<Event>, o: Outcomes, last: World, e: Event)
    requires Plays(world, log, o, last) && e.world == last && e.ok == Succeeds(e.action, o)
    requires forall before :: before in log ==> Place(before.action) < Place(e.action)
    ensures Plays(world, log + [e], o, After(e, o))
  {
    assert (log + [e])[..|log + [e]| - 1] == log;
  }

  /** What the fence listed for stopping, None when it could not be told. */
  function Listed(o: Outcomes): Option<seq<JsString>> {
    if !o.listed then None
    else
      match RestoreApplicationContainerIds(o.inventory)
      case Failed => None
      case Ok(ids) => Some(ids)
  }

  lemma FencedPlays(world: World, o: Outcomes)
    ensures var a := Fenced(world, o);
            && Plays(world, a.log, o, a.world)
            && (forall e :: e in a.log ==> e.action == StopServices || (o.stop && Listed(o).Some? && Listed(o).value != []
                                                                        && e.action == StopContainers(Listed(o).value)))
            && (o.stop && Listed(o).Some? && Listed(o).value != [] ==>
                Event(StopContainers(Listed(o).value), o.afterStop, o.stopRest) in a.log)
            && (a.applicationStopped <==> o.stop && Listed(o).Some? && (Listed(o).value == [] || o.stopRest))
  {
    hide RestoreApplicationContainerIds, StopAll, After, Plays, Succeeds, Place;
    var stop := Event(StopServices, world, o.stop);
    NothingPlays(world, o);
    Facts(stop, o);
    PlaysOn(world, [], o, world, stop);
    assert [] + [stop] == [stop];
    if o.stop && Listed(o).Some? && Listed(o).value != [] {
      var rest := Event(StopContainers(Listed(o).value), o.afterStop, o.stopRest);
      Facts(rest, o);
      PlaysOn(world, [stop], o, o.afterStop, rest);
      assert rest in [stop] + [rest];
    }
  }

  lemma NothingPlays(world: World, o: Outcomes)
    ensures Plays(world, [], o, world)
  {}

  /** The outcome, the place and the effect of a command, one by one. */
  lemma Facts(e: Event, o: Outcomes)
    ensures e.action.StopServices? ==> Succeeds(e.action, o) == o.stop && After(e, o) == o.afterStop && Place(e.action) == 0
    ensures e.action.StopContainers? ==>
              && Succeeds(e.action, o) == o.stopRest && Place(e.action) == 1
              && After(e, o) == if e.ok then StopAll(e.world, e.action.ids) else o.afterStopRest
    ensures e.action.RunRestore? ==> Succeeds(e.action, o) == o.restore && After(e, o) == o.afterRestore && Place(e.action) == 2
    ensures e.action.StartServices? ==> Succeeds(e.action, o) == o.start && After(e, o) == o.afterStart && Place(e.action) == 3
    ensures e.action.RestartServices? ==>
              Succeeds(e.action, o) == o.restart && After(e, o) == o.afterRestart && Place(e.action) == 4
  {}

  lemma TriedPlays(world: World, o: Outcomes)
    ensures Plays(world, Tried(world, o).log, o, Tried(world, o).world)
    ensures forall e :: e in Tried(world, o).log ==> !e.action.RestartServices?
  {
    hide Fenced, Replaced, Plays, Place;
    NothingPlays(world, o);
    FencedPlays(world, o);
    FencedPlaces(world, o);
    if o.prepared && Fenced(world, o).applicationStopped {
      ReplacedPlays(world, Fenced(world, o), o);
    }
  }

  lemma ReplacedPlays(world: World, a: Attempt, o: Outcomes)
    requires Plays(world, a.log, o, a.world)
    requires forall e :: e in a.log ==> Place(e.action) <= 1
    ensures Plays(world, Replaced(a, o).log, o, Replaced(a, o).world)
    ensures forall e :: e in Replaced(a, o).log ==> e in a.log || e.action.RunRestore? || e.action.StartServices?
  {
    hide After, Plays, Succeeds, Place;
    var run := Event(RunRestore, a.world, o.restore);
    Facts(run, o);
    PlaysOn(world, a.log, o, a.world, run);
    if o.restore {
      var start := Event(StartServices, o.afterRestore, o.start);
      Facts(start, o);
      PlaysOn(world, a.log + [run], o, o.afterRestore, start);
    }
  }

  lemma FencedPlaces(world: World, o: Outcomes)
    ensures forall e :: e in Fenced(world, o).log ==> Place(e.action) <= 1
  {
    hide Fenced;
    FencedCommands(world, o);
  }

  /**
   Every command succeeds as its outcome says and finds what the one before it
   left; the restore ends with what the last one left.
   */
  lemma RestorePlays(world: World, o: Outcomes)
    ensures var a := RestoreRun(world, o).0; Plays(world, a.log, o, a.world)
  {
    hide Tried, After, Plays, Succeeds, Place;
    TriedPlays(world, o);
    var a, r := Tried(world, o), RestoreRun(world, o).0;
    if r.log != a.log {
      var restart := Event(RestartServices, a.world, o.restart);
      Facts(restart, o);
      PlacesBelow(a.log, o);
      PlaysOn(world, a.log, o, a.world, restart);
    }
  }

  lemma PlacesBelow(log: seq<Event>, o: Outcomes)
    requires forall e :: e in log ==> !e.action.RestartServices?
    ensures forall e :: e in log ==> Place(e.action) < 4
  {}

  /** The fence is closed: the graceful stop and the stop of the rest, if there is any, succeed. */
  predicate FenceCloses(o: Outcomes) {
    o.prepared && o.stop && Listed(o).Some? && (Listed(o).value == [] || o.stopRest)
  }

  lemma TriedEvents(world: World, o: Outcomes, e: Event)
    ensures e in Tried(world, o).log <==>
              || (o.prepared && e == Event(StopServices, world, o.stop))
              || (o.prepared && o.stop && Listed(o).Some? && Listed(o).value != []
                  && e == Event(StopContainers(Listed(o).value), o.afterStop, o.stopRest))
              || (FenceCloses(o) && e == Event(RunRestore, Fenced(world, o).world, o.restore))
              || (FenceCloses(o) && o.restore && e == Event(StartServices, o.afterRestore, o.start))
  {
    hide Fenced, StopAll, RestoreApplicationContainerIds;
    FencedPlays(world, o);
    FencedFlags(world, o);
    FencedStops(world, o);
    var f := Fenced(world, o);
    assert f.log[0] in f.log;
  }

  /** Whether a command is reached. */
  predicate Reached(action: Action, o: Outcomes) {
    match action
    case StopServices => o.prepared
    case StopContainers(ids) => o.prepared && o.stop && Listed(o) == Some(ids) && ids != []
    case RunRestore => FenceCloses(o)
    case StartServices => FenceCloses(o) && o.restore
    case RestartServices => o.prepared && if FenceCloses(o) then !o.restore && o.safeToRestart == Some(true) else true
  }

  lemma TriedRan(world: World, o: Outcomes, action: Action, ok: bool)
    ensures Ran(Tried(world, o).log, action, ok) <==>
              ok == Succeeds(action, o) && Reached(action, o) && !action.RestartServices?
  {
    hide Tried, Fenced, FenceCloses, Listed;
    var log := Tried(world, o).log;
    if Ran(log, action, ok) {
      var e :| e in log && e.action == action && e.ok == ok;
      TriedEvents(world, o, e);
    }
    var before := match action
      case StopServices => world
      case StopContainers(_) => o.afterStop
      case RunRestore => Fenced(world, o).world
      case _ => o.afterRestore;
    TriedEvents(world, o, Event(action, before, ok));
  }

  lemma RestoreRan(world: World, o: Outcomes, action: Action, ok: bool)
    ensures Ran(RestoreRun(world, o).0.log, action, ok) <==> ok == Succeeds(action, o) && Reached(action, o)
  {
    hide Tried, Fenced, FenceCloses, Listed;
    TriedRan(world, o, action, ok);
    var a, r := Tried(world, o), RestoreRun(world, o).0;
    var restart := Event(RestartServices, a.world, o.restart);
    TriedEvents(world, o, restart);
    TriedFlags(world, o);
    if r.log != a.log {
      assert r.log == a.log + [restart];
      assert forall e :: e in r.log <==> e in a.log || e == restart;
    }
  }

  /** Which commands are run, each in terms of the ones before it. */
  lemma CommandsOfRestore(world: World, o: Outcomes, ids: seq<JsString>)
    ensures var log := RestoreRun(world, o).0.log;
            && (Attempted(log, StopServices) <==> o.prepared)
            && (Attempted(log, StopContainers(ids)) <==>
                Ran(log, StopServices, true) && Listed(o) == Some(ids) && ids != [])
            && (Attempted(log, RunRestore) <==>
                && Ran(log, StopServices, true) && Listed(o).Some?
                && (Listed(o).value == [] || Ran(log, StopContainers(Listed(o).value), true)))
            && (Attempted(log, StartServices) <==> Ran(log, RunRestore, true))
  {
    hide RestoreRun, Listed, Ran;
    forall action, ok
      ensures Ran(RestoreRun(world, o).0.log, action, ok) <==> ok == Succeeds(action, o) && Reached(action, o)
    {
      RestoreRan(world, o, action, ok);
    }
  }

  /**
   After a failure the services are restarted exactly when their stop had
   begun, the data was not replaced, and the restore command either never
   started or reported that a restart is safe.
   */
  lemma RestartsOnlyWhenSafe(world: World, o: Outcomes)
    ensures var log := RestoreRun(world, o).0.log;
            Attempted(log, RestartServices) <==>
              && Attempted(log, StopServices) && !Ran(log, RunRestore, true)
              && (Attempted(log, RunRestore) ==> o.safeToRestart == Some(true))
  {
    hide RestoreRun, Listed, Ran;
    forall action, ok
      ensures Ran(RestoreRun(world, o).0.log, action, ok) <==> ok == Succeeds(action, o) && Reached(action, o)
    {
      RestoreRan(world, o, action, ok);
    }
  }

  /** What the caller is told is what happened. */
  lemma ReportIsTruthful(world: World, o: Outcomes)
    ensures var (a, report) := RestoreRun(world, o);
            var replaced, started := Ran(a.log, RunRestore, true), Ran(a.log, StartServices, true);
            var healthy := started && o.ready && o.recorded && o.stateRead;
            && (report == Refused <==> a.log == [])
            && (report == Restored <==> replaced && healthy)
            && (report == StartupFailed <==> replaced && !healthy)
            && (report in {StoppedSafely, RestartFailed} <==> Attempted(a.log, RestartServices))
            && (report == StoppedSafely <==> Ran(a.log, RestartServices, true) && o.restartReady)
            && (report == LeftStopped <==> Ran(a.log, RunRestore, false) && o.safeToRestart != Some(true))
  {
    ReportByOutcomes(world, o);
    hide RestoreRun, Listed, Ran;
    forall action, ok
      ensures Ran(RestoreRun(world, o).0.log, action, ok) <==> ok == Succeeds(action, o) && Reached(action, o)
    {
      RestoreRan(world, o, action, ok);
    }
  }

  lemma ReportByOutcomes(world: World, o: Outcomes)
    ensures var (a, report) := RestoreRun(world, o);
            && (a.log == [] <==> !o.prepared)
            && report == if !o.prepared then Refused
                         else if FenceCloses(o) && o.restore then
                           if o.start && o.ready && o.recorded && o.stateRead then Restored else StartupFailed
                         else if FenceCloses(o) && o.safeToRestart != Some(true) then LeftStopped
                         else if o.restart && o.restartReady then StoppedSafely else RestartFailed
  {
    hide Tried, Listed;
    TriedFlags(world, o);
  }

  lemma TriedFlags(world: World, o: Outcomes)
    ensures var a := Tried(world, o);
            && (a.stopAttempted <==> o.prepared) && (a.log == [] <==> !o.prepared)
            && (a.dataReplaced <==> FenceCloses(o) && o.restore)
            && (a.restoreStarted <==> FenceCloses(o))
            && (!a.dataReplaced ==> (a.applicationStopped <==> FenceCloses(o)))
            && (a.ok <==> FenceCloses(o) && o.restore && o.start && o.ready && o.recorded && o.stateRead)
  {
    hide Fenced, StopAll, RestoreApplicationContainerIds;
    FencedPlays(world, o);
    FencedFlags(world, o);
    FencedStops(world, o);
  }
}
