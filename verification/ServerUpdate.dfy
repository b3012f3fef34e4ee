/** The server update of electron/server-manager.js, whose every step may fail. */
module ServerUpdate {
  import opened JsStrings

  /** What Compose will start: the image tag in the environment file and the update channel in the settings. */
  datatype Selection = Selection(version: JsString, channel: JsString)

  datatype Step = Pull | Drain | ResetMigration | StartMigration | StartAll

  /** A Docker command, with the version selected when it ran. */
  datatype Command = Command(step: Step, version: JsString, ok: bool)

  /** Which of the steps succeed, if they are reached. */
  datatype Outcomes = Outcomes(
    versionWritten: bool, channelWritten: bool,
    pull: bool, drain: bool, reset: bool, migrate: bool, start: bool,
    ready: bool, recorded: bool, stateRead: bool,
    diagnosed: bool, offlineDrain: bool,
    versionRestored: bool, channelRestored: bool,
    rollbackDrain: bool, rollbackPull: bool, rollbackStart: bool)

  const STABLE := Js("stable")

  /** The version a failed update returns to. */
  function Previous(selection: Selection): Selection {
    selection.(version := if selection.version == [] then STABLE else selection.version)
  }

  // ------------------------------------------------------------ the run as a function of its outcomes

  datatype Attempt = Attempt(selection: Selection, run: seq<Command>, ok: bool, draining: bool, migrating: bool)

  function FinishedRun(target: Selection, o: Outcomes): seq<Command>
  {
    var v := target.version;
    [Command(Pull, v, true), Command(Drain, v, true), Command(ResetMigration, v, true),
     Command(StartMigration, v, true), Command(StartAll, v, o.start)]
  }

  function TriedRun(before: Selection, target: Selection, o: Outcomes): Attempt {
    var v := target.version;
    if !o.versionWritten then Attempt(before, [], false, false, false)
    else if !o.channelWritten then Attempt(before.(version := v), [], false, false, false)
    else if !o.pull then Attempt(target, [Command(Pull, v, false)], false, false, false)
    else if !o.drain then Attempt(target, FinishedRun(target, o)[..1] + [Command(Drain, v, false)], false, true, false)
    else if !o.reset then
      Attempt(target, FinishedRun(target, o)[..2] + [Command(ResetMigration, v, false)], false, true, false)
    else if !o.migrate then
      Attempt(target, FinishedRun(target, o)[..3] + [Command(StartMigration, v, false)], false, true, true)
    else
      Attempt(target, FinishedRun(target, o), o.start && o.ready && o.recorded && o.stateRead, true, true)
  }

  function RollbackCommands(v: JsString, o: Outcomes): seq<Command> {
    if !o.rollbackDrain then [Command(Drain, v, false)]
    else if !o.rollbackPull then [Command(Drain, v, true), Command(Pull, v, false)]
    else [Command(Drain, v, true), Command(Pull, v, true), Command(StartAll, v, o.rollbackStart)]
  }

  /** The selection and the commands after the failure of an attempt. */
  function Recovered(before: Selection, target: Selection, a: Attempt, o: Outcomes): Attempt {
    var previous := Previous(before);
    if a.migrating then
      if o.diagnosed then a.(run := a.run + [Command(Drain, a.selection.version, o.offlineDrain)]) else a
    else if previous == target then a
    else if !o.versionRestored then a
    else
      var restored := a.(selection := a.selection.(version := previous.version));
      if !o.channelRestored then restored
      else
        restored.(selection := previous,
                  run := a.run + if a.draining then RollbackCommands(previous.version, o) else [])
  }

  function UpdateRun(before: Selection, target: Selection, o: Outcomes): Attempt {
    var a := TriedRun(before, target, o);
    if a.ok then a else Recovered(before, target, a, o)
  }

  // ------------------------------------------------------------ the run step by step

  class Installation {
    var selection: Selection
    var log: seq<Command>

    constructor (initial: Selection)
      ensures selection == initial && log == []
    {
      selection, log := initial, [];
    }

    method Docker(step: Step, works: bool) returns (ok: bool)
      modifies this`log
      ensures ok == works && log == old(log) + [Command(step, selection.version, works)]
    {
      log := log + [Command(step, selection.version, works)];
      ok := works;
    }

    /** The body of the `try` block. */
    method TryUpdate(target: Selection, o: Outcomes) returns (ok: bool, draining: bool, migrating: bool)
      modifies this
      ensures var a := TriedRun(old(selection), target, o);
              && selection == a.selection && log == old(log) + a.run
              && ok == a.ok && draining == a.draining && migrating == a.migrating
    {
      ok, draining, migrating := false, false, false;
      if !o.versionWritten {
        return;
      }
      selection := selection.(version := target.version);
      if !o.channelWritten {
        return;
      }
      selection := selection.(channel := target.channel);
      var done := Docker(Pull, o.pull);
      if !done {
        return;
      }
      draining := true;
      done := Docker(Drain, o.drain);
      if !done {
        return;
      }
      done := Docker(ResetMigration, o.reset);
      if !done {
        return;
      }
      migrating := true;
      done := Docker(StartMigration, o.migrate);
      if !done {
        return;
      }
      done := Docker(StartAll, o.start);
      ok := done && o.ready && o.recorded && o.stateRead;
    }

    method RollBack(previous: JsString, o: Outcomes)
      requires selection.version == previous
      modifies this`log
      ensures log == old(log) + RollbackCommands(previous, o)
    {
      var ok := Docker(Drain, o.rollbackDrain);
      if ok {
        ok := Docker(Pull, o.rollbackPull);
      }
      if ok {
        ok := Docker(StartAll, o.rollbackStart);
      }
    }

    method Update(target: Selection, o: Outcomes) returns (ok: bool)
      modifies this
      ensures var a := UpdateRun(old(selection), target, o);
              selection == a.selection && log == old(log) + a.run && ok == a.ok
    {
      hide TriedRun, RollbackCommands;
      var previous := if selection.version == [] then STABLE else selection.version;
      var previousChannel := selection.channel;
      var draining, migrating;
      ok, draining, migrating := TryUpdate(target, o);
      if ok {
        return;
      }
      if migrating {
        if o.diagnosed {
          var drained := Docker(Drain, o.offlineDrain);
        }
      } else if previous != target.version || previousChannel != target.channel {
        if !o.versionRestored {
          return;
        }
        selection := selection.(version := previous);
        if !o.channelRestored {
          return;
        }
        selection := selection.(channel := previousChannel);
        if draining {
          RollBack(previous, o);
        }
      }
    }
  }

  // ------------------------------------------------------------ one run, under every pattern of failures

  predicate Starts(command: Command) {
    command.step.StartMigration? || command.step.StartAll?
  }

  ghost predicate Migrates(run: seq<Command>) {
    exists i :: 0 <= i < |run| && run[i].step == StartMigration
  }

  lemma TriedCommands(before: Selection, target: Selection, o: Outcomes)
    ensures var a := TriedRun(before, target, o);
            && (forall c :: c in a.run ==> c.version == target.version)
            && (!a.migrating ==> !a.ok && forall c :: c in a.run ==> !Starts(c))
            && (a.migrating ==> a.selection == target && |a.run| >= 4 && a.run[3].step == StartMigration)
  {}

  lemma RollbackSteps(v: JsString, o: Outcomes)
    ensures var back := RollbackCommands(v, o);
            && (forall c :: c in back ==> c.version == v && c.step != StartMigration)
            && (forall i :: 0 <= i < |back| && Starts(back[i]) ==>
                  && i == 2 && back[2] == Command(StartAll, v, o.rollbackStart)
                  && back[0] == Command(Drain, v, true) && back[1] == Command(Pull, v, true))
            && ((exists c :: c in back && Starts(c)) <==> o.rollbackDrain && o.rollbackPull)
  {
    var back := RollbackCommands(v, o);
    if o.rollbackDrain && o.rollbackPull {
      assert back[2] in back;
    }
  }

  lemma MigratesExactly(before: Selection, target: Selection, o: Outcomes)
    ensures var a := TriedRun(before, target, o); Migrates(UpdateRun(before, target, o).run) <==> a.migrating
    ensures TriedRun(before, target, o).migrating ==>
              |UpdateRun(before, target, o).run| >= 4 && UpdateRun(before, target, o).run[3].step == StartMigration
  {
    hide TriedRun, RollbackCommands;
    var a, b := TriedRun(before, target, o), UpdateRun(before, target, o);
    TriedCommands(before, target, o);
    RollbackSteps(Previous(before).version, o);
    if a.migrating {
      assert b.run[3] == a.run[3];
    } else {
      assert forall c :: c in b.run ==> c.step != StartMigration;
    }
  }

  /** Migrations start only on the target version, right behind a successful drain and reset. */
  lemma MigratesOffline(before: Selection, target: Selection, o: Outcomes, i: nat)
    requires i < |UpdateRun(before, target, o).run| && UpdateRun(before, target, o).run[i].step == StartMigration
    ensures var run := UpdateRun(before, target, o).run;
            && i == 3 && run[3].version == target.version
            && run[1] == Command(Drain, target.version, true) && run[2] == Command(ResetMigration, target.version, true)
  {
    MigratesExactly(before, target, o);
  }

  /** Once migrations have been attempted, only the target can start, and it stays selected. */
  lemma NoReturnAfterMigration(before: Selection, target: Selection, o: Outcomes)
    requires Migrates(UpdateRun(before, target, o).run)
    ensures var a := UpdateRun(before, target, o);
            a.selection == target && forall c :: c in a.run ==> c.version == target.version
    ensures var a := UpdateRun(before, target, o);
            !a.ok && o.diagnosed ==> a.run[|a.run| - 1] == Command(Drain, target.version, o.offlineDrain)
  {
    MigratesExactly(before, target, o);
  }

  /** The forward steps of an update, in their order. */
  const STEPS := [Pull, Drain, ResetMigration, StartMigration, StartAll]

  predicate Works(step: Step, o: Outcomes) {
    match step
    case Pull => o.pull
    case Drain => o.drain
    case ResetMigration => o.reset
    case StartMigration => o.migrate
    case StartAll => o.start
  }

  /** The whole rollback is reached: the old version or channel is another one, and both are selected again. */
  predicate SelectsAgain(before: Selection, target: Selection, o: Outcomes) {
    Previous(before) != target && o.versionRestored && o.channelRestored
  }

  /**
   The commands of a run: the first `n` forward steps on the target, none
   behind a failed one. Then nothing, if all five were run and the rest went
   well; one drain on the target, if the migrations were attempted and the
   failure was diagnosed; or drain, pull and start on the old version, none
   behind a failed one, if the run had begun to drain and selects it again.
   */
  lemma ForwardThenBack(before: Selection, target: Selection, o: Outcomes) returns (n: nat)
    ensures var a := UpdateRun(before, target, o);
            && n <= |STEPS| && n <= |a.run|
            && (n == 0 <==> !o.versionWritten || !o.channelWritten)
            && (forall i :: 0 <= i < n ==> a.run[i] == Command(STEPS[i], target.version, Works(STEPS[i], o)))
            && (forall i :: 0 <= i < n - 1 ==> a.run[i].ok)
            && (0 < n < |STEPS| ==> !a.run[n - 1].ok)
    ensures var a, back := UpdateRun(before, target, o), Previous(before).version;
            if a.ok then a.run[n..] == []
            else if n >= 4 then a.run[n..] == if o.diagnosed then [Command(Drain, target.version, o.offlineDrain)] else []
            else if n < 2 || !SelectsAgain(before, target, o) then a.run[n..] == []
            else a.run[n..] == [Command(Drain, back, o.rollbackDrain), Command(Pull, back, o.rollbackPull),
                                Command(StartAll, back, o.rollbackStart)]
                               [..if !o.rollbackDrain then 1 else if !o.rollbackPull then 2 else 3]
  {
    n := |TriedRun(before, target, o).run|;
    RecoveredRun(before, target, o);
    TriedSteps(before, target, o);
    TriedCommands(before, target, o);
    RollbackPrefix(Previous(before).version, o);
    hide UpdateRun, TriedRun, Works, SelectsAgain, RollbackCommands;
    var run := UpdateRun(before, target, o).run;
    assert forall i :: 0 <= i < n ==> run[i] == TriedRun(before, target, o).run[i];
  }

  lemma TriedSteps(before: Selection, target: Selection, o: Outcomes)
    ensures var a := TriedRun(before, target, o);
            var n := |a.run|;
            && n <= |STEPS|
            && (n == 0 <==> !o.versionWritten || !o.channelWritten)
            && (forall i :: 0 <= i < n ==> a.run[i] == Command(STEPS[i], target.version, Works(STEPS[i], o)))
            && (forall i :: 0 <= i < n - 1 ==> a.run[i].ok)
            && (0 < n < |STEPS| ==> !a.run[n - 1].ok)
            && (a.migrating <==> n >= 4) && (a.draining <==> n >= 2)
            && (a.draining <==> o.versionWritten && o.channelWritten && o.pull)
  {}

  lemma RollbackPrefix(v: JsString, o: Outcomes)
    ensures RollbackCommands(v, o)
         == [Command(Drain, v, o.rollbackDrain), Command(Pull, v, o.rollbackPull), Command(StartAll, v, o.rollbackStart)]
            [..if !o.rollbackDrain then 1 else if !o.rollbackPull then 2 else 3]
  {}

  lemma RecoveredRun(before: Selection, target: Selection, o: Outcomes)
    ensures var a, b := TriedRun(before, target, o), UpdateRun(before, target, o);
            && b.ok == a.ok && a.run <= b.run
            && b.run[|a.run|..] ==
               if a.ok then []
               else if a.migrating then if o.diagnosed then [Command(Drain, target.version, o.offlineDrain)] else []
               else if a.draining && SelectsAgain(before, target, o) then RollbackCommands(Previous(before).version, o)
               else []
  {
    TriedCommands(before, target, o);
    hide TriedRun, RollbackCommands;
  }

  /**
   Success means that every step has succeeded on the target: the services are
   all started once, at the very end, right behind the migrations.
   */
  lemma SuccessIsComplete(before: Selection, target: Selection, o: Outcomes)
    ensures UpdateRun(before, target, o).ok <==>
              o.versionWritten && o.channelWritten && o.pull && o.drain && o.reset && o.migrate && o.start
              && o.ready && o.recorded && o.stateRead
    ensures var a, v := UpdateRun(before, target, o), target.version;
            a.ok ==>
              && a.selection == target
              && a.run == [Command(Pull, v, true), Command(Drain, v, true), Command(ResetMigration, v, true),
                           Command(StartMigration, v, true), Command(StartAll, v, true)]
  {
    RecoveredRun(before, target, o);
  }

  /** Everything is started on the target only behind migrations that succeeded, and then only once. */
  lemma StartsBehindMigrations(before: Selection, target: Selection, o: Outcomes, i: nat)
    requires i < |UpdateRun(before, target, o).run| && UpdateRun(before, target, o).run[i].step == StartAll
    requires Migrates(UpdateRun(before, target, o).run) || Previous(before).version != target.version
    ensures var run := UpdateRun(before, target, o).run;
            if run[i].version == target.version
            then o.migrate && i == 4 && run[3] == Command(StartMigration, target.version, true)
            else !Migrates(run) && run[i].version == Previous(before).version
  {
    hide UpdateRun, Migrates;
    MigratesExactly(before, target, o);
    var n := ForwardThenBack(before, target, o);
    var run := UpdateRun(before, target, o).run;
    assert i >= n ==> run[i] == run[n..][i - n];
    assert n == 5 ==> Works(STEPS[3], o) == o.migrate;
  }

  /** An installation that names no version goes back to the stable one. */
  lemma PreviousExactly(selection: Selection)
    ensures Previous(selection).channel == selection.channel
    ensures Previous(selection).version == selection.version || (selection.version == [] && Previous(selection).version == Js("stable"))
    ensures Previous(selection).version != []
  {}

  /** What is selected after a run. */
  lemma SelectionOfRun(before: Selection, target: Selection, o: Outcomes)
    ensures var a, previous := UpdateRun(before, target, o), Previous(before);
            var version := if o.versionWritten then target.version else before.version;
            var channel := if o.versionWritten && o.channelWritten then target.channel else before.channel;
            a.selection ==
            if Migrates(a.run) then target
            else if previous == target || !o.versionRestored then Selection(version, channel)
            else if !o.channelRestored then Selection(previous.version, channel)
            else previous
  {
    MigratesExactly(before, target, o);
    hide RollbackCommands, Migrates;
  }

  /**
   A failure before the migrations, with another version or channel selected
   before and both rollback writes working, selects that version and channel
   again. The old version is restarted exactly when the update had begun to
   drain and the rollback's own drain and pull succeed.
   */
  lemma RollbackRestores(before: Selection, target: Selection, o: Outcomes)
    requires !Migrates(UpdateRun(before, target, o).run)
    requires Previous(before) != target && o.versionRestored && o.channelRestored
    ensures var a := UpdateRun(before, target, o);
            var previous := Previous(before);
            && !a.ok && a.selection == previous
            && (forall i :: 0 <= i < |a.run| && Starts(a.run[i]) ==>
                  && i >= 2 && a.run[i] == Command(StartAll, previous.version, o.rollbackStart)
                  && a.run[i - 1] == Command(Pull, previous.version, true)
                  && a.run[i - 2] == Command(Drain, previous.version, true))
            && ((exists c :: c in a.run && Starts(c)) <==>
                o.versionWritten && o.channelWritten && o.pull && o.rollbackDrain && o.rollbackPull)
  {
    MigratesExactly(before, target, o);
    TriedCommands(before, target, o);
    TriedSteps(before, target, o);
    RolledBack(before, target, o);
    hide TriedRun, RollbackCommands, Starts, Migrates, UpdateRun, Works;
    var a, b := TriedRun(before, target, o), UpdateRun(before, target, o);
    if a.draining {
      OnlyRollbackStarts(a.run, Previous(before).version, o);
    } else {
      assert b.run == a.run;
    }
  }

  lemma OnlyRollbackStarts(forward: seq<Command>, v: JsString, o: Outcomes)
    requires forall c :: c in forward ==> !Starts(c)
    ensures var run := forward + RollbackCommands(v, o);
            && (forall i :: 0 <= i < |run| && Starts(run[i]) ==>
                  && i >= 2 && run[i] == Command(StartAll, v, o.rollbackStart)
                  && run[i - 1] == Command(Pull, v, true) && run[i - 2] == Command(Drain, v, true))
            && ((exists c :: c in run && Starts(c)) <==> o.rollbackDrain && o.rollbackPull)
  {
    RollbackSteps(v, o);
    hide RollbackCommands, Starts;
  }

  lemma RolledBack(before: Selection, target: Selection, o: Outcomes)
    requires !Migrates(UpdateRun(before, target, o).run)
    requires Previous(before) != target && o.versionRestored && o.channelRestored
    ensures var a := TriedRun(before, target, o);
            UpdateRun(before, target, o)
            == a.(selection := Previous(before),
                  run := a.run + if a.draining then RollbackCommands(Previous(before).version, o) else [])
  {
    hide TriedRun, RollbackCommands;
    MigratesExactly(before, target, o);
    TriedCommands(before, target, o);
  }

  /** Updating to what is selected already starts nothing unless the migrations were reached. */
  lemma SameTargetStartsNothing(before: Selection, target: Selection, o: Outcomes)
    requires !Migrates(UpdateRun(before, target, o).run) && Previous(before) == target && before.version != []
    ensures var a := UpdateRun(before, target, o);
            a.selection == before && !a.ok && forall c :: c in a.run ==> !Starts(c)
  {
    MigratesExactly(before, target, o);
  }

  /** A failed pull leaves every container alone. */
  lemma FailedPullTouchesNothing(before: Selection, target: Selection, o: Outcomes)
    requires !o.versionWritten || !o.channelWritten || !o.pull
    ensures forall c :: c in UpdateRun(before, target, o).run ==> c.step == Pull
  {}

  // ------------------------------------------------------------ many runs

  datatype Update = Update(target: Selection, outcomes: Outcomes)

  function SelectionAfter(before: Selection, updates: seq<Update>): Selection
    decreases |updates|
  {
    if updates == [] then before
    else SelectionAfter(UpdateRun(before, updates[0].target, updates[0].outcomes).selection, updates[1..])
  }

  function History(before: Selection, updates: seq<Update>): seq<Command>
    decreases |updates|
  {
    if updates == [] then []
    else
      var a := UpdateRun(before, updates[0].target, updates[0].outcomes);
      a.run + History(a.selection, updates[1..])
  }

  predicate Targets(updates: seq<Update>, version: JsString) {
    exists update :: update in updates && update.target.version == version
  }

  lemma RunStartsKnownVersions(before: Selection, target: Selection, o: Outcomes)
    requires before.version != []
    ensures var a := UpdateRun(before, target, o);
            && a.selection.version in {before.version, target.version}
            && forall c :: c in a.run ==> c.version in {before.version, target.version}
  {
    TriedCommands(before, target, o);
    TriedSelection(before, target, o);
    RollbackSteps(before.version, o);
    hide TriedRun, RollbackCommands;
  }

  lemma TriedSelection(before: Selection, target: Selection, o: Outcomes)
    ensures TriedRun(before, target, o).selection.version in {before.version, target.version}
  {
  }

  /** Runs only ever use the version selected before them and their own targets. */
  lemma {:induction false} HistoryUsesKnownVersions(before: Selection, updates: seq<Update>)
    requires before.version != [] && forall update :: update in updates ==> update.target.version != []
    ensures forall c :: c in History(before, updates) ==> c.version == before.version || Targets(updates, c.version)
    ensures var v := SelectionAfter(before, updates).version; v == before.version || Targets(updates, v)
    decreases |updates|
  {
    if updates != [] {
      hide UpdateRun;
      var head, rest := updates[0], updates[1..];
      var a := UpdateRun(before, head.target, head.outcomes);
      RunStartsKnownVersions(before, head.target, head.outcomes);
      assert head in updates;
      HistoryUsesKnownVersions(a.selection, rest);
      assert forall v :: Targets(rest, v) ==> Targets(updates, v);
      assert Targets(updates, head.target.version);
    }
  }

  /**
   After a run that attempted migrations, no later run ever starts a version
   that was selected only before it: everything started from then on is that
   run's target or the target of a later run.
   */
  lemma NeverBackAcrossMigration(before: Selection, migrating: Update, later: seq<Update>)
    requires migrating.target.version != [] && forall update :: update in later ==> update.target.version != []
    requires Migrates(UpdateRun(before, migrating.target, migrating.outcomes).run)
    ensures var after := UpdateRun(before, migrating.target, migrating.outcomes).selection;
            forall c :: c in History(after, later) ==> Targets([migrating] + later, c.version)
  {
    hide UpdateRun, History;
    NoReturnAfterMigration(before, migrating.target, migrating.outcomes);
    var after := UpdateRun(before, migrating.target, migrating.outcomes).selection;
    HistoryUsesKnownVersions(after, later);
    assert migrating in [migrating] + later;
    assert forall v :: Targets(later, v) ==> Targets([migrating] + later, v);
  }
}
