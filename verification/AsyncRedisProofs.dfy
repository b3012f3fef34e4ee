/** Where every client of the shared asynchronous Redis connection is, over all interleavings. */
module AsyncRedisProofs {
  import opened JsStrings
  import opened AsyncRedisClient

  // ------------------------------------------------------------ where a client is

  lemma StepIsLocal(s: State, t: Id, action: Action, u: Id, c: Id)
    requires Numbered(s) && ClosesShutClient(s, t)
    ensures SameElsewhere(s, Do(s, t, action), t, u) && SameOtherwise(s, Do(s, t, action), t, c)
  {}

  lemma StepHands(s: State, t: Id, action: Action)
    requires HeldIsOpen(s) && Numbered(s) && ClosesShutClient(s, t)
    ensures Handed(s, Do(s, t, action), t) && Numbered(Do(s, t, action))
  {
    assert Holds(s, t).Some? ==> IsOpen(s, Holds(s, t).value) && Holds(s, t) != s.shared.slot;
  }

  lemma StepClosesShutClients(s: State, t: Id, action: Action, u: Id)
    requires HeldIsOpen(s) && Numbered(s) && ClosesShutClient(s, t) && ClosesShutClient(s, u)
    ensures ClosesShutClient(Do(s, t, action), u)
  {
    assert Holds(s, t).Some? ==> IsOpen(s, Holds(s, t).value);
  }

  /** Every step moves at most one client between the places. */
  lemma StepKeepsInvariant(s: State, t: Id, action: Action)
    requires Invariant(s)
    ensures Invariant(Do(s, t, action))
  {
    hide Do, Owned, Holds, IsOpen, ClosesShutClient;
    var s' := Do(s, t, action);
    forall u: Id
      ensures SameElsewhere(s, s', t, u) && ClosesShutClient(s', u)
    {
      StepIsLocal(s, t, action, u, 0);
      StepClosesShutClients(s, t, action, u);
    }
    forall c: Id
      ensures SameOtherwise(s, s', t, c)
    {
      StepIsLocal(s, t, action, t, c);
    }
    StepHands(s, t, action);
    forall c: Id | IsOpen(s', c) && s'.shared.slot != Some(c)
      ensures exists u :: Holds(s', u) == Some(c)
    {
      if Holds(s', t) != Some(c) {
        assert SameOtherwise(s, s', t, c);
        var u :| Holds(s, u) == Some(c);
        assert SameElsewhere(s, s', t, u);
        assert Holds(s', u) == Some(c);
      }
    }
    HeldStaysOpen(s, s', t);
  }

  lemma HeldStaysOpen(s: State, s': State, t: Id)
    requires Invariant(s) && Handed(s, s', t)
    requires forall u: Id :: SameElsewhere(s, s', t, u)
    requires forall c: Id :: SameOtherwise(s, s', t, c)
    ensures HeldIsOpen(s') && HeldOnce(s')
  {
    hide Owned, Holds, IsOpen, ClosesShutClient;
    forall u | Holds(s', u).Some?
      ensures IsOpen(s', Holds(s', u).value) && Holds(s', u) != s'.shared.slot
    {
      assert SameElsewhere(s, s', t, u) && SameOtherwise(s, s', t, Holds(s', u).value);
    }
    forall u, v | Holds(s', u).Some? && Holds(s', u) == Holds(s', v)
      ensures u == v
    {
      assert SameElsewhere(s, s', t, u) && SameElsewhere(s, s', t, v);
    }
  }

  lemma {:induction false} RunKeepsInvariant(s: State, schedule: Schedule)
    requires Invariant(s)
    ensures Invariant(Run(s, schedule))
    decreases |schedule|
  {
    hide Do, Invariant;
    if schedule != [] {
      StepKeepsInvariant(s, schedule[0].0, schedule[0].1);
      RunKeepsInvariant(Do(s, schedule[0].0, schedule[0].1), schedule[1..]);
    }
  }

  lemma InitiallyInvariant()
    ensures Invariant(INITIAL)
  {}

  // ------------------------------------------------------------ main results

  /**
   In every reachable state every client ever created is in exactly one place:
   the shared slot, one task in flight, or being closed or closed.
   */
  lemma EveryClientHasOnePlace(schedule: Schedule, c: Id)
    requires c in Run(INITIAL, schedule).clients
    ensures var s := Run(INITIAL, schedule);
            var shared := s.shared.slot == Some(c);
            var held := exists t :: Holds(s, t) == Some(c);
            var shut := s.clients[c].status != Open;
            && (shared || held || shut) && !(shared && held) && !(shared && shut) && !(held && shut)
            && forall t, u :: Holds(s, t) == Some(c) && Holds(s, u) == Some(c) ==> t == u && InFlight(s.tasks[t])
  {
    hide Run, Do;
    InitiallyInvariant();
    RunKeepsInvariant(INITIAL, schedule);
    var s := Run(INITIAL, schedule);
    assert IsOpen(s, c) <==> s.clients[c].status == Open;
  }

  /** Once no task is in flight, the only open client is the shared one. */
  lemma OnlySharedClientStaysOpen(schedule: Schedule, c: Id)
    requires var s := Run(INITIAL, schedule); forall t :: t in s.tasks ==> !InFlight(s.tasks[t])
    ensures var s := Run(INITIAL, schedule); IsOpen(s, c) <==> s.shared.slot == Some(c)
  {
    hide Run, Do;
    InitiallyInvariant();
    RunKeepsInvariant(INITIAL, schedule);
  }

  // ------------------------------------------------------------ closing outlives probes

  lemma StepKeepsCreators(s: State, t: Id, action: Action, c: Id, u: Id)
    requires Numbered(s) && c in s.clients
    ensures CreatedBy(Do(s, t, action), c, u) <==> CreatedBy(s, c, u)
  {}

  lemma StepKeepsTask(s: State, t: Id, action: Action, u: Id)
    requires Numbered(s) && EpochIsNotFuture(s, u) && ProbesOwnClient(s, u)
    ensures EpochIsNotFuture(Do(s, t, action), u) && ProbesOwnClient(Do(s, t, action), u)
  {
    if u != t && u in s.tasks && (s.tasks[u].Probing? || s.tasks[u].Probed?) {
      StepKeepsCreators(s, t, action, s.tasks[u].client, u);
    }
  }

  lemma StepKeepsNumbers(s: State, t: Id, action: Action)
    requires Numbered(s) && SlotIsCreated(s) && ProbesOwnClient(s, t)
    ensures Numbered(Do(s, t, action)) && SlotIsCreated(Do(s, t, action))
  {}

  lemma StepKeepsRecorded(s: State, t: Id, action: Action)
    requires Recorded(s)
    ensures Recorded(Do(s, t, action))
  {
    hide Do, EpochIsNotFuture, ProbesOwnClient, Numbered, SlotIsCreated;
    StepKeepsNumbers(s, t, action);
    forall u
      ensures EpochIsNotFuture(Do(s, t, action), u) && ProbesOwnClient(Do(s, t, action), u)
    {
      StepKeepsTask(s, t, action, u);
    }
  }

  lemma StepKeepsOutdated(s: State, t: Id, action: Action, probe: Id)
    requires Recorded(s) && Outdated(s, probe)
    ensures Outdated(Do(s, t, action), probe)
  {
    assert ProbesOwnClient(s, t) && SlotIsCreated(s) && Numbered(s);
  }

  lemma {:induction false} RunKeepsRecorded(s: State, schedule: Schedule)
    requires Recorded(s)
    ensures Recorded(Run(s, schedule))
    decreases |schedule|
  {
    hide Do, Recorded;
    if schedule != [] {
      StepKeepsRecorded(s, schedule[0].0, schedule[0].1);
      RunKeepsRecorded(Do(s, schedule[0].0, schedule[0].1), schedule[1..]);
    }
  }

  lemma {:induction false} RunKeepsOutdated(s: State, schedule: Schedule, probe: Id)
    requires Recorded(s) && Outdated(s, probe)
    ensures Outdated(Run(s, schedule), probe)
    decreases |schedule|
  {
    hide Do, Recorded, Outdated;
    if schedule != [] {
      StepKeepsRecorded(s, schedule[0].0, schedule[0].1);
      StepKeepsOutdated(s, schedule[0].0, schedule[0].1, probe);
      RunKeepsOutdated(Do(s, schedule[0].0, schedule[0].1), schedule[1..], probe);
    }
  }

  lemma {:induction false} RunConcat(s: State, first: Schedule, second: Schedule)
    ensures Run(s, first + second) == Run(Run(s, first), second)
    decreases |first|
  {
    hide Do;
    if first == [] {
      assert first + second == second;
    } else {
      assert (first + second)[1..] == first[1..] + second;
      RunConcat(Do(s, first[0].0, first[0].1), first[1..], second);
    }
  }

  /**
   A probe that read its epoch before a closer detached the shared client
   never installs its client after it, whatever happens later.
   */
  lemma ClosedProbeNeverInstalls(before: Schedule, closer: Id, after: Schedule, probe: Id)
    requires var s := Run(INITIAL, before);
             && closer in s.tasks && s.tasks[closer] == ShuttingDown
             && probe in s.tasks && ConnectEpoch(s.tasks[probe]).Some?
    ensures var s := Run(INITIAL, before + [(closer, Detach)] + after);
            s.shared.slot.Some? ==> !CreatedBy(s, s.shared.slot.value, probe)
  {
    var s := Run(INITIAL, before);
    RunConcat(INITIAL, before, [(closer, Detach)]);
    RunConcat(INITIAL, before + [(closer, Detach)], after);
    RunKeepsRecorded(INITIAL, before);
    StepKeepsRecorded(s, closer, Detach);
    var detached := Do(s, closer, Detach);
    assert [(closer, Detach)][1..] == [];
    assert Run(s, [(closer, Detach)]) == detached;
    assert EpochIsNotFuture(s, probe);
    assert Outdated(detached, probe);
    hide Do, Recorded, Outdated, Run;
    RunKeepsOutdated(detached, after, probe);
    OutdatedIsNotShared(Run(detached, after), probe);
  }

  lemma OutdatedIsNotShared(s: State, t: Id)
    requires Outdated(s, t)
    ensures s.shared.slot.Some? ==> !CreatedBy(s, s.shared.slot.value, t)
  {}

  // ------------------------------------------------------------ what calls come to

  function TaskOf(s: State, t: Id): Option<Task> {
    if t in s.tasks then Some(s.tasks[t]) else None
  }

  /** The step of one task leaves the other tasks alone. */
  lemma OthersStay(s: State, t: Id, action: Action, u: Id)
    requires u != t
    ensures TaskOf(Do(s, t, action), u) == TaskOf(s, u)
  {}

  /** A getter returns the shared client at once, and otherwise connects under the current epoch. */
  lemma GetterReads(s: State, t: Id)
    requires t !in s.tasks
    ensures var s' := Do(Do(s, t, StartGet), t, ReadSlot);
            && s'.shared == s.shared && s'.clients == s.clients
            && TaskOf(s', t) == Some(if s.shared.slot.Some? then Returned(s.shared.slot) else Connecting(s.shared.epoch))
  {}

  /**
   A connecting getter creates a client of its own. When its probe succeeds and
   nothing is shared and no closer has come in between, it shares and returns
   its client; when another client is shared or a closer has come, it closes its
   own and returns what is shared.
   */
  lemma ProbeInstalls(s: State, t: Id)
    requires t in s.tasks && s.tasks[t].Connecting?
    ensures var c, s' := s.nextClient, Do(Do(Do(s, t, Create), t, PingOk), t, Install);
            && s'.clients == s.clients[c := Client(t, Open)] && s'.nextClient == c + 1
            && s'.shared.epoch == s.shared.epoch
            && if s.shared.slot.None? && s.shared.epoch == s.tasks[t].epoch
               then s'.shared.slot == Some(c) && TaskOf(s', t) == Some(Returned(Some(c)))
               else s'.shared.slot == s.shared.slot && (s.shared.slot != Some(c) ==>
                    TaskOf(s', t) == Some(MustClose(c, Select(s.shared.slot))))
  {}

  /** A probe that fails or is cancelled has its client closed; without a client there is nothing to close. */
  lemma ProbeFails(s: State, t: Id)
    requires t in s.tasks && s.tasks[t].Connecting?
    ensures var c, created := s.nextClient, Do(s, t, Create);
            && TaskOf(Do(created, t, PingFails), t) == Some(MustClose(c, Fallback))
            && TaskOf(Do(created, t, PingCancelled), t) == Some(MustClose(c, Raise))
            && Do(created, t, PingFails).shared == s.shared && Do(created, t, PingCancelled).shared == s.shared
            && Do(s, t, CreateFails) == s.(tasks := s.tasks[t := ReadingWinner])
  {}

  /** A client that must be closed is closed, and its task then returns, raises, or reads what is shared by now. */
  lemma ClientIsClosed(s: State, t: Id)
    requires t in s.tasks && s.tasks[t].MustClose? && s.tasks[t].client in s.clients
    ensures var c, next := s.tasks[t].client, s.tasks[t].next;
            var closing := Do(s, t, BeginClose);
            var s' := Do(closing, t, CloseEnds);
            && closing.clients == s.clients[c := s.clients[c].(status := BeingClosed)] && closing.shared == s.shared
            && s'.clients == s.clients[c := s.clients[c].(status := Closed)] && s'.shared == s.shared
            && TaskOf(s', t) == Some(match next
                                     case Select(selected) => Returned(selected)
                                     case Raise => Raised
                                     case Fallback => ReadingWinner
                                     case Done => Returned(None))
            && (next.Fallback? ==> TaskOf(Do(s', t, ReadWinner), t) == Some(Returned(s.shared.slot)))
  {}

  /** A cancelled closing raises; the handler of a getter that had lost closes its client once more before that. */
  lemma CancelledClosing(s: State, t: Id)
    requires t in s.tasks && s.tasks[t].Closing?
    ensures var s' := Do(s, t, CloseCancelled);
            && s'.shared == s.shared && s'.clients == s.clients
            && TaskOf(s', t) == Some(if s.tasks[t].next.Select? then Closing(s.tasks[t].client, Raise) else Raised)
  {}

  /** A closer takes what is shared away, under a new epoch, and closes it; with nothing shared it is done. */
  lemma CloserDetaches(s: State, t: Id)
    requires t !in s.tasks
    ensures var s' := Do(Do(s, t, StartClose), t, Detach);
            && s'.shared.slot == None && s'.shared.epoch == s.shared.epoch + 1 && s'.clients == s.clients
            && TaskOf(s', t) == Some(if s.shared.slot.Some? then MustClose(s.shared.slot.value, Done) else Returned(None))
  {}

  function Alone(s: State, t: Id, steps: seq<Action>): State
    decreases |steps|
  {
    if steps == [] then s else Alone(Do(s, t, steps[0]), t, steps[1..])
  }

  /** No step of this kind is a cancellation. */
  predicate Calm(action: Action) {
    !action.PingCancelled? && !action.CloseCancelled?
  }

  function Steps(task: Task): nat {
    match task
    case Getting => 7
    case Connecting(_) => 6
    case Probing(_, _) => 5
    case Probed(_, _) => 4
    case MustClose(_, _) => 3
    case Closing(_, _) => 2
    case ReadingWinner => 1
    case ShuttingDown => 4
    case _ => 0
  }

  predicate Raises(task: Task) {
    task.Raised? || ((task.MustClose? || task.Closing?) && task.next.Raise?)
  }

  lemma NextStep(s: State, t: Id) returns (action: Action)
    requires t in s.tasks && !s.tasks[t].Returned? && !s.tasks[t].Raised?
    ensures Calm(action) && t in Do(s, t, action).tasks
    ensures var task, task' := s.tasks[t], Do(s, t, action).tasks[t];
            Steps(task') < Steps(task) && (Raises(task') <==> Raises(task))
  {
    match s.tasks[t]
    case Getting => action := ReadSlot;
    case Connecting(_) => action := Create;
    case Probing(_, _) => action := PingOk;
    case Probed(_, _) => action := Install;
    case MustClose(_, _) => action := BeginClose;
    case Closing(_, _) => action := CloseEnds;
    case ReadingWinner => action := ReadWinner;
    case ShuttingDown => action := Detach;
  }

  /** In any state a call can go on to its end on its own, and it only raises if it had been cancelled before. */
  lemma {:induction false} EveryCallEnds(s: State, t: Id) returns (steps: seq<Action>)
    requires t in s.tasks
    ensures |steps| <= 7 && forall action :: action in steps ==> Calm(action)
    ensures t in Alone(s, t, steps).tasks && !InFlight(Alone(s, t, steps).tasks[t])
    ensures Alone(s, t, steps).tasks[t].Raised? <==> Raises(s.tasks[t])
  {
    steps := EndsWithin(s, t);
  }

  lemma {:induction false} EndsWithin(s: State, t: Id) returns (steps: seq<Action>)
    requires t in s.tasks
    ensures |steps| <= Steps(s.tasks[t]) && forall action :: action in steps ==> Calm(action)
    ensures t in Alone(s, t, steps).tasks && !InFlight(Alone(s, t, steps).tasks[t])
    ensures Alone(s, t, steps).tasks[t].Raised? <==> Raises(s.tasks[t])
    decreases Steps(s.tasks[t])
  {
    hide Do, Calm;
    steps := [];
    if !s.tasks[t].Returned? && !s.tasks[t].Raised? {
      var action := NextStep(s, t);
      var rest := EndsWithin(Do(s, t, action), t);
      steps := [action] + rest;
      assert steps[1..] == rest;
    }
  }

  // ------------------------------------------------------------ what is returned has been shared

  ghost predicate WasShared(schedule: Schedule, c: Id) {
    exists k :: 0 <= k <= |schedule| && Run(INITIAL, schedule[..k]).shared.slot == Some(c)
  }

  /** The client that a task returns, or will return once it has closed its own. */
  function Chosen(task: Task): Option<Id> {
    match task
    case Returned(result) => result
    case MustClose(_, Select(selected)) => selected
    case Closing(_, Select(selected)) => selected
    case _ => None
  }

  lemma ChosenIsShared(s: State, t: Id, action: Action, u: Id)
    ensures var s' := Do(s, t, action);
            u in s'.tasks && Chosen(s'.tasks[u]).Some? ==>
              || (u in s.tasks && Chosen(s'.tasks[u]) == Chosen(s.tasks[u]))
              || Chosen(s'.tasks[u]) == s'.shared.slot
  {}

  lemma SharedBefore(schedule: Schedule, last: (Id, Action), c: Id)
    requires WasShared(schedule, c) || Run(INITIAL, schedule + [last]).shared.slot == Some(c)
    ensures WasShared(schedule + [last], c)
  {
    hide Run;
    var all := schedule + [last];
    if WasShared(schedule, c) {
      var k :| 0 <= k <= |schedule| && Run(INITIAL, schedule[..k]).shared.slot == Some(c);
      assert all[..k] == schedule[..k];
    } else {
      assert all[..|all|] == all;
    }
  }

  lemma RunLast(s: State, schedule: Schedule, last: (Id, Action))
    ensures Run(s, schedule + [last]) == Do(Run(s, schedule), last.0, last.1)
  {
    hide Do;
    RunConcat(s, schedule, [last]);
    assert [last][1..] == [];
    var s' := Run(s, schedule);
    assert Run(s', [last]) == Run(Do(s', last.0, last.1), []);
  }

  /** Under every interleaving, a client that a call returns has been the shared one. */
  lemma {:induction false} ReturnedWasShared(schedule: Schedule, t: Id)
    requires var s := Run(INITIAL, schedule); t in s.tasks && Chosen(s.tasks[t]).Some?
    ensures WasShared(schedule, Chosen(Run(INITIAL, schedule).tasks[t]).value)
    decreases |schedule|
  {
    hide Do, WasShared, Chosen;
    if schedule != [] {
      var n := |schedule| - 1;
      var front, last := schedule[..n], schedule[n];
      assert schedule == front + [last];
      hide Run;
      RunLast(INITIAL, front, last);
      var s := Run(INITIAL, front);
      var c := Chosen(Run(INITIAL, schedule).tasks[t]).value;
      ChosenIsShared(s, last.0, last.1, t);
      if t in s.tasks && Chosen(Run(INITIAL, schedule).tasks[t]) == Chosen(s.tasks[t]) {
        ReturnedWasShared(front, t);
      }
      SharedBefore(front, last, c);
    }
  }
}
