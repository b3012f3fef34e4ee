/**
 The shared asynchronous Redis client of backend/app/redis_client.py: any
 number of getters and closers, interleaved at every lock and every await.
 */
module AsyncRedisClient {
  import opened JsStrings

  type Id = nat

  // ------------------------------------------------------------ the sections under the lock

  datatype Shared = Shared(slot: Option<Id>, epoch: nat)

  predicate MayInstall(shared: Shared, connectEpoch: nat) {
    shared.slot.None? && shared.epoch == connectEpoch
  }

  function Installed(shared: Shared, client: Id, connectEpoch: nat): Shared {
    if MayInstall(shared, connectEpoch) then shared.(slot := Some(client)) else shared
  }

  function DetachedFrom(shared: Shared): Shared {
    Shared(None, shared.epoch + 1)
  }

  /** The module's globals. Each method is one `with _client_lock` block. */
  class Registry {
    var asyncClient: Option<Id>
    var asyncClientEpoch: nat

    function Value(): Shared
      reads this
    {
      Shared(asyncClient, asyncClientEpoch)
    }

    constructor ()
      ensures Value() == Shared(None, 0)
    {
      asyncClient, asyncClientEpoch := None, 0;
    }

    method Install(client: Id, connectEpoch: nat) returns (selected: Option<Id>)
      modifies this
      ensures Value() == Installed(old(Value()), client, connectEpoch)
      ensures selected == Value().slot
    {
      if asyncClient.None? && asyncClientEpoch == connectEpoch {
        asyncClient := Some(client);
        selected := Some(client);
      } else {
        selected := asyncClient;
      }
    }

    method Detach() returns (client: Option<Id>)
      modifies this
      ensures Value() == DetachedFrom(old(Value())) && client == old(Value()).slot
    {
      client := asyncClient;
      asyncClient := None;
      asyncClientEpoch := asyncClientEpoch + 1;
    }
  }

  // ------------------------------------------------------------ tasks

  /** What follows the closing of a client. */
  datatype Next = Select(selected: Option<Id>) | Raise | Fallback | Done

  datatype Task =
    | Getting
    | Connecting(epoch: nat)
    | Probing(epoch: nat, client: Id)
    | Probed(epoch: nat, client: Id)
    | MustClose(client: Id, next: Next)
    | Closing(client: Id, next: Next)
    | ReadingWinner
    | ShuttingDown
    | Returned(result: Option<Id>)
    | Raised

  datatype Status = Open | BeingClosed | Closed

  datatype Client = Client(creator: Id, status: Status)

  datatype State = State(shared: Shared, tasks: map<Id, Task>, clients: map<Id, Client>, nextClient: Id)

  const INITIAL := State(Shared(None, 0), map[], map[], 0)

  /** The open client that a task alone refers to. */
  function Owned(task: Task): Option<Id> {
    match task
    case Probing(_, c) => Some(c)
    case Probed(_, c) => Some(c)
    case MustClose(c, _) => Some(c)
    case _ => None
  }

  predicate InFlight(task: Task) {
    !task.Returned? && !task.Raised?
  }

  function Enter(s: State, t: Id, task: Task): State {
    s.(tasks := s.tasks[t := task])
  }

  function SetStatus(s: State, c: Id, status: Status): State {
    if c in s.clients then s.(clients := s.clients[c := s.clients[c].(status := status)]) else s
  }

  datatype Action =
    | StartGet | StartClose
    | ReadSlot
    | Create | CreateFails
    | PingOk | PingFails | PingCancelled
    | Install
    | BeginClose | CloseEnds | CloseCancelled
    | ReadWinner
    | Detach

  function AfterClose(next: Next): Task {
    match next
    case Select(selected) => Returned(selected)
    case Raise => Raised
    case Fallback => ReadingWinner
    case Done => Returned(None)
  }

  /** A cancellation while a redundant client is closed leads to the handler that closes it again. */
  function AfterCancelledClose(client: Id, next: Next): Task {
    if next.Select? then Closing(client, Raise) else Raised
  }

  function Created(s: State, t: Id, epoch: nat): State {
    Enter(s, t, Probing(epoch, s.nextClient))
    .(clients := s.clients[s.nextClient := Client(t, Open)], nextClient := s.nextClient + 1)
  }

  function InstallAttempted(s: State, t: Id, c: Id, epoch: nat): State {
    var shared := Installed(s.shared, c, epoch);
    Enter(s, t, if shared.slot == Some(c) then Returned(Some(c)) else MustClose(c, Select(shared.slot)))
    .(shared := shared)
  }

  function Detached(s: State, t: Id): State {
    Enter(s, t, if s.shared.slot.Some? then MustClose(s.shared.slot.value, Done) else Returned(None))
    .(shared := DetachedFrom(s.shared))
  }

  /** One step of task `t`; a step that `t` is not ready for changes nothing. */
  function Do(s: State, t: Id, action: Action): State {
    if t !in s.tasks then
      match action
      case StartGet => Enter(s, t, Getting)
      case StartClose => Enter(s, t, ShuttingDown)
      case _ => s
    else
      match (s.tasks[t], action)
      case (Getting, ReadSlot) =>
        Enter(s, t, if s.shared.slot.Some? then Returned(s.shared.slot) else Connecting(s.shared.epoch))
      case (Connecting(_), CreateFails) => Enter(s, t, ReadingWinner)
      case (Connecting(epoch), Create) => Created(s, t, epoch)
      case (Probing(epoch, c), PingOk) => Enter(s, t, Probed(epoch, c))
      case (Probing(_, c), PingFails) => Enter(s, t, MustClose(c, Fallback))
      case (Probing(_, c), PingCancelled) => Enter(s, t, MustClose(c, Raise))
      case (Probed(epoch, c), Install) => InstallAttempted(s, t, c, epoch)
      case (MustClose(c, next), BeginClose) => SetStatus(Enter(s, t, Closing(c, next)), c, BeingClosed)
      case (Closing(c, next), CloseEnds) => SetStatus(Enter(s, t, AfterClose(next)), c, Closed)
      case (Closing(c, next), CloseCancelled) => Enter(s, t, AfterCancelledClose(c, next))
      case (ReadingWinner, ReadWinner) => Enter(s, t, Returned(s.shared.slot))
      case (ShuttingDown, Detach) => Detached(s, t)
      case _ => s
  }

  type Schedule = seq<(Id, Action)>

  function Run(s: State, schedule: Schedule): State
    decreases |schedule|
  {
    if schedule == [] then s else Run(Do(s, schedule[0].0, schedule[0].1), schedule[1..])
  }

  // ------------------------------------------------------------ where a client is

  function Holds(s: State, t: Id): Option<Id> {
    if t in s.tasks then Owned(s.tasks[t]) else None
  }

  predicate IsOpen(s: State, c: Id) {
    c in s.clients && s.clients[c].status == Open
  }

  ghost predicate OpenIsHeld(s: State) {
    forall c: Id :: IsOpen(s, c) ==> s.shared.slot == Some(c) || exists t :: Holds(s, t) == Some(c)
  }

  ghost predicate HeldIsOpen(s: State) {
    && (s.shared.slot.Some? ==> IsOpen(s, s.shared.slot.value))
    && (forall t :: Holds(s, t).Some? ==> IsOpen(s, Holds(s, t).value) && Holds(s, t) != s.shared.slot)
  }

  ghost predicate HeldOnce(s: State) {
    forall t, u :: Holds(s, t).Some? && Holds(s, t) == Holds(s, u) ==> t == u
  }

  ghost predicate Numbered(s: State) {
    forall c :: c in s.clients ==> c < s.nextClient
  }

  predicate ClosesShutClient(s: State, t: Id) {
    t in s.tasks && s.tasks[t].Closing? ==> s.tasks[t].client in s.clients && !IsOpen(s, s.tasks[t].client)
  }

  ghost predicate Invariant(s: State) {
    OpenIsHeld(s) && HeldIsOpen(s) && HeldOnce(s) && Numbered(s) && forall t :: ClosesShutClient(s, t)
  }

  predicate SameElsewhere(s: State, s': State, t: Id, u: Id) {
    u != t ==> Holds(s', u) == Holds(s, u)
  }

  /** A client that task `t` does not hold before or after, and that was not shared, is as open as before. */
  predicate SameOtherwise(s: State, s': State, t: Id, c: Id) {
    Some(c) != Holds(s, t) && Some(c) != Holds(s', t) && Some(c) != s.shared.slot ==> (IsOpen(s', c) <==> IsOpen(s, c))
  }

  /** What task `t` holds and what is shared is open, and whatever left one of these places is in the other or shut. */
  predicate Handed(s: State, s': State, t: Id) {
    var before, after, slot, slot' := Holds(s, t), Holds(s', t), s.shared.slot, s'.shared.slot;
    && (after.Some? ==> IsOpen(s', after.value) && slot' != after)
    && (slot'.Some? ==> IsOpen(s', slot'.value) && (slot' == slot || slot' == before))
    && (before.Some? && before != after ==> slot' == before || !IsOpen(s', before.value))
    && (slot.Some? && slot != slot' ==> after == slot)
    && (after.Some? ==> after == before || after == slot || !IsOpen(s, after.value))
  }

  // ------------------------------------------------------------ closing outlives probes

  function ConnectEpoch(task: Task): Option<nat> {
    match task
    case Connecting(epoch) => Some(epoch)
    case Probing(epoch, _) => Some(epoch)
    case Probed(epoch, _) => Some(epoch)
    case _ => None
  }

  predicate CreatedBy(s: State, c: Id, t: Id) {
    c in s.clients && s.clients[c].creator == t
  }

  /** A probe from before a close: the epoch it read is over, and its client is not shared. */
  ghost predicate Outdated(s: State, t: Id) {
    && t in s.tasks && s.tasks[t] != Getting
    && (ConnectEpoch(s.tasks[t]).Some? ==> ConnectEpoch(s.tasks[t]).value < s.shared.epoch)
    && (s.shared.slot.Some? ==> !CreatedBy(s, s.shared.slot.value, t))
  }

  predicate EpochIsNotFuture(s: State, t: Id) {
    t in s.tasks && ConnectEpoch(s.tasks[t]).Some? ==> ConnectEpoch(s.tasks[t]).value <= s.shared.epoch
  }

  predicate ProbesOwnClient(s: State, t: Id) {
    t in s.tasks && (s.tasks[t].Probing? || s.tasks[t].Probed?) ==> CreatedBy(s, s.tasks[t].client, t)
  }

  predicate SlotIsCreated(s: State) {
    s.shared.slot.Some? ==> s.shared.slot.value in s.clients
  }

  /** Bookkeeping: clients are numbered, epochs are not from the future, and a probe holds the client it created. */
  ghost predicate Recorded(s: State) {
    Numbered(s) && SlotIsCreated(s) && forall t :: EpochIsNotFuture(s, t) && ProbesOwnClient(s, t)
  }
}
