/**
 The timed lock of backend/app/redis_client.py. Requests may be delayed,
 delivered more than once or lost, and replies may never be seen.
 */
module RedisLease {
  import opened JsStrings

  type Owner = nat

  /** The value of the lock key, and when Redis drops it. */
  datatype Held = Held(owner: Owner, expiry: int)

  // ------------------------------------------------------------ the server

  function TtlSeconds(requested: int): (ttl: int)
    ensures ttl >= 1 && ttl >= requested && (ttl == requested || ttl == 1)
  {
    if requested > 1 then requested else 1
  }

  /** What Redis answers for the key: nothing once it has expired. */
  function Lookup(key: Option<Held>, now: int): Option<Held> {
    if key.Some? && now < key.value.expiry then key else None
  }

  predicate HeldBy(key: Option<Held>, now: int, owner: Owner) {
    var held := Lookup(key, now);
    held.Some? && held.value.owner == owner
  }

  /** SET with NX and EX. */
  function Acquired(key: Option<Held>, now: int, owner: Owner, ttl: int): Option<Held> {
    if Lookup(key, now).Some? then key else Some(Held(owner, now + ttl))
  }

  /** The compare-and-expire script. */
  function Refreshed(key: Option<Held>, now: int, owner: Owner, ttl: int): Option<Held> {
    if HeldBy(key, now, owner) then Some(Held(owner, now + ttl)) else key
  }

  /** The compare-and-delete script. */
  function Released(key: Option<Held>, now: int, owner: Owner): Option<Held> {
    if HeldBy(key, now, owner) then None else key
  }

  /** The key of one lock, as the three functions of the module change it. */
  class LockKey {
    var key: Option<Held>

    constructor ()
      ensures key == None
    {
      key := None;
    }

    method TryAcquire(now: int, owner: Owner, ttlSeconds: int) returns (ok: bool)
      modifies this
      ensures key == Acquired(old(key), now, owner, TtlSeconds(ttlSeconds))
      ensures ok <==> Lookup(old(key), now).None?
    {
      ok := Lookup(key, now).None?;
      if ok {
        key := Some(Held(owner, now + TtlSeconds(ttlSeconds)));
      }
    }

    method Refresh(now: int, owner: Owner, ttlSeconds: int) returns (ok: bool)
      modifies this
      ensures key == Refreshed(old(key), now, owner, TtlSeconds(ttlSeconds))
      ensures ok <==> HeldBy(old(key), now, owner)
    {
      var held := Lookup(key, now);
      ok := held.Some? && held.value.owner == owner;
      if ok {
        key := Some(Held(owner, now + TtlSeconds(ttlSeconds)));
      }
    }

    method Release(now: int, owner: Owner)
      modifies this
      ensures key == Released(old(key), now, owner)
    {
      var held := Lookup(key, now);
      if held.Some? && held.value.owner == owner {
        key := None;
      }
    }
  }

  // ------------------------------------------------------------ workers and the network

  /** Every call takes its own ttl. */
  datatype Request =
    | Acquire(owner: Owner, sentAt: int, ttl: int)
    | Refresh(owner: Owner, sentAt: int, ttl: int)
    | Release(owner: Owner)

  /** One term of one worker, for which it draws a new owner: the last request it saw succeed. */
  datatype Worker = Worker(lastSuccess: Option<Lease>, releasing: bool)

  datatype Lease = Lease(sentAt: int, ttl: int)

  /**
   `sent` holds every request ever sent: each may reach Redis at any later
   time, any number of times, or never. `granted` holds the requests that
   Redis answered with success.
   */
  datatype State = State(
    now: int,
    key: Option<Held>,
    workers: map<Owner, Worker>,
    sent: set<Request>,
    granted: set<Request>)

  const INITIAL := State(0, None, map[], {}, {})

  datatype Action =
    | Tick(elapsed: nat)
    | SendAcquire(owner: Owner, ttlSeconds: int)
    | SendRefresh(owner: Owner, ttlSeconds: int)
    | SendRelease(owner: Owner)
    | Deliver(request: Request)
    | SeeSuccess(request: Request)
    | FindNoClient(owner: Owner, ttlSeconds: int)

  function Delivered(s: State, request: Request): State {
    match request
    case Acquire(owner, sentAt, ttl) =>
      s.(key := Acquired(s.key, s.now, owner, ttl),
         granted := if Lookup(s.key, s.now).None? then s.granted + {request} else s.granted)
    case Refresh(owner, sentAt, ttl) =>
      s.(key := Refreshed(s.key, s.now, owner, ttl),
         granted := if HeldBy(s.key, s.now, owner) then s.granted + {request} else s.granted)
    case Release(owner) => s.(key := Released(s.key, s.now, owner))
  }

  function Seen(s: State, owner: Owner, lease: Lease): State
    requires owner in s.workers
  {
    s.(workers := s.workers[owner := s.workers[owner].(lastSuccess := Some(lease))])
  }

  function Do(s: State, action: Action): State {
    match action
    case Tick(elapsed) => s.(now := s.now + elapsed)
    case SendAcquire(owner, ttlSeconds) =>
      if owner in s.workers then s
      else s.(workers := s.workers[owner := Worker(None, false)],
              sent := s.sent + {Acquire(owner, s.now, TtlSeconds(ttlSeconds))})
    case SendRefresh(owner, ttlSeconds) =>
      if owner !in s.workers then s else s.(sent := s.sent + {Refresh(owner, s.now, TtlSeconds(ttlSeconds))})
    case SendRelease(owner) =>
      if owner !in s.workers then s
      else s.(workers := s.workers[owner := s.workers[owner].(releasing := true)], sent := s.sent + {Release(owner)})
    case Deliver(request) =>
      if request !in s.sent then s else Delivered(s, request)
    case SeeSuccess(request) =>
      if request !in s.granted || request.Release? || request.owner !in s.workers then s
      else Seen(s, request.owner, Lease(request.sentAt, request.ttl))
    case FindNoClient(owner, ttlSeconds) =>
      // without a client both functions report success
      if owner !in s.workers then s else Seen(s, owner, Lease(s.now, TtlSeconds(ttlSeconds)))
  }

  function Run(s: State, schedule: seq<Action>): State
    decreases |schedule|
  {
    if schedule == [] then s else Run(Do(s, schedule[0]), schedule[1..])
  }

  /** The worker relies on the lock: it has not begun to release it, and its last success has not run out. */
  predicate Trusts(s: State, owner: Owner) {
    && owner in s.workers && !s.workers[owner].releasing && s.workers[owner].lastSuccess.Some?
    && s.now < s.workers[owner].lastSuccess.value.sentAt + s.workers[owner].lastSuccess.value.ttl
  }

  // ------------------------------------------------------------ the ttls of one owner

  /**
   A refresh cannot cut a lease short: delivered when both requests have been
   sent, it does not let the key expire before the lease runs out.
   */
  predicate Compatible(refresh: Request, lease: Request)
    requires refresh.Refresh? && !lease.Release?
  {
    var from := if refresh.sentAt > lease.sentAt then refresh.sentAt else lease.sentAt;
    from + refresh.ttl >= lease.sentAt + lease.ttl
  }

  ghost predicate AllCompatible(sent: set<Request>) {
    forall refresh, lease ::
      refresh in sent && refresh.Refresh? && lease in sent && !lease.Release? && lease.owner == refresh.owner ==>
        Compatible(refresh, lease)
  }

  /** Every owner uses one ttl. */
  ghost predicate OneTtl(sent: set<Request>) {
    forall a, b :: a in sent && b in sent && !a.Release? && !b.Release? && a.owner == b.owner ==> a.ttl == b.ttl
  }

  /** Every request with a ttl has one of these. */
  ghost predicate UsesOnly(sent: set<Request>, ttls: set<int>) {
    forall request :: request in sent && !request.Release? ==> request.ttl in ttls
  }

  // ------------------------------------------------------------ the invariant

  /** A success that still counts: the key is the owner's for at least as long. */
  predicate Backed(s: State, success: Request) {
    && success in s.sent && !success.Release? && success.owner in s.workers && success.sentAt <= s.now
    && (!s.workers[success.owner].releasing && s.now < success.sentAt + success.ttl ==>
        s.key.Some? && s.key.value.owner == success.owner && success.sentAt + success.ttl <= s.key.value.expiry)
  }

  predicate InOrder(s: State, request: Request) {
    && request.owner in s.workers
    && (request.Release? ==> s.workers[request.owner].releasing)
    && (!request.Release? ==> request.sentAt <= s.now)
  }

  predicate SeenIsGranted(s: State, owner: Owner) {
    owner in s.workers && s.workers[owner].lastSuccess.Some? ==>
      var lease := s.workers[owner].lastSuccess.value;
      || Acquire(owner, lease.sentAt, lease.ttl) in s.granted
      || Refresh(owner, lease.sentAt, lease.ttl) in s.granted
  }

  ghost predicate Invariant(s: State) {
    && (forall success :: success in s.granted ==> Backed(s, success))
    && (forall request :: request in s.sent ==> InOrder(s, request))
    && (forall owner :: SeenIsGranted(s, owner))
  }

  ghost predicate RedisAvailable(schedule: seq<Action>) {
    forall action :: action in schedule ==> !action.FindNoClient?
  }

  /** No two owners trust the lock at the end of the schedule. */
  ghost predicate Excludes(schedule: seq<Action>) {
    forall a, b :: Trusts(Run(INITIAL, schedule), a) && Trusts(Run(INITIAL, schedule), b) ==> a == b
  }
}
