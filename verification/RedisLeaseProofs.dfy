/** When the timed lock excludes, over all delays, repetitions and losses. */
module RedisLeaseProofs {
  import opened JsStrings
  import opened RedisLease

  // ------------------------------------------------------------ the invariant

  lemma DeliveredKeepsBacked(s: State, request: Request, success: Request)
    requires InOrder(s, request) && Backed(s, success)
    requires request.Refresh? && request.owner == success.owner ==> Compatible(request, success)
    ensures Backed(Delivered(s, request), success)
  {}

  lemma GrantedIsBacked(s: State, request: Request)
    requires InOrder(s, request) && !request.Release? && request in s.sent
    ensures request in Delivered(s, request).granted && request !in s.granted ==> Backed(Delivered(s, request), request)
  {}

  lemma DeliverKeepsInvariant(s: State, request: Request)
    requires Invariant(s) && request in s.sent && AllCompatible(s.sent)
    ensures Invariant(Delivered(s, request))
  {
    var s' := Delivered(s, request);
    assert InOrder(s, request);
    if !request.Release? {
      GrantedIsBacked(s, request);
    }
    assert s'.workers == s.workers && s'.now == s.now && s'.sent == s.sent && s.granted <= s'.granted;
    assert forall r :: InOrder(s, r) ==> InOrder(s', r);
    assert forall owner :: SeenIsGranted(s, owner) ==> SeenIsGranted(s', owner);
    forall success | success in s'.granted
      ensures Backed(s', success)
    {
      if success in s.granted {
        DeliveredKeepsBacked(s, request, success);
      }
    }
  }

  lemma OtherStepKeepsBacked(s: State, action: Action, success: Request)
    requires Invariant(s) && !action.FindNoClient? && !action.Deliver? && success in s.granted
    ensures Backed(Do(s, action), success)
  {
    assert Backed(s, success);
  }

  lemma OtherStepKeepsRest(s: State, action: Action)
    requires Invariant(s) && !action.FindNoClient? && !action.Deliver?
    ensures var s' := Do(s, action);
            && s'.granted == s.granted && (forall request :: request in s'.sent ==> InOrder(s', request))
            && forall owner :: SeenIsGranted(s', owner)
  {
    hide Backed;
    var s' := Do(s, action);
    assert forall request :: InOrder(s, request) ==> InOrder(s', request);
    forall owner
      ensures SeenIsGranted(s', owner)
    {
      assert SeenIsGranted(s, owner);
      if action.SeeSuccess? && s' != s && owner == action.request.owner {
        assert action.request.Acquire? || action.request.Refresh?;
        SeenRequest(action.request);
      }
    }
  }

  lemma SeenRequest(request: Request)
    requires !request.Release?
    ensures request == Acquire(request.owner, request.sentAt, request.ttl)
         || request == Refresh(request.owner, request.sentAt, request.ttl)
  {}

  /** Every step keeps every counting success backed, as long as no refresh can cut a lease short. */
  lemma StepKeepsInvariant(s: State, action: Action)
    requires Invariant(s) && !action.FindNoClient? && AllCompatible(s.sent)
    ensures Invariant(Do(s, action))
  {
    if action.Deliver? {
      if action.request in s.sent {
        DeliverKeepsInvariant(s, action.request);
      }
    } else {
      OtherStepKeepsRest(s, action);
      forall success | success in Do(s, action).granted
        ensures Backed(Do(s, action), success)
      {
        OtherStepKeepsBacked(s, action, success);
      }
    }
  }

  lemma StepSends(s: State, action: Action)
    ensures s.sent <= Do(s, action).sent
  {}

  lemma {:induction false} RunSends(s: State, schedule: seq<Action>)
    ensures s.sent <= Run(s, schedule).sent
    decreases |schedule|
  {
    hide Do;
    if schedule != [] {
      StepSends(s, schedule[0]);
      RunSends(Do(s, schedule[0]), schedule[1..]);
    }
  }

  lemma {:induction false} RunKeepsInvariant(s: State, schedule: seq<Action>)
    requires Invariant(s) && RedisAvailable(schedule) && AllCompatible(Run(s, schedule).sent)
    ensures Invariant(Run(s, schedule))
    decreases |schedule|
  {
    hide Do, Invariant, Compatible;
    if schedule != [] {
      assert schedule[0] in schedule;
      RunSends(s, schedule);
      StepKeepsInvariant(s, schedule[0]);
      RunKeepsInvariant(Do(s, schedule[0]), schedule[1..]);
    }
  }

  // ------------------------------------------------------------ main results

  lemma TrusterHoldsKey(s: State, owner: Owner)
    requires Invariant(s) && Trusts(s, owner)
    ensures HeldBy(s.key, s.now, owner)
  {
    assert SeenIsGranted(s, owner);
    var lease := s.workers[owner].lastSuccess.value;
    if Acquire(owner, lease.sentAt, lease.ttl) in s.granted {
      assert Backed(s, Acquire(owner, lease.sentAt, lease.ttl));
    } else {
      assert Backed(s, Refresh(owner, lease.sentAt, lease.ttl));
    }
  }

  /** While Redis is available and no refresh can cut a lease short, no two owners ever trust the lock at the same time. */
  lemma NeverTwoTrusters(schedule: seq<Action>, a: Owner, b: Owner)
    requires RedisAvailable(schedule) && AllCompatible(Run(INITIAL, schedule).sent)
    requires Trusts(Run(INITIAL, schedule), a) && Trusts(Run(INITIAL, schedule), b)
    ensures a == b
  {
    hide Run, Do, AllCompatible;
    RunKeepsInvariant(INITIAL, schedule);
    TrusterHoldsKey(Run(INITIAL, schedule), a);
    TrusterHoldsKey(Run(INITIAL, schedule), b);
  }

  /** That is so in particular when every owner uses one ttl, as the workers of the backend do. */
  lemma OneTtlIsCompatible(sent: set<Request>)
    requires OneTtl(sent)
    ensures AllCompatible(sent)
  {
    forall refresh, lease | refresh in sent && refresh.Refresh? && lease in sent && !lease.Release?
                            && lease.owner == refresh.owner
      ensures Compatible(refresh, lease)
    {
      assert refresh.ttl == lease.ttl;
    }
  }

  /** No request, however late it arrives, changes a key held by another owner. */
  lemma LateRequestSparesOthers(schedule: seq<Action>, request: Request)
    ensures var s := Run(INITIAL, schedule);
            var held := Lookup(s.key, s.now);
            held.Some? && held.value.owner != request.owner ==> Do(s, Deliver(request)).key == s.key
  {}

  // ------------------------------------------------------------ schedules in which two owners trust the lock

  ghost predicate TwoTrusters(schedule: seq<Action>) {
    Trusts(Run(INITIAL, schedule), 0) && Trusts(Run(INITIAL, schedule), 1)
  }

  lemma {:induction false} RunConcat(s: State, first: seq<Action>, second: seq<Action>)
    ensures Run(s, first + second) == Run(Run(s, first), second)
    decreases |first|
  {
    hide Do;
    if first == [] {
      assert first + second == second;
    } else {
      assert (first + second)[1..] == first[1..] + second;
      RunConcat(Do(s, first[0]), first[1..], second);
    }
  }

  lemma RunOne(s: State, action: Action)
    ensures Run(s, [action]) == Do(s, action)
  {
    hide Do;
    assert [action][1..] == [];
  }

  lemma RunNext(schedule: seq<Action>, s: State, action: Action)
    requires Run(INITIAL, schedule) == s
    ensures Run(INITIAL, schedule + [action]) == Do(s, action)
  {
    hide Do, Run;
    RunConcat(INITIAL, schedule, [action]);
    RunOne(s, action);
  }

  /** Once the key of owner 0 has expired while owner 0 still trusts it, owner 1 takes the lock. */
  lemma OtherTakesOver(schedule: seq<Action>, s: State, ttl: int) returns (longer: seq<Action>)
    requires Run(INITIAL, schedule) == s && Trusts(s, 0) && 1 !in s.workers && Lookup(s.key, s.now).None? && ttl >= 1
    ensures TwoTrusters(longer) && (RedisAvailable(schedule) ==> RedisAvailable(longer))
    ensures Run(INITIAL, longer).sent == s.sent + {Acquire(1, s.now, ttl)}
  {
    hide Run;
    var request := Acquire(1, s.now, ttl);
    var a, b, c := SendAcquire(1, ttl), Deliver(request), SeeSuccess(request);
    var s1 := Do(s, a);
    var s2 := Do(s1, b);
    RunNext(schedule, s, a);
    RunNext(schedule + [a], s1, b);
    RunNext(schedule + [a] + [b], s2, c);
    longer := schedule + [a] + [b] + [c];
  }

  lemma RunNothing()
    ensures Run(INITIAL, []) == INITIAL
  {}

  /** Owner 0 holds the lock for `ttl` seconds from the start. */
  lemma OwnerHolds(ttl: int) returns (schedule: seq<Action>)
    requires ttl >= 1
    ensures RedisAvailable(schedule)
    ensures Run(INITIAL, schedule)
         == State(0, Some(Held(0, ttl)), map[0 := Worker(Some(Lease(0, ttl)), false)],
                  {Acquire(0, 0, ttl)}, {Acquire(0, 0, ttl)})
  {
    hide Run;
    var request := Acquire(0, 0, ttl);
    var a, b, c := SendAcquire(0, ttl), Deliver(request), SeeSuccess(request);
    var s1 := Do(INITIAL, a);
    var s2 := Do(s1, b);
    RunNothing();
    RunNext([], INITIAL, a);
    RunNext([] + [a], s1, b);
    RunNext([] + [a] + [b], s2, c);
    schedule := [] + [a] + [b] + [c];
    assert map[0 := Worker(None, false)][0 := Worker(Some(Lease(0, ttl)), false)] == map[0 := Worker(Some(Lease(0, ttl)), false)];
  }

  /** A refresh with a smaller ttl, whose answer is not seen, breaks the exclusion. */
  lemma SmallerTtlBreaks(small: int, large: int)
    requires 1 <= small < large
    ensures exists schedule :: RedisAvailable(schedule) && TwoTrusters(schedule)
              && Run(INITIAL, schedule).sent == {Acquire(0, 0, large), Refresh(0, 0, small), Acquire(1, small, small)}
  {
    hide Run;
    var request := Refresh(0, 0, small);
    var a, b, c := SendRefresh(0, small), Deliver(request), Tick(small);
    var schedule := OwnerHolds(large);
    var s := Run(INITIAL, schedule);
    var s1 := Do(s, a);
    var s2 := Do(s1, b);
    RunNext(schedule, s, a);
    RunNext(schedule + [a], s1, b);
    RunNext(schedule + [a] + [b], s2, c);
    var longer := OtherTakesOver(schedule + [a] + [b] + [c], Do(s2, c), small);
    assert Run(INITIAL, longer).sent == {Acquire(0, 0, large), Refresh(0, 0, small), Acquire(1, small, small)};
  }

  /** Owner 0 renews its lease with a larger ttl, while an older refresh is still under way. */
  lemma OwnerRenews(small: int, large: int) returns (schedule: seq<Action>)
    requires 2 <= small < large
    ensures RedisAvailable(schedule)
    ensures var late := Refresh(0, 1, large);
            Run(INITIAL, schedule)
            == State(1, Some(Held(0, 1 + large)), map[0 := Worker(Some(Lease(1, large)), false)],
                     {Acquire(0, 0, small), Refresh(0, 0, small), late}, {Acquire(0, 0, small), late})
  {
    hide Run;
    var late := Refresh(0, 1, large);
    var a, b, c, d, e := SendRefresh(0, small), Tick(1), SendRefresh(0, large), Deliver(late), SeeSuccess(late);
    var p := OwnerHolds(small);
    var s0 := Run(INITIAL, p);
    var s1 := Do(s0, a);
    var s2 := Do(s1, b);
    var s3 := Do(s2, c);
    var s4 := Do(s3, d);
    RunNext(p, s0, a);
    RunNext(p + [a], s1, b);
    RunNext(p + [a] + [b], s2, c);
    RunNext(p + [a] + [b] + [c], s3, d);
    RunNext(p + [a] + [b] + [c] + [d], s4, e);
    schedule := p + [a] + [b] + [c] + [d] + [e];
    assert Do(s4, e).workers == map[0 := Worker(Some(Lease(1, large)), false)];
  }

  /** So does a growing ttl, when an older refresh arrives after a newer one. */
  lemma GrowingTtlBreaks(small: int, large: int)
    requires 2 <= small < large
    ensures exists schedule :: RedisAvailable(schedule) && TwoTrusters(schedule)
              && Run(INITIAL, schedule).sent
                 == {Acquire(0, 0, small), Refresh(0, 0, small), Refresh(0, 1, large), Acquire(1, 1 + small, small)}
  {
    hide Run;
    var early := Refresh(0, 0, small);
    var a, b := Deliver(early), Tick(small);
    var schedule := OwnerRenews(small, large);
    var s := Run(INITIAL, schedule);
    var s1 := Do(s, a);
    RunNext(schedule, s, a);
    RunNext(schedule + [a], s1, b);
    var longer := OtherTakesOver(schedule + [a] + [b], Do(s1, b), small);
    assert Run(INITIAL, longer).sent
        == {Acquire(0, 0, small), Refresh(0, 0, small), Refresh(0, 1, large), Acquire(1, 1 + small, small)};
  }

  /** Every schedule with these ttls excludes, while Redis is available. */
  ghost predicate ExcludesAlways(ttls: set<int>) {
    forall schedule :: RedisAvailable(schedule) && UsesOnly(Run(INITIAL, schedule).sent, ttls) ==> Excludes(schedule)
  }

  lemma OneTtlExcludes(ttls: set<int>, schedule: seq<Action>)
    requires forall s, t :: s in ttls && t in ttls ==> s == t
    requires RedisAvailable(schedule) && UsesOnly(Run(INITIAL, schedule).sent, ttls)
    ensures Excludes(schedule)
  {
    hide Run, Trusts, AllCompatible;
    var sent := Run(INITIAL, schedule).sent;
    assert OneTtl(sent);
    OneTtlIsCompatible(sent);
    forall a, b | Trusts(Run(INITIAL, schedule), a) && Trusts(Run(INITIAL, schedule), b)
      ensures a == b
    {
      NeverTwoTrusters(schedule, a, b);
    }
  }

  lemma TwoTtlsBreak(ttls: set<int>, small: int, large: int)
    requires small in ttls && large in ttls && 1 <= small < large
    ensures !ExcludesAlways(ttls)
  {
    hide Run, Trusts;
    SmallerTtlBreaks(small, large);
    var schedule :| RedisAvailable(schedule) && TwoTrusters(schedule)
      && Run(INITIAL, schedule).sent == {Acquire(0, 0, large), Refresh(0, 0, small), Acquire(1, small, small)};
    assert UsesOnly(Run(INITIAL, schedule).sent, ttls);
    assert !Excludes(schedule);
  }

  /**
   Whatever the delays, repetitions and losses, the lock excludes while Redis
   is available, for calls with these ttls, if and only if they are all the same.
   */
  lemma ExclusionExactly(ttls: set<int>)
    requires forall t :: t in ttls ==> t >= 1
    ensures ExcludesAlways(ttls) <==> forall s, t :: s in ttls && t in ttls ==> s == t
  {
    hide Run, UsesOnly, Excludes, RedisAvailable;
    if forall s, t :: s in ttls && t in ttls ==> s == t {
      forall schedule | RedisAvailable(schedule) && UsesOnly(Run(INITIAL, schedule).sent, ttls)
        ensures Excludes(schedule)
      {
        OneTtlExcludes(ttls, schedule);
      }
    } else {
      var s, t :| s in ttls && t in ttls && s != t;
      TwoTtlsBreak(ttls, if s < t then s else t, if s < t then t else s);
    }
  }

  /** Without Redis every caller is told that it has the lock. */
  lemma UnavailableRedisExcludesNobody()
    ensures exists schedule :: !RedisAvailable(schedule) && TwoTrusters(schedule)
  {
    hide Run;
    var a, b, c, d := SendAcquire(0, 1), SendAcquire(1, 1), FindNoClient(0, 1), FindNoClient(1, 1);
    var s1 := Do(INITIAL, a);
    var s2 := Do(s1, b);
    var s3 := Do(s2, c);
    RunNothing();
    RunNext([], INITIAL, a);
    RunNext([] + [a], s1, b);
    RunNext([] + [a] + [b], s2, c);
    RunNext([] + [a] + [b] + [c], s3, d);
    var schedule := [] + [a] + [b] + [c] + [d];
    assert d in schedule;
    assert TwoTrusters(schedule);
  }

  // ------------------------------------------------------------ who holds the lock, and how it changes hands

  /** The owner whose lock stands at an instant, if no request arrives before it. */
  function HolderAt(key: Option<Held>, instant: int): Option<Owner> {
    if key.Some? && instant < key.value.expiry then Some(key.value.owner) else None
  }

  /**
   A delivered request gives its owner the lock for its whole ttl, or takes it
   away, exactly when it succeeds: an acquisition on a free lock, a refresh or
   a release by the holder. Otherwise it changes nothing.
   */
  lemma DeliveryExactly(s: State, request: Request, later: int)
    requires request in s.sent && s.now <= later
    ensures var s' := Do(s, Deliver(request));
            var holder := HolderAt(s.key, s.now);
            var succeeds := if request.Acquire? then holder == None else holder == Some(request.owner);
            && s'.now == s.now && s'.workers == s.workers && s'.sent == s.sent
            && (s'.granted == if succeeds && !request.Release? then s.granted + {request} else s.granted)
            && HolderAt(s'.key, later)
               == if !succeeds then HolderAt(s.key, later)
                  else if request.Release? || later >= s.now + request.ttl then None
                  else Some(request.owner)
  {}

  /** What a worker sends, and what it believes. */
  lemma WorkerExactly(s: State, action: Action)
    requires !action.Tick? && !action.Deliver?
    ensures var s' := Do(s, action);
            && s'.now == s.now && s'.key == s.key && s'.granted == s.granted
            && match action
               case SendAcquire(owner, ttl) =>
                 if owner in s.workers then s' == s
                 else s'.sent == s.sent + {Acquire(owner, s.now, if ttl < 1 then 1 else ttl)}
                      && owner in s'.workers && !Trusts(s', owner)
               case SendRefresh(owner, ttl) =>
                 s'.workers == s.workers
                 && s'.sent == if owner in s.workers then s.sent + {Refresh(owner, s.now, if ttl < 1 then 1 else ttl)} else s.sent
               case SendRelease(owner) =>
                 !Trusts(s', owner) && s'.sent == if owner in s.workers then s.sent + {Release(owner)} else s.sent
               case SeeSuccess(request) =>
                 && s'.sent == s.sent
                 && (request in s.granted && !request.Release? && request.owner in s.workers ==>
                     (Trusts(s', request.owner) <==>
                      !s.workers[request.owner].releasing && s.now < request.sentAt + request.ttl))
               case _ => true
  {}

  /** A release that arrives hands a lock over: the next acquisition succeeds, and only its owner trusts the lock. */
  lemma LockIsHandedOver(s: State, a: Owner, b: Owner, ttl: int)
    requires a in s.workers && b !in s.workers && HolderAt(s.key, s.now) in {None, Some(a)} && ttl >= 1
    ensures var acquire := Acquire(b, s.now, ttl);
            var s' := Run(s, [SendRelease(a), Deliver(Release(a)), SendAcquire(b, ttl), Deliver(acquire), SeeSuccess(acquire)]);
            Trusts(s', b) && !Trusts(s', a) && HolderAt(s'.key, s.now + ttl - 1) == Some(b)
  {
    hide Do, Run, Trusts;
    var acquire := Acquire(b, s.now, ttl);
    ReleaseArrives(s, a);
    var freed := Do(Do(s, SendRelease(a)), Deliver(Release(a)));
    AcquireArrives(freed, b, ttl);
    var sent := Do(freed, SendAcquire(b, ttl));
    var r1 := [SeeSuccess(acquire)];
    var r2 := [Deliver(acquire)] + r1;
    var r3 := [SendAcquire(b, ttl)] + r2;
    var r4 := [Deliver(Release(a))] + r3;
    assert [SendRelease(a), Deliver(Release(a)), SendAcquire(b, ttl), Deliver(acquire), SeeSuccess(acquire)]
        == [SendRelease(a)] + r4;
    RunCons(s, SendRelease(a), r4);
    RunCons(Do(s, SendRelease(a)), Deliver(Release(a)), r3);
    RunCons(freed, SendAcquire(b, ttl), r2);
    RunCons(sent, Deliver(acquire), r1);
    RunOne(Do(sent, Deliver(acquire)), SeeSuccess(acquire));
    var done := Do(Do(sent, Deliver(acquire)), SeeSuccess(acquire));
    SameWorkerTrusts(freed, done, a);
  }

  lemma SameWorkerTrusts(s: State, s': State, owner: Owner)
    requires owner in s.workers && owner in s'.workers && s'.workers[owner] == s.workers[owner] && s'.now == s.now
    ensures Trusts(s', owner) <==> Trusts(s, owner)
  {}

  lemma RunCons(s: State, action: Action, rest: seq<Action>)
    ensures Run(s, [action] + rest) == Run(Do(s, action), rest)
  {
    hide Do;
    assert ([action] + rest)[1..] == rest;
  }

  lemma ReleaseArrives(s: State, a: Owner)
    requires a in s.workers && HolderAt(s.key, s.now) in {None, Some(a)}
    ensures var s' := Do(Do(s, SendRelease(a)), Deliver(Release(a)));
            && s'.now == s.now && s'.workers.Keys == s.workers.Keys && !Trusts(s', a) && HolderAt(s'.key, s'.now) == None
  {}

  lemma AcquireArrives(s: State, b: Owner, ttl: int)
    requires b !in s.workers && HolderAt(s.key, s.now) == None && ttl >= 1
    ensures var acquire := Acquire(b, s.now, ttl);
            var s' := Do(Do(Do(s, SendAcquire(b, ttl)), Deliver(acquire)), SeeSuccess(acquire));
            && Trusts(s', b) && HolderAt(s'.key, s.now + ttl - 1) == Some(b) && s'.now == s.now
            && forall other :: other in s.workers ==> other in s'.workers && s'.workers[other] == s.workers[other]
  {}
}
