/** The single flight of the launcher's update check, over all interleavings. */
module LauncherUpdateProofs {
  import opened JsStrings
  import opened LauncherUpdate

  // ------------------------------------------------------------ channels and feeds

  lemma CutAtColon(a: JsString, x: JsString, b: JsString, y: JsString)
    requires COLON !in a && COLON !in b && a + ([COLON] + x) == b + ([COLON] + y)
    ensures a == b && x == y
  {
    var s, t := a + ([COLON] + x), b + ([COLON] + y);
    assert s[|a|] == COLON && t[|b|] == COLON;
    assert forall i :: 0 <= i < |a| ==> s[i] == a[i] && s[i] in a;
    assert forall i :: 0 <= i < |b| ==> t[i] == b[i] && t[i] in b;
    assert s[..|a|] == a && t[..|b|] == b && s[|a| + 1..] == x && t[|b| + 1..] == y;
  }

  lemma NamesHaveNoColon(channel: Channel, metadata: Metadata)
    ensures COLON !in ChannelName(channel) && COLON !in MetadataName(metadata) && ChannelName(channel) != []
  {}

  lemma NamesDiffer()
    ensures ChannelName(Stable) != ChannelName(Beta) && MetadataName(LatestYml) != MetadataName(BetaYml)
  {
    assert |ChannelName(Stable)| == 6 && |MetadataName(LatestYml)| == 6;
  }

  /** Equal keys configure the updater in the same way. */
  lemma ConfigKeyIsInjective(c: Channel, m: Metadata, feed: JsString, c': Channel, m': Metadata, feed': JsString)
    requires ConfigKey(c, m, feed) == ConfigKey(c', m', feed')
    ensures c == c' && m == m' && feed == feed'
  {
    hide ChannelName, MetadataName;
    NamesHaveNoColon(c, m);
    NamesHaveNoColon(c', m');
    NamesDiffer();
    CutAtColon(ChannelName(c), MetadataName(m) + ([COLON] + feed), ChannelName(c'), MetadataName(m') + ([COLON] + feed'));
    CutAtColon(MetadataName(m), feed, MetadataName(m'), feed');
  }

  // ------------------------------------------------------------ the invariant

  lemma Instances(s: State, p: PromiseId, a: CallId, b: CallId, channel: Channel)
    requires Invariant(s)
    ensures CheckIsAlone(s, p) && CallKeepsChannel(s, a) && OwnedOnce(s, a, b) && FailureKeepsChannel(s.service, channel)
    ensures PromiseIsKnown(s) && (p in s.checks ==> p < s.next)
  {}

  /** Only one check is under way, so a step of another check finds it settled. */
  lemma StepKeepsCheck(s: State, action: Action, p: PromiseId)
    requires Invariant(s) && !action.Configure?
    ensures CheckIsAlone(Do(s, action), p)
  {
    hide Invariant, Configured, ConfigKey, MetadataFor;
    var id := if action.Enter? || action.Resume? then action.call else 0;
    Instances(s, p, id, id, Stable);
    if action.UpdaterAnswers? || action.CheckFails? || action.StartUpdater? {
      Instances(s, action.promise, 0, 0, Stable);
    }
    if s.service.promise.Some? {
      Instances(s, s.service.promise.value, 0, 0, Stable);
    }
  }

  lemma ConfigureTouches(s: State, action: Action)
    requires action.Configure?
    ensures var s' := Do(s, action);
            && s'.calls == s.calls && s'.next == s.next && s'.checks.Keys == s.checks.Keys
            && (forall p :: p in s.checks ==> s'.checks[p].channel == s.checks[p].channel)
            && s'.service == s.service.(updater := s'.service.updater, configuredKey := s'.service.configuredKey)
  {
    hide ConfigKey, MetadataFor;
  }

  lemma EnterKeepsCall(s: State, action: Action, id: CallId)
    requires Invariant(s) && action.Enter?
    ensures CallKeepsChannel(Do(s, action), id)
  {
    hide Invariant, ConfigKey, MetadataFor;
    Instances(s, AwaitedPromise(s, id), id, id, Stable);
    Instances(s, 0, id, id, Beta);
  }

  lemma ResumeKeepsCall(s: State, action: Action, id: CallId)
    requires Invariant(s) && action.Resume?
    ensures CallKeepsChannel(Do(s, action), id)
  {
    hide Invariant, ConfigKey, MetadataFor;
    Instances(s, AwaitedPromise(s, id), id, action.call, Stable);
    Instances(s, 0, action.call, id, Beta);
  }

  lemma StepKeepsCall(s: State, action: Action, id: CallId)
    requires Invariant(s)
    ensures CallKeepsChannel(Do(s, action), id)
  {
    hide Invariant, Configured, ConfigKey, MetadataFor;
    if action.Enter? {
      EnterKeepsCall(s, action, id);
    } else if action.Resume? {
      ResumeKeepsCall(s, action, id);
    } else {
      Instances(s, AwaitedPromise(s, id), id, id, Stable);
      if action.Configure? {
        ConfigureTouches(s, action);
      }
    }
  }

  lemma StepKeepsOwner(s: State, action: Action, a: CallId, b: CallId)
    requires Invariant(s)
    ensures OwnedOnce(Do(s, action), a, b)
  {
    hide Invariant, Configured, ConfigKey, MetadataFor;
    Instances(s, 0, a, b, Stable);
    Instances(s, 0, b, a, Stable);
  }

  lemma StepKeepsService(s: State, action: Action)
    requires Invariant(s)
    ensures PromiseIsKnown(Do(s, action))
    ensures forall p :: p in Do(s, action).checks ==> p < Do(s, action).next
  {
    hide Configured, ConfigKey, MetadataFor;
    Instances(s, s.next, 0, 0, Stable);
    if action.Configure? {
      ConfigureTouches(s, action);
    }
  }

  lemma StepKeepsFailures(s: State, action: Action, channel: Channel)
    requires Invariant(s)
    ensures FailureKeepsChannel(Do(s, action).service, channel)
  {
    hide Invariant, Configured, ConfigKey, MetadataFor;
    Instances(s, 0, 0, 0, channel);
    if action.Configure? {
      ConfigureTouches(s, action);
    }
  }

  lemma ConfiguredMatches(v: Service, channel: Channel, metadata: Metadata, feed: JsString)
    requires KeyIsCurrent(v)
    ensures var v' := Configured(v, channel, metadata, feed);
            && KeyIsCurrent(v')
            && v'.updater == Updater(Some(metadata), channel.Beta?, Some((feed, metadata)))
  {
    hide ConfigKey;
    var v' := Configured(v, channel, metadata, feed);
    forall c, m, f | v'.configuredKey == ConfigKey(c, m, f)
      ensures v'.updater.feed == Some((f, m))
    {
      ConfigKeyIsInjective(c, m, f, channel, metadata, feed);
    }
  }

  lemma StepKeepsKey(s: State, action: Action)
    requires Invariant(s)
    ensures KeyIsCurrent(Do(s, action).service)
  {
    hide ConfigKey, MetadataFor;
    if action.Configure? && action.promise in s.checks {
      var channel, release := s.checks[action.promise].channel, action.release;
      var metadata := MetadataFor(channel, release.advertised);
      if metadata.Some? && release.feed.Some? {
        ConfiguredMatches(s.service, channel, metadata.value, release.feed.value);
      }
    } else {
      hide Configured;
      assert Do(s, action).service.configuredKey == s.service.configuredKey;
      assert Do(s, action).service.updater == s.service.updater;
    }
  }

  /** The updater is configured for the one check under way, and no other check is using it. */
  lemma ConfigureKeepsCheck(s: State, action: Action, p: PromiseId)
    requires Invariant(s) && action.Configure?
    ensures CheckIsAlone(Do(s, action), p)
  {
    Instances(s, p, 0, 0, Stable);
    Instances(s, action.promise, 0, 0, Stable);
    if action.promise in s.checks {
      var channel, release := s.checks[action.promise].channel, action.release;
      var metadata := MetadataFor(channel, release.advertised);
      if metadata.Some? && release.feed.Some? {
        ConfiguredMatches(s.service, channel, metadata.value, release.feed.value);
        ConfigureTouches(s, action);
      }
    }
    hide ConfigKey, MetadataFor, Configured, Invariant;
  }

  lemma StepKeepsInvariant(s: State, action: Action)
    requires Invariant(s)
    ensures Invariant(Do(s, action))
  {
    hide Do, CheckIsAlone, CallKeepsChannel, OwnedOnce, KeyIsCurrent, FailureKeepsChannel, PromiseIsKnown;
    var s' := Do(s, action);
    forall p
      ensures CheckIsAlone(s', p)
    {
      if action.Configure? {
        ConfigureKeepsCheck(s, action, p);
      } else {
        StepKeepsCheck(s, action, p);
      }
    }
    forall id
      ensures CallKeepsChannel(s', id)
    {
      StepKeepsCall(s, action, id);
    }
    forall a, b
      ensures OwnedOnce(s', a, b)
    {
      StepKeepsOwner(s, action, a, b);
    }
    forall channel
      ensures FailureKeepsChannel(s'.service, channel)
    {
      StepKeepsFailures(s, action, channel);
    }
    StepKeepsKey(s, action);
    StepKeepsService(s, action);
  }

  lemma {:induction false} RunKeepsInvariant(s: State, schedule: seq<Action>)
    requires Invariant(s)
    ensures Invariant(Run(s, schedule))
    decreases |schedule|
  {
    hide Do, Invariant;
    if schedule != [] {
      StepKeepsInvariant(s, schedule[0]);
      RunKeepsInvariant(Do(s, schedule[0]), schedule[1..]);
    }
  }

  lemma InitiallyInvariant()
    ensures Invariant(INITIAL)
  {
    hide MetadataName, ChannelName;
    forall c, m, feed
      ensures ConfigKey(c, m, feed) != []
    {}
  }

  // ------------------------------------------------------------ main results

  /** At most one check is under way: two checks that have not settled are the same. */
  lemma SingleFlight(schedule: seq<Action>, p: PromiseId, q: PromiseId)
    requires var s := Run(INITIAL, schedule);
             p in s.checks && q in s.checks && !s.checks[p].phase.Settled? && !s.checks[q].phase.Settled?
    ensures p == q
  {
    hide Run, Do, Invariant;
    InitiallyInvariant();
    RunKeepsInvariant(INITIAL, schedule);
    Instances(Run(INITIAL, schedule), p, 0, 0, Stable);
    Instances(Run(INITIAL, schedule), q, 0, 0, Stable);
  }

  /**
   While the updater checks, its metadata file, its feed and its prerelease
   switch are those of the check's own channel; a stable check never reads
   prerelease metadata.
   */
  lemma UpdaterServesItsCheck(schedule: seq<Action>, p: PromiseId)
    requires var s := Run(INITIAL, schedule); p in s.checks && s.checks[p].phase.Running?
    ensures var s := Run(INITIAL, schedule);
            var check := s.checks[p];
            && s.service.updater == Updater(Some(check.phase.metadata), check.channel.Beta?,
                                            Some((check.phase.feed, check.phase.metadata)))
            && (check.channel.Stable? ==> check.phase.metadata == LatestYml)
  {
    hide Run, Do, Invariant;
    InitiallyInvariant();
    RunKeepsInvariant(INITIAL, schedule);
    Instances(Run(INITIAL, schedule), p, 0, 0, Stable);
  }

  /** Every result or error carries the channel that was resolved for the call, which is the one asked for. */
  lemma OutcomeIsOfAskedChannel(schedule: seq<Action>, id: CallId)
    requires var s := Run(INITIAL, schedule); id in s.calls && s.calls[id].Finished?
    ensures var call := Run(INITIAL, schedule).calls[id];
            OutcomeChannel(call.outcome) == call.channel && (call.asked.Some? ==> call.channel == call.asked.value)
  {
    hide Run, Do, Invariant;
    InitiallyInvariant();
    RunKeepsInvariant(INITIAL, schedule);
    Instances(Run(INITIAL, schedule), 0, id, 0, Stable);
  }

  /** The shared promise is forgotten only by the call that owns it, so it never hides a check under way. */
  lemma PromiseOutlivesCheck(schedule: seq<Action>, p: PromiseId)
    requires var s := Run(INITIAL, schedule); p in s.checks && !s.checks[p].phase.Settled?
    ensures Run(INITIAL, schedule).service.promise == Some(p)
  {
    hide Run, Do, Invariant;
    InitiallyInvariant();
    RunKeepsInvariant(INITIAL, schedule);
    Instances(Run(INITIAL, schedule), p, 0, 0, Stable);
  }

  lemma StepKeepsOneOwner(s: State, action: Action)
    requires Invariant(s) && HasOwner(s)
    ensures HasOwner(Do(s, action))
  {
    hide Invariant, Configured, ConfigKey, MetadataFor;
    var s' := Do(s, action);
    if action.Configure? {
      ConfigureTouches(s, action);
    }
    if s.service.promise.Some? && s'.service.promise.Some? {
      var p := s.service.promise.value;
      var id :| Owns(s, id, p);
      Instances(s, 0, id, if action.Resume? then action.call else id, Stable);
      Instances(s, 0, if action.Resume? then action.call else id, id, Stable);
      assert Owns(s', id, p);
    } else if s'.service.promise.Some? {
      assert Owns(s', action.call, s.next);
    }
  }

  lemma {:induction false} RunKeepsOwner(s: State, schedule: seq<Action>)
    requires Invariant(s) && HasOwner(s)
    ensures HasOwner(Run(s, schedule))
    decreases |schedule|
  {
    hide Do, Invariant, HasOwner;
    if schedule != [] {
      StepKeepsInvariant(s, schedule[0]);
      StepKeepsOneOwner(s, schedule[0]);
      RunKeepsOwner(Do(s, schedule[0]), schedule[1..]);
    }
  }

  /** When every call has ended, no promise is left behind and the next call starts a new check. */
  lemma NoPromiseIsLeftBehind(schedule: seq<Action>)
    requires var s := Run(INITIAL, schedule);
             forall id :: id in s.calls ==> s.calls[id].Finished? || s.calls[id].NoSettings?
    ensures var s := Run(INITIAL, schedule);
            s.service.promise.None? && forall p :: p in s.checks ==> s.checks[p].phase.Settled?
  {
    hide Run, Do, Invariant;
    InitiallyInvariant();
    RunKeepsInvariant(INITIAL, schedule);
    RunKeepsOwner(INITIAL, schedule);
    var s := Run(INITIAL, schedule);
    forall p | p in s.checks
      ensures s.checks[p].phase.Settled?
    {
      Instances(s, p, 0, 0, Stable);
    }
  }

  // ------------------------------------------------------------ what calls and checks come to

  /** A stable check uses the stable metadata or refuses; a beta check uses what is advertised, and its own by default. */
  lemma MetadataExactly(advertised: Advertised, metadata: Metadata)
    ensures MetadataFor(Stable, advertised) == Some(metadata) <==>
              metadata == LatestYml && (advertised.Silent? || advertised == Advertises(LatestYml))
    ensures MetadataFor(Beta, advertised) == Some(metadata) <==>
              advertised == Advertises(metadata) || (advertised.Silent? && metadata == BetaYml)
  {}

  /**
   A recent result of the channel is given at once; a check under way is shared
   by calls of its channel and awaited by others; a recent failure of the
   channel is repeated; only otherwise a new check begins.
   */
  lemma DecidesExactly(v: Service, channel: Channel, options: Options, now: int)
    ensures var d := Decide(v, channel, options, now);
            var cached := && options.maxAge > 0 && v.lastResult.Some? && v.lastResult.value.channel == channel
                          && v.lastCheckedAt > now - options.maxAge;
            var failed := && options.failureMaxAge > 0 && channel in v.failures
                          && v.failures[channel].checkedAt > now - options.failureMaxAge;
            && (d.Reuse? <==> cached) && (cached ==> v.lastResult == Some(d.result))
            && (d.Share? <==> !cached && v.promise.Some? && v.checkChannel == Some(channel))
            && (d.WaitFor? <==> !cached && v.promise.Some? && v.checkChannel != Some(channel))
            && (d.Share? || d.WaitFor? ==> v.promise == Some(d.promise))
            && (d.Refuse? <==> !cached && v.promise.None? && failed)
            && (d.Refuse? ==> d.outcome == v.failures[channel].outcome)
            && (d.Begin? <==> !cached && v.promise.None? && !failed)
  {}

  /**
   An answer of the updater is remembered with its time and takes back the
   failure of its channel; a failure is remembered with its time; nothing else
   changes what is remembered of either.
   */
  lemma OutcomesAreRemembered(s: State, action: Action)
    ensures var v, v' := s.service, Do(s, action).service;
            var answered := action.UpdaterAnswers? && action.promise in s.checks && s.checks[action.promise].phase.Running?;
            var failed := action.CheckFails? && action.promise in s.checks && !s.checks[action.promise].phase.Settled?;
            && (answered ==>
                var channel := s.checks[action.promise].channel;
                && v'.lastResult == Some(Result(channel, action.details)) && v'.lastCheckedAt == action.now
                && v'.failures.Keys == v.failures.Keys - {channel})
            && (failed ==>
                var channel := s.checks[action.promise].channel;
                && v'.lastResult == v.lastResult && v'.lastCheckedAt == v.lastCheckedAt
                && v'.failures.Keys == v.failures.Keys + {channel}
                && v'.failures[channel] == Failure(action.now, Rejected(channel, action.error)))
            && (!answered && !failed ==>
                v'.lastResult == v.lastResult && v'.lastCheckedAt == v.lastCheckedAt && v'.failures == v.failures)
            && (forall c :: c in v.failures && c in v'.failures
                            && ((answered || failed) ==> c != s.checks[action.promise].channel) ==>
                v'.failures[c] == v.failures[c])
  {
    hide ConfigKey, MetadataFor;
  }

  /** The check of a promise goes through its phases, with the outcome that ends it. */
  lemma ChecksExactly(s: State, p: PromiseId, release: Release, answer: bool, value: nat, now: int)
    requires p in s.checks && s.checks[p].phase.Fetching?
    requires MetadataFor(s.checks[p].channel, release.advertised).Some? && release.feed.Some?
    ensures var channel := s.checks[p].channel;
            var metadata, feed := MetadataFor(channel, release.advertised).value, release.feed.value;
            var s1 := Do(s, Configure(p, release));
            var s2 := Do(s1, StartUpdater(p));
            var s3 := Do(s2, if answer then UpdaterAnswers(p, value, now) else CheckFails(p, value, now));
            && s1.checks == s.checks[p := Check(channel, Ready(metadata, feed))] && s1.calls == s.calls
            && s1.service.updater.metadata == Some(metadata) && s1.service.updater.allowPrerelease == channel.Beta?
            && s2.checks == s.checks[p := Check(channel, Running(metadata, feed))] && s2.service == s1.service
            && s3.checks == s.checks[p := Check(channel, Settled(if answer then Resolved(Result(channel, value))
                                                                 else Rejected(channel, value)))]
            && s3.calls == s.calls && s3.service.promise == s.service.promise
  {
    hide ConfigKey, MetadataFor;
  }

  /** A refused release leaves everything as it was, and a check can fail in every phase. */
  lemma RefusedReleases(s: State, p: PromiseId, release: Release, error: nat, now: int)
    requires p in s.checks && !s.checks[p].phase.Settled?
    ensures MetadataFor(s.checks[p].channel, release.advertised).None? || release.feed.None? ==>
              Do(s, Configure(p, release)) == s
    ensures Do(s, CheckFails(p, error, now)).checks
         == s.checks[p := Check(s.checks[p].channel, Settled(Rejected(s.checks[p].channel, error)))]
  {
    hide ConfigKey, MetadataFor;
  }

  function CallOf(s: State, id: CallId): Option<Call> {
    if id in s.calls then Some(s.calls[id]) else None
  }

  /** A new call resolves its channel, from its argument or the settings, and enters. */
  lemma CallsEnter(s: State, id: CallId, asked: Option<Channel>, options: Options, setting: Option<Channel>)
    requires id !in s.calls
    ensures var s' := Do(Do(s, StartCall(id, asked, options)), ResolveChannel(id, setting));
            && s'.service == s.service && s'.checks == s.checks
            && CallOf(s', id) == Some(if asked.Some? then Entering(asked, options, asked.value)
                                      else if setting.Some? then Entering(asked, options, setting.value)
                                      else NoSettings)
            && forall other :: other != id ==> CallOf(s', other) == CallOf(s, other)
  {
    hide Configured, Decide;
  }

  /**
   An entering call ends with a cached outcome, shares or awaits the check under
   way, or begins and owns a new one for its channel.
   */
  lemma EntersExactly(s: State, id: CallId, now: int)
    requires id in s.calls && s.calls[id].Entering?
    ensures var call, s' := s.calls[id], Do(s, Enter(id, now));
            var d := Decide(s.service, call.channel, call.options, now);
            && (forall other :: other != id ==> CallOf(s', other) == CallOf(s, other))
            && (d.Begin? ==>
                && CallOf(s', id) == Some(Owning(call.asked, call.channel, s.next))
                && s'.service.promise == Some(s.next) && s'.service.checkChannel == Some(call.channel)
                && s'.checks == s.checks[s.next := Check(call.channel, Fetching)] && s'.next == s.next + 1)
            && (!d.Begin? ==>
                && s'.service == s.service && s'.checks == s.checks
                && CallOf(s', id) == Some(match d
                                          case Share(p) => Sharing(call.asked, call.channel, p)
                                          case WaitFor(p) => Waiting(call.asked, call.options, p)
                                          case Reuse(result) => Finished(call.asked, call.channel, Resolved(result))
                                          case Refuse(outcome) => Finished(call.asked, call.channel, outcome)
                                          case Begin => call))
  {
    hide Decide;
  }

  /**
   Once its check has settled, a call that owns or shares it ends with its
   outcome, the owner also forgetting the promise, and a call that waited
   resolves its channel again; before that none of them goes on.
   */
  lemma ResumesExactly(s: State, id: CallId)
    requires id in s.calls && (s.calls[id].Owning? || s.calls[id].Sharing? || s.calls[id].Waiting?)
    ensures var call, s' := s.calls[id], Do(s, Resume(id));
            && s'.checks == s.checks
            && (forall other :: other != id ==> CallOf(s', other) == CallOf(s, other))
            && (!IsSettled(s, call.promise) ==> s' == s)
            && (IsSettled(s, call.promise) ==>
                var outcome := s.checks[call.promise].phase.outcome;
                && CallOf(s', id) == Some(if call.Waiting? then Resolving(call.asked, call.options)
                                          else Finished(call.asked, call.channel, outcome))
                && s'.service == if call.Owning? then s.service.(promise := None, checkChannel := None) else s.service)
  {}

  // ------------------------------------------------------------ every check can be finished

  /** The steps by which the owner's check is answered and its call ends. */
  function Answering(id: CallId, p: PromiseId, release: Release, details: nat, now: int): seq<Action> {
    [Configure(p, release), StartUpdater(p), UpdaterAnswers(p, details, now), Resume(id)]
  }

  lemma RunFour(s: State, a: Action, b: Action, c: Action, d: Action)
    ensures Run(s, [a, b, c, d]) == Do(Do(Do(Do(s, a), b), c), d)
  {
    hide Do;
    assert [a, b, c, d][1..] == [b, c, d] && [b, c, d][1..] == [c, d] && [c, d][1..] == [d] && [d][1..] == [];
    assert Run(Do(s, a), [b, c, d]) == Run(Do(Do(s, a), b), [c, d]);
    assert Run(Do(Do(s, a), b), [c, d]) == Run(Do(Do(Do(s, a), b), c), [d]);
  }

  /** A call that owns a new check ends with the updater's answer on its channel, and leaves no promise behind. */
  lemma OwnerEndsWithAnswer(s: State, id: CallId, release: Release, details: nat, now: int)
    requires id in s.calls && s.calls[id].Owning? && s.calls[id].promise in s.checks
    requires s.checks[s.calls[id].promise] == Check(s.calls[id].channel, Fetching)
    requires MetadataFor(s.calls[id].channel, release.advertised).Some? && release.feed.Some?
    ensures var call := s.calls[id];
            var s' := Run(s, Answering(id, call.promise, release, details, now));
            && CallOf(s', id) == Some(Finished(call.asked, call.channel, Resolved(Result(call.channel, details))))
            && s'.service.promise == None
  {
    hide Do, Run, MetadataFor, Resumed;
    var p := s.calls[id].promise;
    var s1 := Do(s, Configure(p, release));
    var s2 := Do(s1, StartUpdater(p));
    var s3 := Do(s2, UpdaterAnswers(p, details, now));
    RunFour(s, Configure(p, release), StartUpdater(p), UpdaterAnswers(p, details, now), Resume(id));
    ChecksExactly(s, p, release, true, details, now);
    ResumesExactly(s3, id);
  }
}
