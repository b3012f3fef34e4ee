/**
 The launcher's update check of electron/launcher-auto-updater.js: any number
 of concurrent calls of `check`, interleaved wherever the code awaits.
 */
module LauncherUpdate {
  import opened JsStrings

  // ------------------------------------------------------------ channels and feeds

  datatype Channel = Stable | Beta

  datatype Metadata = LatestYml | BetaYml

  /** What the release feed says about the metadata file. */
  datatype Advertised = Silent | Advertises(metadata: Metadata) | Unsupported

  /** A fetched release; it has no feed when its tag is missing or its URL is not the expected one. */
  datatype Release = Release(advertised: Advertised, feed: Option<JsString>)

  function MetadataFor(channel: Channel, advertised: Advertised): (r: Option<Metadata>)
    ensures channel.Stable? && r.Some? ==> r.value == LatestYml
  {
    match advertised
    case Silent => Some(if channel.Beta? then BetaYml else LatestYml)
    case Advertises(metadata) => if channel.Stable? && metadata.BetaYml? then None else Some(metadata)
    case Unsupported => None
  }

  const COLON: CodeUnit := 0x3A

  function ChannelName(channel: Channel): JsString {
    if channel.Stable? then Js("stable") else Js("beta")
  }

  function MetadataName(metadata: Metadata): JsString {
    if metadata.LatestYml? then Js("latest") else Js("beta")
  }

  function ConfigKey(channel: Channel, metadata: Metadata, feed: JsString): JsString {
    ChannelName(channel) + ([COLON] + (MetadataName(metadata) + ([COLON] + feed)))
  }

  // ------------------------------------------------------------ the service

  type PromiseId = nat

  datatype Result = Result(channel: Channel, details: nat)

  /** How a check ends; an error is tagged with the channel whose check raised it. */
  datatype Outcome = Resolved(result: Result) | Rejected(channel: Channel, error: nat)

  function OutcomeChannel(outcome: Outcome): Channel {
    match outcome
    case Resolved(result) => result.channel
    case Rejected(channel, _) => channel
  }

  datatype Failure = Failure(checkedAt: int, outcome: Outcome)

  datatype Updater = Updater(metadata: Option<Metadata>, allowPrerelease: bool, feed: Option<(JsString, Metadata)>)

  datatype Service = Service(
    promise: Option<PromiseId>,
    checkChannel: Option<Channel>,
    lastResult: Option<Result>,
    lastCheckedAt: int,
    failures: map<Channel, Failure>,
    configuredKey: JsString,
    updater: Updater)

  datatype Options = Options(maxAge: int, failureMaxAge: int)

  /** What a call does once its channel is known. */
  datatype Decision =
    | Reuse(result: Result)
    | Share(promise: PromiseId)
    | WaitFor(promise: PromiseId)
    | Refuse(outcome: Outcome)
    | Begin

  function Decide(v: Service, channel: Channel, options: Options, now: int): Decision {
    if options.maxAge > 0 && v.lastResult.Some? && v.lastResult.value.channel == channel
       && now - v.lastCheckedAt < options.maxAge then Reuse(v.lastResult.value)
    else if v.promise.Some? then
      if v.checkChannel == Some(channel) then Share(v.promise.value) else WaitFor(v.promise.value)
    else if options.failureMaxAge > 0 && channel in v.failures
            && now - v.failures[channel].checkedAt < options.failureMaxAge then Refuse(v.failures[channel].outcome)
    else Begin
  }

  function Configured(v: Service, channel: Channel, metadata: Metadata, feed: JsString): Service {
    var key := ConfigKey(channel, metadata, feed);
    v.(updater := Updater(Some(metadata), channel.Beta?,
                          if v.configuredKey != key then Some((feed, metadata)) else v.updater.feed),
       configuredKey := key)
  }

  function Succeeded(v: Service, result: Result, now: int): Service {
    v.(lastResult := Some(result), lastCheckedAt := now,
       failures := map c | c in v.failures && c != result.channel :: v.failures[c])
  }

  function Failed(v: Service, channel: Channel, error: nat, now: int): Service {
    v.(failures := v.failures[channel := Failure(now, Rejected(channel, error))])
  }

  const NEW_SERVICE := Service(None, None, None, 0, map[], [], Updater(None, false, None))

  /** The fields of the service. Each method is one stretch of code without an await. */
  class LauncherAutoUpdateService {
    var checkPromise: Option<PromiseId>
    var checkChannel: Option<Channel>
    var lastResult: Option<Result>
    var lastCheckedAt: int
    var checkFailures: map<Channel, Failure>
    var configuredKey: JsString
    var updater: Updater

    function Value(): Service
      reads this
    {
      Service(checkPromise, checkChannel, lastResult, lastCheckedAt, checkFailures, configuredKey, updater)
    }

    constructor ()
      ensures Value() == NEW_SERVICE
    {
      checkPromise, checkChannel, lastResult, lastCheckedAt := None, None, None, 0;
      checkFailures, configuredKey, updater := map[], [], Updater(None, false, None);
    }

    method EnterCheck(channel: Channel, options: Options, now: int, next: PromiseId) returns (decision: Decision)
      modifies this
      ensures decision == Decide(old(Value()), channel, options, now)
      ensures Value() == if decision.Begin? then old(Value()).(promise := Some(next), checkChannel := Some(channel))
                         else old(Value())
    {
      var cacheLifetime := if options.maxAge > 0 then options.maxAge else 0;
      if cacheLifetime > 0 && lastResult.Some? && lastResult.value.channel == channel
         && now - lastCheckedAt < cacheLifetime {
        return Reuse(lastResult.value);
      }
      if checkPromise.Some? {
        if checkChannel == Some(channel) {
          return Share(checkPromise.value);
        }
        return WaitFor(checkPromise.value);
      }
      var failureCacheLifetime := if options.failureMaxAge > 0 then options.failureMaxAge else 0;
      if failureCacheLifetime > 0 && channel in checkFailures
         && now - checkFailures[channel].checkedAt < failureCacheLifetime {
        return Refuse(checkFailures[channel].outcome);
      }
      checkChannel := Some(channel);
      checkPromise := Some(next);
      return Begin;
    }

    method Configure(channel: Channel, release: Release) returns (ok: bool)
      modifies this
      ensures ok <==> MetadataFor(channel, release.advertised).Some? && release.feed.Some?
      ensures Value() == if ok then Configured(old(Value()), channel, MetadataFor(channel, release.advertised).value,
                                               release.feed.value)
                         else old(Value())
    {
      var metadata := MetadataFor(channel, release.advertised);
      if metadata.None? || release.feed.None? {
        return false;
      }
      var key := ConfigKey(channel, metadata.value, release.feed.value);
      updater := updater.(metadata := metadata, allowPrerelease := channel.Beta?);
      if configuredKey != key {
        updater := updater.(feed := Some((release.feed.value, metadata.value)));
        configuredKey := key;
      }
      return true;
    }

    method Finish()
      modifies this
      ensures Value() == old(Value()).(promise := None, checkChannel := None)
    {
      checkPromise := None;
      checkChannel := None;
    }
  }

  // ------------------------------------------------------------ concurrent calls

  type CallId = nat

  datatype Phase =
    | Fetching
    | Ready(metadata: Metadata, feed: JsString)
    | Running(metadata: Metadata, feed: JsString)
    | Settled(outcome: Outcome)

  datatype Check = Check(channel: Channel, phase: Phase)

  /** A call of `check`; `asked` is None when the channel is read from the settings. */
  datatype Call =
    | Resolving(asked: Option<Channel>, options: Options)
    | Entering(asked: Option<Channel>, options: Options, channel: Channel)
    | Owning(asked: Option<Channel>, channel: Channel, promise: PromiseId)
    | Sharing(asked: Option<Channel>, channel: Channel, promise: PromiseId)
    | Waiting(asked: Option<Channel>, options: Options, promise: PromiseId)
    | Finished(asked: Option<Channel>, channel: Channel, outcome: Outcome)
    | NoSettings

  datatype State = State(service: Service, checks: map<PromiseId, Check>, calls: map<CallId, Call>, next: PromiseId)

  const INITIAL := State(NEW_SERVICE, map[], map[], 0)

  datatype Action =
    | StartCall(call: CallId, asked: Option<Channel>, options: Options)
    | ResolveChannel(call: CallId, setting: Option<Channel>)
    | Enter(call: CallId, now: int)
    | Resume(call: CallId)
    | Configure(promise: PromiseId, release: Release)
    | StartUpdater(promise: PromiseId)
    | UpdaterAnswers(promise: PromiseId, details: nat, now: int)
    | CheckFails(promise: PromiseId, error: nat, now: int)

  function SetCall(s: State, id: CallId, call: Call): State {
    s.(calls := s.calls[id := call])
  }

  function SetPhase(s: State, p: PromiseId, phase: Phase): State
    requires p in s.checks
  {
    s.(checks := s.checks[p := s.checks[p].(phase := phase)])
  }

  function Entered(s: State, id: CallId, call: Call, now: int): State
    requires call.Entering?
  {
    match Decide(s.service, call.channel, call.options, now)
    case Reuse(result) => SetCall(s, id, Finished(call.asked, call.channel, Resolved(result)))
    case Refuse(outcome) => SetCall(s, id, Finished(call.asked, call.channel, outcome))
    case Share(p) => SetCall(s, id, Sharing(call.asked, call.channel, p))
    case WaitFor(p) => SetCall(s, id, Waiting(call.asked, call.options, p))
    case Begin =>
      SetCall(s, id, Owning(call.asked, call.channel, s.next))
      .(service := s.service.(promise := Some(s.next), checkChannel := Some(call.channel)),
        checks := s.checks[s.next := Check(call.channel, Fetching)],
        next := s.next + 1)
  }

  predicate IsSettled(s: State, p: PromiseId) {
    p in s.checks && s.checks[p].phase.Settled?
  }

  function Resumed(s: State, id: CallId, call: Call): State {
    match call
    case Owning(asked, channel, p) =>
      if IsSettled(s, p) then
        SetCall(s, id, Finished(asked, channel, s.checks[p].phase.outcome))
        .(service := s.service.(promise := None, checkChannel := None))
      else s
    case Sharing(asked, channel, p) =>
      if IsSettled(s, p) then SetCall(s, id, Finished(asked, channel, s.checks[p].phase.outcome)) else s
    case Waiting(asked, options, p) =>
      if IsSettled(s, p) then SetCall(s, id, Resolving(asked, options)) else s
    case _ => s
  }

  /** The next step of one call or one check; a step that is not due changes nothing. */
  function Do(s: State, action: Action): State {
    match action
    case StartCall(id, asked, options) => if id in s.calls then s else SetCall(s, id, Resolving(asked, options))
    case ResolveChannel(id, setting) =>
      if id in s.calls && s.calls[id].Resolving? then
        var call := s.calls[id];
        var channel := if call.asked.Some? then call.asked else setting;
        SetCall(s, id, if channel.Some? then Entering(call.asked, call.options, channel.value) else NoSettings)
      else s
    case Enter(id, now) => if id in s.calls && s.calls[id].Entering? then Entered(s, id, s.calls[id], now) else s
    case Resume(id) => if id in s.calls then Resumed(s, id, s.calls[id]) else s
    case Configure(p, release) =>
      if p in s.checks && s.checks[p].phase.Fetching? then
        var metadata := MetadataFor(s.checks[p].channel, release.advertised);
        if metadata.Some? && release.feed.Some? then
          SetPhase(s, p, Ready(metadata.value, release.feed.value))
          .(service := Configured(s.service, s.checks[p].channel, metadata.value, release.feed.value))
        else s
      else s
    case StartUpdater(p) =>
      if p in s.checks && s.checks[p].phase.Ready? then
        SetPhase(s, p, Running(s.checks[p].phase.metadata, s.checks[p].phase.feed))
      else s
    case UpdaterAnswers(p, details, now) =>
      if p in s.checks && s.checks[p].phase.Running? then
        var result := Result(s.checks[p].channel, details);
        SetPhase(s, p, Settled(Resolved(result))).(service := Succeeded(s.service, result, now))
      else s
    case CheckFails(p, error, now) =>
      if p in s.checks && !s.checks[p].phase.Settled? then
        SetPhase(s, p, Settled(Rejected(s.checks[p].channel, error)))
        .(service := Failed(s.service, s.checks[p].channel, error, now))
      else s
  }

  function Run(s: State, schedule: seq<Action>): State
    decreases |schedule|
  {
    if schedule == [] then s else Run(Do(s, schedule[0]), schedule[1..])
  }

  // ------------------------------------------------------------ the invariant

  /** A check that has not settled is the one the service remembers, and it has the updater to itself. */
  predicate CheckIsAlone(s: State, p: PromiseId) {
    p in s.checks ==>
      var check := s.checks[p];
      && (!check.phase.Settled? ==> s.service.promise == Some(p) && s.service.checkChannel == Some(check.channel))
      && (check.phase.Ready? || check.phase.Running? ==>
          s.service.updater == Updater(Some(check.phase.metadata), check.channel.Beta?,
                                       Some((check.phase.feed, check.phase.metadata)))
          && (check.channel.Stable? ==> check.phase.metadata == LatestYml))
      && (check.phase.Settled? ==> OutcomeChannel(check.phase.outcome) == check.channel)
  }

  /** A call keeps the channel it resolved. */
  predicate CallKeepsChannel(s: State, id: CallId) {
    id in s.calls ==>
      match s.calls[id]
      case Entering(asked, _, channel) => asked.Some? ==> channel == asked.value
      case Owning(asked, channel, p) =>
        && (asked.Some? ==> channel == asked.value) && p in s.checks && s.checks[p].channel == channel
        && s.service.promise == Some(p)
      case Sharing(asked, channel, p) =>
        (asked.Some? ==> channel == asked.value) && p in s.checks && s.checks[p].channel == channel
      case Finished(asked, channel, outcome) =>
        (asked.Some? ==> channel == asked.value) && OutcomeChannel(outcome) == channel
      case _ => true
  }

  predicate OwnedOnce(s: State, a: CallId, b: CallId) {
    a in s.calls && b in s.calls && s.calls[a].Owning? && s.calls[b].Owning? ==> a == b
  }

  ghost predicate KeyIsCurrent(v: Service) {
    forall c, m, feed :: v.configuredKey == ConfigKey(c, m, feed) ==> v.updater.feed == Some((feed, m))
  }

  predicate FailureKeepsChannel(v: Service, channel: Channel) {
    channel in v.failures ==> OutcomeChannel(v.failures[channel].outcome) == channel
  }

  predicate PromiseIsKnown(s: State) {
    s.service.promise.Some? ==>
      s.service.promise.value in s.checks && s.service.checkChannel == Some(s.checks[s.service.promise.value].channel)
  }

  ghost predicate Invariant(s: State) {
    && (forall p :: CheckIsAlone(s, p))
    && (forall id :: CallKeepsChannel(s, id))
    && (forall a, b :: OwnedOnce(s, a, b))
    && KeyIsCurrent(s.service)
    && (forall channel :: FailureKeepsChannel(s.service, channel))
    && PromiseIsKnown(s)
    && (forall p :: p in s.checks ==> p < s.next)
  }

  function AwaitedPromise(s: State, id: CallId): PromiseId {
    if id in s.calls && (s.calls[id].Owning? || s.calls[id].Sharing?) then s.calls[id].promise else 0
  }

  // ------------------------------------------------------------ who forgets the promise

  predicate Owns(s: State, id: CallId, p: PromiseId) {
    id in s.calls && s.calls[id].Owning? && s.calls[id].promise == p
  }

  ghost predicate HasOwner(s: State) {
    s.service.promise.Some? ==> exists id :: Owns(s, id, s.service.promise.value)
  }
}
