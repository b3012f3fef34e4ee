/**
 The registry of electron/code-execution-manager.js, whose concurrent updates
 are chained behind one promise.
 */
module InstanceRegistry {
  import opened JsStrings

  datatype Settings = Settings(name: JsString, version: JsString, port: int, memory: JsString, maxConcurrent: int,
                               sessionTimeout: int, networkAccess: bool, allowPip: bool)

  datatype Instance = Instance(id: JsString, settings: Settings)

  type Registry = seq<Instance>

  /**
   The mutations, with normalized settings (None where they were refused) and
   with the steps that succeed, if they are reached.
   */
  datatype Mutation =
    | Create(id: JsString, settings: Settings, portFree: bool, homeReady: bool, persisted: bool)
    | Save(id: JsString, wanted: Option<Settings>, portFree: bool, envReady: bool, envWritten: bool, persisted: bool)
    | Remove(id: JsString, stopped: bool, persisted: bool, homeRemoved: bool)

  datatype Result = Fulfilled | Rejected

  // ------------------------------------------------------------ one mutation

  predicate HasId(registry: Registry, id: JsString) {
    exists i :: 0 <= i < |registry| && registry[i].id == id
  }

  predicate HasPort(registry: Registry, port: int) {
    exists i :: 0 <= i < |registry| && registry[i].settings.port == port
  }

  predicate OtherHasPort(registry: Registry, id: JsString, port: int) {
    exists i :: 0 <= i < |registry| && registry[i].id != id && registry[i].settings.port == port
  }

  function Find(registry: Registry, id: JsString): Option<Instance> {
    if registry == [] then None
    else if registry[0].id == id then Some(registry[0])
    else Find(registry[1..], id)
  }

  function Saved(registry: Registry, id: JsString, settings: Settings): (r: Registry)
    ensures |r| == |registry|
  {
    seq(|registry|, i requires 0 <= i < |registry| => if registry[i].id == id then Instance(id, settings) else registry[i])
  }

  function Without(registry: Registry, id: JsString): Registry {
    if registry == [] then []
    else (if registry[0].id == id then [] else [registry[0]]) + Without(registry[1..], id)
  }

  predicate SaveAllowed(registry: Registry, m: Mutation)
    requires m.Save?
  {
    var found := Find(registry, m.id);
    && found.Some? && m.wanted.Some?
    && !OtherHasPort(registry, m.id, m.wanted.value.port)
    && (found.value.settings.port != m.wanted.value.port ==> m.portFree)
    && m.envReady && m.envWritten
  }

  /** The registry that a mutation leaves, and how its promise settles. */
  function Effect(registry: Registry, m: Mutation): (Registry, Result) {
    match m
    case Create(id, settings, portFree, homeReady, persisted) =>
      if HasPort(registry, settings.port) || !portFree || !homeReady || !persisted then (registry, Rejected)
      else (registry + [Instance(id, settings)], Fulfilled)
    case Save(id, settings, _, _, _, persisted) =>
      if !SaveAllowed(registry, m) || !persisted then (registry, Rejected)
      else (Saved(registry, id, settings.value), Fulfilled)
    case Remove(id, stopped, persisted, homeRemoved) =>
      if Find(registry, id).None? || !stopped || !persisted then (registry, Rejected)
      else (Without(registry, id), if homeRemoved then Fulfilled else Rejected)
  }

  /** The registry file, as the mutations rewrite it. */
  class RegistryFile {
    var instances: Registry

    constructor (initial: Registry)
      ensures instances == initial
    {
      instances := initial;
    }

    method Apply(m: Mutation) returns (result: Result)
      modifies this
      ensures (instances, result) == Effect(old(instances), m)
    {
      hide Find, Without, Saved;
      match m
      case Create(id, settings, portFree, homeReady, persisted) =>
        if HasPort(instances, settings.port) || !portFree || !homeReady || !persisted {
          return Rejected;
        }
        instances := instances + [Instance(id, settings)];
        return Fulfilled;
      case Save(id, settings, portFree, envReady, envWritten, persisted) =>
        var instance := Find(instances, id);
        if instance.None? || settings.None? || OtherHasPort(instances, id, settings.value.port) {
          return Rejected;
        }
        if instance.value.settings.port != settings.value.port && !portFree {
          return Rejected;
        }
        if !envReady || !envWritten || !persisted {
          return Rejected;
        }
        instances := Saved(instances, id, settings.value);
        return Fulfilled;
      case Remove(id, stopped, persisted, homeRemoved) =>
        if Find(instances, id).None? || !stopped || !persisted {
          return Rejected;
        }
        instances := Without(instances, id);
        result := if homeRemoved then Fulfilled else Rejected;
    }
  }

  // ------------------------------------------------------------ the promise chain

  /** A call of `updateRegistry`: its update waits for the call before it, reads, and settles. */
  datatype Call =
    | Waiting(mutation: Mutation)
    | Running(mutation: Mutation, read: Registry)
    | Settled(mutation: Mutation, result: Result)

  datatype State = State(registry: Registry, calls: seq<Call>)

  datatype Action = Update(mutation: Mutation) | Start(index: nat) | Finish(index: nat)

  /** The chain's promise ends fulfilled either way, so the next update starts behind a rejection too. */
  predicate MayStart(s: State, index: nat) {
    index < |s.calls| && s.calls[index].Waiting? && (index == 0 || s.calls[index - 1].Settled?)
  }

  function Do(s: State, action: Action): State {
    match action
    case Update(mutation) => s.(calls := s.calls + [Waiting(mutation)])
    case Start(index) =>
      if MayStart(s, index) then s.(calls := s.calls[index := Running(s.calls[index].mutation, s.registry)]) else s
    case Finish(index) =>
      if index < |s.calls| && s.calls[index].Running? then
        var (registry, result) := Effect(s.calls[index].read, s.calls[index].mutation);
        State(registry, s.calls[index := Settled(s.calls[index].mutation, result)])
      else s
  }

  function Run(s: State, schedule: seq<Action>): State
    decreases |schedule|
  {
    if schedule == [] then s else Run(Do(s, schedule[0]), schedule[1..])
  }

  /** The mutations one after another. */
  function Sequential(registry: Registry, mutations: seq<Mutation>): Registry
    decreases |mutations|
  {
    if mutations == [] then registry
    else Effect(Sequential(registry, mutations[..|mutations| - 1]), mutations[|mutations| - 1]).0
  }

  function Mutations(calls: seq<Call>): (r: seq<Mutation>)
    ensures |r| == |calls|
  {
    seq(|calls|, i requires 0 <= i < |calls| => calls[i].mutation)
  }

  /** The calls before `done` have settled, in order; at most the one at `done` is running. */
  ghost predicate Chained(initial: Registry, s: State, done: nat) {
    && done <= |s.calls|
    && (forall i :: 0 <= i < done ==>
          s.calls[i].Settled?
          && s.calls[i].result == Effect(Sequential(initial, Mutations(s.calls)[..i]), s.calls[i].mutation).1)
    && (forall i :: done < i < |s.calls| ==> s.calls[i].Waiting?)
    && (done < |s.calls| ==> !s.calls[done].Settled?)
    && s.registry == Sequential(initial, Mutations(s.calls)[..done])
    && (done < |s.calls| && s.calls[done].Running? ==> s.calls[done].read == s.registry)
  }

  // ------------------------------------------------------------ running the chain to its end

  /** The steps that settle every call from `done` on. */
  function Rest(done: nat, count: nat): seq<Action>
    decreases count - done
  {
    if done >= count then [] else [Start(done), Finish(done)] + Rest(done + 1, count)
  }

  // ------------------------------------------------------------ ids and ports

  ghost predicate DistinctIds(registry: Registry) {
    forall i, j :: 0 <= i < j < |registry| ==> registry[i].id != registry[j].id
  }

  ghost predicate DistinctPorts(registry: Registry) {
    forall i, j :: 0 <= i < j < |registry| ==> registry[i].settings.port != registry[j].settings.port
  }

  ghost predicate OccursOnce(registry: Registry, id: JsString) {
    forall i, j :: 0 <= i < |registry| && 0 <= j < |registry| && registry[i].id == id && registry[j].id == id ==> i == j
  }

  /** The ids that were there, or have been drawn by a creation. */
  ghost predicate KnownIds(initial: Registry, mutations: seq<Mutation>, registry: Registry) {
    forall instance :: instance in registry ==>
      HasId(initial, instance.id) || exists m :: m in mutations && m.Create? && m.id == instance.id
  }

  /** Every creation draws an id that nobody has had. */
  ghost predicate FreshIds(initial: Registry, mutations: seq<Mutation>) {
    && (forall i :: 0 <= i < |mutations| && mutations[i].Create? ==> !HasId(initial, mutations[i].id))
    && (forall i, j :: 0 <= i < j < |mutations| && mutations[i].Create? && mutations[j].Create? ==>
          mutations[i].id != mutations[j].id)
  }
}
