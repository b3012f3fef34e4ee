/**
 The Code Execution instances of cmd/omlorix-server-cli: a registry file and
 one environment file per instance, changed by operations whose writes and
 starts may all fail.
 */
module CodeExecution {
  import opened JsStrings
  import opened CodeExecutionEnv

  type Registry = seq<Instance>

  /** Both stores: the registry, and the text of every instance's environment file. */
  datatype Store = Store(registry: Registry, envs: map<string, string>)

  /** Nil is Done; every other result is an error. */
  datatype Result =
    | Done
    | Rejected
    | EnvNotWritten
    | RegistryNotWritten
    | EnvNotRestored
    | StoresNotRestored
    | NotRestarted
    | RolledBack
    | NotStarted
    | HomeNotRemoved

  // ------------------------------------------------------------ the registry

  function FindInstance(registry: Registry, id: string): Option<Instance> {
    if registry == [] then None
    else if registry[0].id == id then Some(registry[0])
    else FindInstance(registry[1..], id)
  }

  function Replace(registry: Registry, id: string, instance: Instance): (r: Registry)
    ensures |r| == |registry|
  {
    seq(|registry|, i requires 0 <= i < |registry| => if registry[i].id == id then instance else registry[i])
  }

  /** The loop that overwrites the entries of an instance in place. */
  method ReplaceInPlace(instances: array<Instance>, id: string, instance: Instance)
    modifies instances
    ensures instances[..] == Replace(old(instances[..]), id, instance)
  {
    for index := 0 to instances.Length
      invariant forall i :: 0 <= i < index ==>
                  instances[i] == if old(instances[i]).id == id then instance else old(instances[i])
      invariant forall i :: index <= i < instances.Length ==> instances[i] == old(instances[i])
    {
      if instances[index].id == id {
        instances[index] := instance;
      }
    }
  }

  predicate PortUsed(registry: Registry, port: int) {
    exists i :: 0 <= i < |registry| && registry[i].port == port
  }

  predicate PortUsedExcept(registry: Registry, port: int, id: string) {
    exists i :: 0 <= i < |registry| && registry[i].id != id && registry[i].port == port
  }

  /** The lowest port from `from` to 8999 that no instance has and that can be bound. */
  function NextPort(registry: Registry, available: int -> bool, from: int): (r: Option<int>)
    decreases 9000 - from
  {
    if from > 8999 then None
    else if !PortUsed(registry, from) && available(from) then Some(from)
    else NextPort(registry, available, from + 1)
  }

  lemma {:induction false} NextPortIsLeast(registry: Registry, available: int -> bool, from: int)
    ensures match NextPort(registry, available, from)
            case None => forall port :: from <= port <= 8999 ==> PortUsed(registry, port) || !available(port)
            case Some(port) =>
              && from <= port <= 8999 && !PortUsed(registry, port) && available(port)
              && forall lower :: from <= lower < port ==> PortUsed(registry, lower) || !available(lower)
    decreases 9000 - from
  {
    hide PortUsed;
    if from <= 8999 {
      NextPortIsLeast(registry, available, from + 1);
    }
  }

  method NextCodeExecutionPort(registry: Registry, available: int -> bool) returns (port: Option<int>)
    ensures port == NextPort(registry, available, 8000)
  {
    hide PortUsed;
    for candidate := 8000 to 9000
      invariant NextPort(registry, available, 8000) == NextPort(registry, available, candidate)
    {
      var used := CodeExecutionPortUsed(registry, candidate);
      if !used && available(candidate) {
        return Some(candidate);
      }
    }
    port := None;
  }

  method CodeExecutionPortUsed(registry: Registry, port: int) returns (used: bool)
    ensures used <==> PortUsed(registry, port)
  {
    for i := 0 to |registry|
      invariant forall j :: 0 <= j < i ==> registry[j].port != port
    {
      if registry[i].port == port {
        return true;
      }
    }
    used := false;
  }

  // ------------------------------------------------------------ update

  /** Which steps of an update succeed, if they are reached. */
  datatype UpdateOutcomes = UpdateOutcomes(
    latest: Option<string>, now: string,
    envWritten: bool, registryWritten: bool, started: bool,
    envRestored: bool, registryRestored: bool, restarted: bool)

  /** The answer of the release lookup: only a semantic version is one. */
  function Latest(o: UpdateOutcomes): Option<string> {
    if o.latest.Some? && SemanticVersion(o.latest.value) then o.latest else None
  }

  function PutEnv(store: Store, id: string, env: string): Store {
    store.(envs := store.envs[id := env])
  }

  function Updated(layout: Layout, store: Store, id: string, o: UpdateOutcomes): (Store, Result) {
    var found := FindInstance(store.registry, id);
    if found.None? || Latest(o).None? then (store, Rejected)
    else if found.value.version == Latest(o).value then (store, Done)
    else if id !in store.envs || Secret(layout, store.envs[id]) == [] then (store, Rejected)
    else
      var instance := found.value.(version := Latest(o).value, updatedAt := o.now);
      if !o.envWritten then (store, EnvNotWritten)
      else
        var written := PutEnv(store, id, Serialize(layout, instance, Secret(layout, store.envs[id])));
        if !o.registryWritten then
          if o.envRestored then (store, RegistryNotWritten) else (written, EnvNotRestored)
        else
          var updated := written.(registry := Replace(store.registry, id, instance));
          if o.started then (updated, Done)
          else if !o.envRestored then (updated, StoresNotRestored)
          else
            var half := PutEnv(updated, id, store.envs[id]);
            if !o.registryRestored then (half, StoresNotRestored)
            else
              (half.(registry := Replace(updated.registry, id, found.value)),
               if o.restarted then RolledBack else NotRestarted)
  }

  /** The stores on disk. */
  class Disk {
    var registry: Registry
    var envs: map<string, string>

    function Value(): Store
      reads this
    {
      Store(registry, envs)
    }

    constructor (store: Store)
      ensures Value() == store
    {
      registry, envs := store.registry, store.envs;
    }

    method WriteEnv(id: string, text: string, works: bool) returns (ok: bool)
      modifies this
      ensures ok == works && Value() == if works then PutEnv(old(Value()), id, text) else old(Value())
    {
      ok := works;
      if ok {
        envs := envs[id := text];
      }
    }

    method WriteRegistry(instances: array<Instance>, works: bool) returns (ok: bool)
      modifies this
      ensures ok == works
      ensures Value() == if works then old(Value()).(registry := instances[..]) else old(Value())
    {
      ok := works;
      if ok {
        registry := instances[..];
      }
    }

    /** The rollback of the environment when the registry was not written. */
    method RestoreEnv(id: string, original: string, works: bool) returns (result: Result)
      modifies this
      ensures Value() == if works then PutEnv(old(Value()), id, original) else old(Value())
      ensures result == if works then RegistryNotWritten else EnvNotRestored
    {
      var ok := WriteEnv(id, original, works);
      result := if ok then RegistryNotWritten else EnvNotRestored;
    }

    method RestoreUpdateState(
      id: string, instances: array<Instance>, previous: Instance, original: string, o: UpdateOutcomes)
      returns (ok: bool)
      modifies this, instances
      ensures ok == (o.envRestored && o.registryRestored)
      ensures Value() == if !o.envRestored then old(Value())
                         else if !o.registryRestored then PutEnv(old(Value()), id, original)
                         else PutEnv(old(Value()), id, original).(registry := Replace(old(instances[..]), id, previous))
    {
      ok := WriteEnv(id, original, o.envRestored);
      if !ok {
        return;
      }
      ReplaceInPlace(instances, id, previous);
      ok := WriteRegistry(instances, o.registryRestored);
    }

    method Update(layout: Layout, id: string, o: UpdateOutcomes) returns (result: Result)
      modifies this
      ensures (Value(), result) == Updated(layout, old(Value()), id, o)
    {
      hide FindInstance, Serialize, Secret, SemanticVersion;
      var found := FindInstance(registry, id);
      var latest := Latest(o);
      if found.None? || latest.None? {
        return Rejected;
      }
      var previous := found.value;
      if previous.version == latest.value {
        return Done;
      }
      var instance := previous.(version := latest.value, updatedAt := o.now);
      if id !in envs {
        return Rejected;
      }
      var original := envs[id];
      var secret := Secret(layout, original);
      if secret == [] {
        return Rejected;
      }
      var ok := WriteEnv(id, Serialize(layout, instance, secret), o.envWritten);
      if !ok {
        return EnvNotWritten;
      }
      var instances := CopyOf(registry);
      ReplaceInPlace(instances, id, instance);
      ok := WriteRegistry(instances, o.registryWritten);
      if !ok {
        PutBack(old(Value()), id, Serialize(layout, instance, secret));
        result := RestoreEnv(id, original, o.envRestored);
        return;
      }
      if o.started {
        return Done;
      }
      ok := RestoreUpdateState(id, instances, previous, original, o);
      if !ok {
        return StoresNotRestored;
      }
      result := if o.restarted then RolledBack else NotRestarted;
    }
  }

  method CopyOf(registry: Registry) returns (instances: array<Instance>)
    ensures fresh(instances) && instances[..] == registry
  {
    instances := new Instance[|registry|](i requires 0 <= i < |registry| => registry[i]);
  }

  lemma PutBack(store: Store, id: string, env: string)
    ensures id in store.envs ==> PutEnv(PutEnv(store, id, env), id, store.envs[id]) == store
  {
    if id in store.envs {
      assert store.envs[id := env][id := store.envs[id]] == store.envs;
    }
  }

  // ------------------------------------------------------------ create, edit, delete

  const MEMORY_LIMITS: set<string> := {"256m", "512m", "1g", "2g", "4g", "8g"}

  predicate LimitsAllowed(maxConcurrent: int, sessionTimeout: int) {
    1 <= maxConcurrent <= 100 && 60 <= sessionTimeout <= 86400
  }

  function FirstPositive(value: int, fallback: int): int {
    if value > 0 then value else fallback
  }

  /** What slugify and randomHex generate: lower-case letters, digits and hyphens. */
  type GeneratedId = s: string | forall i :: 0 <= i < |s| ==> 'a' <= s[i] <= 'z' || '0' <= s[i] <= '9' || s[i] == '-'
    witness ""

  /** A requested instance, whose port is 0 when it is to be chosen, its new ID, and the steps that succeed. */
  datatype Creation = Creation(
    wanted: Instance, id: GeneratedId, nameAccepted: bool, available: int -> bool, secret: string,
    prepared: bool, envWritten: bool, registryWritten: bool)

  function CreatedPort(registry: Registry, c: Creation): Option<int> {
    if c.wanted.port == 0 then NextPort(registry, c.available, 8000)
    else if PortUsed(registry, c.wanted.port) || !c.available(c.wanted.port) then None
    else Some(c.wanted.port)
  }

  /** A failure after the home was made removes it again. */
  function Created(layout: Layout, store: Store, c: Creation): (Store, Result) {
    var port := CreatedPort(store.registry, c);
    var instance := c.wanted.(
      id := c.id,
      port := if port.Some? then port.value else 0,
      maxConcurrent := FirstPositive(c.wanted.maxConcurrent, 10),
      sessionTimeout := FirstPositive(c.wanted.sessionTimeout, 1200));
    if !c.nameAccepted || c.wanted.memory !in MEMORY_LIMITS || !SemanticVersion(c.wanted.version) || port.None?
       || FindInstance(store.registry, instance.id).Some?
       || !LimitsAllowed(instance.maxConcurrent, instance.sessionTimeout) then (store, Rejected)
    else if !c.prepared || !c.envWritten then (store.(envs := store.envs - {instance.id}), EnvNotWritten)
    else if !c.registryWritten then (store.(envs := store.envs - {instance.id}), RegistryNotWritten)
    else
      (PutEnv(store, instance.id, Serialize(layout, instance, c.secret)).(registry := store.registry + [instance]), Done)
  }

  /** The edited fields; None where the flag was not given. */
  datatype Changes = Changes(
    name: Option<string>, version: Option<string>, port: Option<int>, memory: Option<string>, maxConcurrent: Option<int>,
    sessionTimeout: Option<int>, networkAccess: Option<bool>, allowPip: Option<bool>)

  datatype EditOutcomes = EditOutcomes(
    nameAccepted: bool, available: int -> bool, now: string,
    envWritten: bool, registryWritten: bool, envRestored: bool, wasRunning: bool, started: bool)

  function OrElse<T>(value: Option<T>, fallback: T): T {
    if value.Some? then value.value else fallback
  }

  function Changed(instance: Instance, c: Changes, now: string): Instance {
    instance.(
      name := OrElse(c.name, instance.name), version := OrElse(c.version, instance.version),
      port := OrElse(c.port, instance.port),
      memory := OrElse(c.memory, instance.memory), maxConcurrent := OrElse(c.maxConcurrent, instance.maxConcurrent),
      sessionTimeout := OrElse(c.sessionTimeout, instance.sessionTimeout),
      networkAccess := OrElse(c.networkAccess, instance.networkAccess), allowPip := OrElse(c.allowPip, instance.allowPip),
      updatedAt := now)
  }

  /** The checks of the given flags, in their order: concurrency is checked against the old session timeout. */
  predicate ChangesAllowed(registry: Registry, instance: Instance, c: Changes, o: EditOutcomes) {
    && (c.name.Some? ==> o.nameAccepted) && (c.version.Some? ==> SemanticVersion(c.version.value))
    && (c.port.Some? && c.port.value != instance.port ==>
        !PortUsedExcept(registry, c.port.value, instance.id) && o.available(c.port.value))
    && (c.memory.Some? ==> c.memory.value in MEMORY_LIMITS)
    && (c.maxConcurrent.Some? ==> LimitsAllowed(c.maxConcurrent.value, instance.sessionTimeout))
    && (c.sessionTimeout.Some? ==> LimitsAllowed(OrElse(c.maxConcurrent, instance.maxConcurrent), c.sessionTimeout.value))
  }

  function Edited(layout: Layout, store: Store, id: string, c: Changes, o: EditOutcomes): (Store, Result) {
    var found := FindInstance(store.registry, id);
    if found.None? || !ChangesAllowed(store.registry, found.value, c, o) then (store, Rejected)
    else if id !in store.envs || Secret(layout, store.envs[id]) == [] then (store, Rejected)
    else
      var instance := Changed(found.value, c, o.now);
      if !o.envWritten then (store, EnvNotWritten)
      else
        var written := PutEnv(store, id, Serialize(layout, instance, Secret(layout, store.envs[id])));
        if !o.registryWritten then
          if o.envRestored then (store, RegistryNotWritten) else (written, EnvNotRestored)
        else
          (written.(registry := Replace(store.registry, id, instance)),
           if o.wasRunning && !o.started then NotStarted else Done)
  }

  function Without(registry: Registry, id: string): Registry {
    if registry == [] then []
    else (if registry[0].id == id then [] else [registry[0]]) + Without(registry[1..], id)
  }

  datatype DeleteOutcomes = DeleteOutcomes(confirm: string, composeDown: bool, registryWritten: bool, homeRemoved: bool)

  function Deleted(store: Store, id: string, o: DeleteOutcomes): (Store, Result) {
    if FindInstance(store.registry, id).None? || o.confirm != id || !o.composeDown then (store, Rejected)
    else if !o.registryWritten then (store, RegistryNotWritten)
    else
      (store.(registry := Without(store.registry, id), envs := if o.homeRemoved then store.envs - {id} else store.envs),
       if o.homeRemoved then Done else HomeNotRemoved)
  }

  datatype Operation =
    | Create(creation: Creation)
    | Edit(id: string, changes: Changes, edit: EditOutcomes)
    | Delete(id: string, delete: DeleteOutcomes)
    | Update(id: string, update: UpdateOutcomes)

  function Apply(layout: Layout, store: Store, op: Operation): (Store, Result) {
    match op
    case Create(c) => Created(layout, store, c)
    case Edit(id, c, o) => Edited(layout, store, id, c, o)
    case Delete(id, o) => Deleted(store, id, o)
    case Update(id, o) => Updated(layout, store, id, o)
  }

  function ApplyAll(layout: Layout, store: Store, ops: seq<Operation>): Store
    decreases |ops|
  {
    if ops == [] then store else ApplyAll(layout, Apply(layout, store, ops[0]).0, ops[1..])
  }

  // ------------------------------------------------------------ what the operations keep

  ghost predicate DistinctIds(registry: Registry) {
    forall i, j :: 0 <= i < j < |registry| ==> registry[i].id != registry[j].id
  }

  ghost predicate DistinctPorts(registry: Registry) {
    forall i, j :: 0 <= i < j < |registry| ==> registry[i].port != registry[j].port
  }

  ghost predicate EnvOfEach(store: Store) {
    forall i :: 0 <= i < |store.registry| ==> store.registry[i].id in store.envs
  }

  ghost predicate Invariant(store: Store) {
    DistinctIds(store.registry) && DistinctPorts(store.registry) && EnvOfEach(store)
  }

  /** The version that is read from the environment file is the one in the registry. */
  predicate Agree(layout: Layout, store: Store, id: string) {
    FindInstance(store.registry, id).Some? && id in store.envs ==>
      VersionRead(layout, store.envs[id]) == FindInstance(store.registry, id).value.version
  }

  predicate LeavesHalfWritten(layout: Layout, store: Store, op: Operation, id: string) {
    && (op.Edit? || op.Update?) && op.id == id
    && Apply(layout, store, op).1 in {EnvNotRestored, StoresNotRestored}
  }

  /** An operation for which a restoration fails, somewhere in the sequence. */
  predicate RestorationFails(layout: Layout, store: Store, ops: seq<Operation>, id: string)
    decreases |ops|
  {
    ops != [] &&
    (LeavesHalfWritten(layout, store, ops[0], id) || RestorationFails(layout, Apply(layout, store, ops[0]).0, ops[1..], id))
  }
}
