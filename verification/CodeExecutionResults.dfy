/** When each operation on a Code Execution instance succeeds, what each error means, and what is left behind. */
module CodeExecutionResults {
  import opened JsStrings
  import opened CodeExecutionEnv
  import opened CodeExecution
  import opened CodeExecutionProofs

  // ------------------------------------------------------------ stores

  /** The registry with every entry of an ID overwritten. */
  ghost predicate Overwrites(before: Registry, after: Registry, id: string, instance: Instance) {
    && |after| == |before|
    && forall i :: 0 <= i < |before| ==> after[i] == if before[i].id == id then instance else before[i]
  }

  function EnvOf(store: Store, id: string): Option<string> {
    if id in store.envs then Some(store.envs[id]) else None
  }

  ghost predicate OtherEnvsStay(before: Store, after: Store, id: string) {
    forall other :: other != id ==> EnvOf(after, other) == EnvOf(before, other)
  }

  /** The environment file that is written for an entry, with the secret of the file before it. */
  function Rewritten(layout: Layout, store: Store, instance: Instance): string
    requires instance.id in store.envs
  {
    Serialize(layout, instance, Secret(layout, store.envs[instance.id]))
  }

  /** The entry is known, and its file exists and holds a secret. */
  predicate Readable(layout: Layout, store: Store, id: string) {
    FindInstance(store.registry, id).Some? && id in store.envs && Secret(layout, store.envs[id]) != []
  }

  lemma FoundHasId(registry: Registry, id: string)
    ensures FindInstance(registry, id).Some? ==> FindInstance(registry, id).value.id == id
  {
    FindIsFirst(registry, id);
  }

  // ------------------------------------------------------------ update

  /** There is something to update, and everything is there to do it. */
  predicate Outdated(layout: Layout, store: Store, id: string, o: UpdateOutcomes) {
    && Readable(layout, store, id) && Latest(o).Some?
    && FindInstance(store.registry, id).value.version != Latest(o).value
  }

  /** What each result of an update means, in terms of the steps that were reached. */
  lemma UpdateResults(layout: Layout, store: Store, id: string, o: UpdateOutcomes)
    ensures var result, begins := Updated(layout, store, id, o).1, Outdated(layout, store, id, o);
            var current := FindInstance(store.registry, id).Some? && Latest(o).Some?
                           && FindInstance(store.registry, id).value.version == Latest(o).value;
            var replaced := begins && o.envWritten && o.registryWritten;
            var back := o.envRestored && o.registryRestored;
            && (result == Rejected <==> !begins && !current)
            && (result == Done <==> current || (replaced && o.started))
            && (result == EnvNotWritten <==> begins && !o.envWritten)
            && (result == RegistryNotWritten <==> begins && o.envWritten && !o.registryWritten && o.envRestored)
            && (result == EnvNotRestored <==> begins && o.envWritten && !o.registryWritten && !o.envRestored)
            && (result == StoresNotRestored <==> replaced && !o.started && !back)
            && (result == RolledBack <==> replaced && !o.started && back && o.restarted)
            && (result == NotRestarted <==> replaced && !o.started && back && !o.restarted)
  {
    hide FindInstance, Secret, Serialize, Latest;
  }

  /** What each result of an update leaves: the new entry and its file, the old ones, or as much as could be restored. */
  lemma UpdateStores(layout: Layout, store: Store, id: string, o: UpdateOutcomes)
    requires Outdated(layout, store, id, o)
    ensures var (after, result) := Updated(layout, store, id, o);
            var previous := FindInstance(store.registry, id).value;
            var updated := previous.(version := Latest(o).value, updatedAt := o.now);
            && updated.id == id && OtherEnvsStay(store, after, id)
            && (result in {Done, EnvNotRestored} || (result == StoresNotRestored && !o.envRestored) ==>
                EnvOf(after, id) == Some(Rewritten(layout, store, updated)))
            && ((result in {EnvNotWritten, RegistryNotWritten, RolledBack, NotRestarted}
                 || (result == StoresNotRestored && o.envRestored)) ==> EnvOf(after, id) == EnvOf(store, id))
            && (result in {Done, StoresNotRestored} ==> Overwrites(store.registry, after.registry, id, updated))
            && (result in {EnvNotWritten, RegistryNotWritten, EnvNotRestored} ==> after.registry == store.registry)
            && (result in {RolledBack, NotRestarted} ==> Overwrites(store.registry, after.registry, id, previous))
  {
    FoundHasId(store.registry, id);
    hide FindInstance, Secret, Serialize, Latest;
  }

  // ------------------------------------------------------------ create

  ghost predicate FreePort(registry: Registry, available: int -> bool, port: int) {
    available(port) && forall i :: 0 <= i < |registry| ==> registry[i].port != port
  }

  /** The port of a new instance: the wanted one, or the least free one from 8000 to 8999. */
  ghost predicate IsNewPort(registry: Registry, c: Creation, port: int) {
    && FreePort(registry, c.available, port)
    && if c.wanted.port != 0 then port == c.wanted.port
       else 8000 <= port < 9000 && forall lower :: 8000 <= lower < port ==> !FreePort(registry, c.available, lower)
  }

  /** The entry as it is added: defaults take the place of limits that are not positive. */
  function Entry(c: Creation, port: int): Instance {
    c.wanted.(
      id := c.id, port := port,
      maxConcurrent := if c.wanted.maxConcurrent < 1 then 10 else c.wanted.maxConcurrent,
      sessionTimeout := if c.wanted.sessionTimeout < 1 then 1200 else c.wanted.sessionTimeout)
  }

  ghost predicate EntryAllowed(registry: Registry, c: Creation) {
    && c.nameAccepted && SemanticVersion(c.wanted.version)
    && c.wanted.memory in {"256m", "512m", "1g", "2g", "4g", "8g"}
    && c.wanted.maxConcurrent <= 100 && (c.wanted.sessionTimeout < 1 || 60 <= c.wanted.sessionTimeout <= 24 * 60 * 60)
    && forall i :: 0 <= i < |registry| ==> registry[i].id != c.id
  }

  lemma NewPortExactly(registry: Registry, c: Creation, port: int)
    ensures CreatedPort(registry, c) == Some(port) <==> IsNewPort(registry, c, port)
  {
    NextPortIsLeast(registry, c.available, 8000);
    hide NextPort;
    assert forall p :: FreePort(registry, c.available, p) <==> !PortUsed(registry, p) && c.available(p);
  }

  /** The entry that is added, if there is one. */
  ghost predicate Adds(store: Store, c: Creation, instance: Instance) {
    EntryAllowed(store.registry, c) && IsNewPort(store.registry, c, instance.port) && instance == Entry(c, instance.port)
  }

  /** When a creation is refused, fails or succeeds. */
  lemma CreateResults(layout: Layout, store: Store, c: Creation)
    ensures var (after, result) := Created(layout, store, c);
            var allowed := exists instance :: Adds(store, c, instance);
            && (result == Rejected <==> !allowed) && (result == Rejected ==> after == store)
            && (result == EnvNotWritten <==> allowed && !(c.prepared && c.envWritten))
            && (result == RegistryNotWritten <==> allowed && c.prepared && c.envWritten && !c.registryWritten)
            && (result == Done <==> allowed && c.prepared && c.envWritten && c.registryWritten)
  {
    AddsExactly(store, c);
    AllowedExactly(store.registry, c);
    hide CreatedPort, Adds, EntryAllowed, SemanticVersion, FindInstance, Serialize;
  }

  /** The entry is added behind the others, with a file of its own; a failure removes the new file again. */
  lemma CreateStores(layout: Layout, store: Store, c: Creation, added: Instance)
    requires Adds(store, c, added)
    ensures var (after, result) := Created(layout, store, c);
            && OtherEnvsStay(store, after, c.id)
            && (result == Done ==>
                after.registry == store.registry + [added] && EnvOf(after, c.id) == Some(Serialize(layout, added, c.secret)))
            && (result != Done ==> after.registry == store.registry && EnvOf(after, c.id) == None)
  {
    NewPortExactly(store.registry, c, added.port);
    AllowedExactly(store.registry, c);
    hide CreatedPort, EntryAllowed, IsNewPort, SemanticVersion, FindInstance, Serialize;
  }

  /** An entry is added if and only if there is a port for it and everything else is allowed. */
  lemma AddsExactly(store: Store, c: Creation)
    ensures (exists instance :: Adds(store, c, instance)) <==>
            CreatedPort(store.registry, c).Some? && EntryAllowed(store.registry, c)
  {
    var port := CreatedPort(store.registry, c);
    hide CreatedPort, IsNewPort, EntryAllowed;
    forall p
      ensures port == Some(p) <==> IsNewPort(store.registry, c, p)
    {
      NewPortExactly(store.registry, c, p);
    }
    if port.Some? && EntryAllowed(store.registry, c) {
      assert Adds(store, c, Entry(c, port.value));
    }
  }

  lemma UnknownId(registry: Registry, id: string)
    ensures FindInstance(registry, id).None? <==> forall i :: 0 <= i < |registry| ==> registry[i].id != id
  {
    FindIsFirst(registry, id);
  }

  lemma AllowedExactly(registry: Registry, c: Creation)
    ensures EntryAllowed(registry, c) <==>
              && c.nameAccepted && SemanticVersion(c.wanted.version) && c.wanted.memory in MEMORY_LIMITS
              && LimitsAllowed(FirstPositive(c.wanted.maxConcurrent, 10), FirstPositive(c.wanted.sessionTimeout, 1200))
              && FindInstance(registry, c.id).None?
  {
    hide SemanticVersion, FindInstance;
    UnknownId(registry, c.id);
  }

  // ------------------------------------------------------------ edit

  /** What is given is allowed; concurrency is checked with the session timeout there is. */
  ghost predicate EditAllowed(registry: Registry, instance: Instance, c: Changes, o: EditOutcomes) {
    && (c.name == None || o.nameAccepted)
    && (c.version == None || SemanticVersion(c.version.value))
    && (c.port == None || c.port.value == instance.port
        || (o.available(c.port.value)
            && forall i :: 0 <= i < |registry| && registry[i].port == c.port.value ==> registry[i].id == instance.id))
    && (c.memory == None || c.memory.value in {"256m", "512m", "1g", "2g", "4g", "8g"})
    && (c.maxConcurrent == None
        || (1 <= c.maxConcurrent.value <= 100 && 60 <= instance.sessionTimeout <= 24 * 60 * 60))
    && (c.sessionTimeout == None
        || (60 <= c.sessionTimeout.value <= 24 * 60 * 60
            && 1 <= (if c.maxConcurrent == None then instance.maxConcurrent else c.maxConcurrent.value) <= 100))
  }

  lemma EditAllowedExactly(registry: Registry, instance: Instance, c: Changes, o: EditOutcomes)
    ensures ChangesAllowed(registry, instance, c, o) <==> EditAllowed(registry, instance, c, o)
  {
    hide SemanticVersion;
    if c.port.Some? {
      assert PortUsedExcept(registry, c.port.value, instance.id) <==>
             exists i :: 0 <= i < |registry| && registry[i].id != instance.id && registry[i].port == c.port.value;
    }
  }

  /** Every given field is taken over, every other one is kept. */
  lemma EditedFields(instance: Instance, c: Changes, now: string)
    ensures var e := Changed(instance, c, now);
            && e.id == instance.id && e.updatedAt == now
            && (c.name != Some(e.name) ==> c.name == None && e.name == instance.name)
            && (c.version != Some(e.version) ==> c.version == None && e.version == instance.version)
            && (c.port != Some(e.port) ==> c.port == None && e.port == instance.port)
            && (c.memory != Some(e.memory) ==> c.memory == None && e.memory == instance.memory)
            && (c.maxConcurrent != Some(e.maxConcurrent) ==>
                c.maxConcurrent == None && e.maxConcurrent == instance.maxConcurrent)
            && (c.sessionTimeout != Some(e.sessionTimeout) ==>
                c.sessionTimeout == None && e.sessionTimeout == instance.sessionTimeout)
            && (c.networkAccess != Some(e.networkAccess) ==>
                c.networkAccess == None && e.networkAccess == instance.networkAccess)
            && (c.allowPip != Some(e.allowPip) ==> c.allowPip == None && e.allowPip == instance.allowPip)
  {}

  /** The entry can be read, and the changes to it are allowed. */
  ghost predicate Editable(layout: Layout, store: Store, id: string, c: Changes, o: EditOutcomes) {
    Readable(layout, store, id) && EditAllowed(store.registry, FindInstance(store.registry, id).value, c, o)
  }

  lemma EditableExactly(layout: Layout, store: Store, id: string, c: Changes, o: EditOutcomes)
    ensures Editable(layout, store, id, c, o) <==>
            Readable(layout, store, id) && ChangesAllowed(store.registry, FindInstance(store.registry, id).value, c, o)
  {
    hide FindInstance, Readable, ChangesAllowed, EditAllowed;
    FoundIsKnown(layout, store, id);
    if FindInstance(store.registry, id).Some? {
      EditAllowedExactly(store.registry, FindInstance(store.registry, id).value, c, o);
    }
  }

  lemma FoundIsKnown(layout: Layout, store: Store, id: string)
    ensures Readable(layout, store, id) ==> FindInstance(store.registry, id).Some?
  {}

  /** What each result of an edit means. */
  lemma EditResults(layout: Layout, store: Store, id: string, c: Changes, o: EditOutcomes)
    ensures var result, begins := Edited(layout, store, id, c, o).1, Editable(layout, store, id, c, o);
            var written := begins && o.envWritten;
            && (result == Rejected <==> !begins)
            && (result == EnvNotWritten <==> begins && !o.envWritten)
            && (result == RegistryNotWritten <==> written && !o.registryWritten && o.envRestored)
            && (result == EnvNotRestored <==> written && !o.registryWritten && !o.envRestored)
            && (result == NotStarted <==> written && o.registryWritten && o.wasRunning && !o.started)
            && (result == Done <==> written && o.registryWritten && (o.wasRunning ==> o.started))
  {
    EditableExactly(layout, store, id, c, o);
    hide FindInstance, Secret, Serialize, ChangesAllowed, Editable, Changed, Replace;
  }

  /** What each result of an edit leaves: the stores as they were, or the changed entry and its file. */
  lemma EditStores(layout: Layout, store: Store, id: string, c: Changes, o: EditOutcomes)
    ensures var (after, result) := Edited(layout, store, id, c, o);
            && (result in {Rejected, EnvNotWritten, RegistryNotWritten} ==> after == store)
            && (result in {EnvNotRestored, NotStarted, Done} ==>
                && Readable(layout, store, id)
                && var edited := Changed(FindInstance(store.registry, id).value, c, o.now);
                && edited.id == id && EnvOf(after, id) == Some(Rewritten(layout, store, edited))
                && OtherEnvsStay(store, after, id)
                && if result == EnvNotRestored then after.registry == store.registry
                   else Overwrites(store.registry, after.registry, id, edited))
  {
    FoundHasId(store.registry, id);
    hide FindInstance, Secret, Serialize, ChangesAllowed;
  }

  // ------------------------------------------------------------ delete

  /** What each result of a deletion means, and what it leaves. */
  lemma DeleteResults(store: Store, id: string, o: DeleteOutcomes)
    ensures var (after, result) := Deleted(store, id, o);
            var begins := o.confirm == id && o.composeDown && exists i :: 0 <= i < |store.registry| && store.registry[i].id == id;
            && (result == Rejected <==> !begins)
            && (result == RegistryNotWritten <==> begins && !o.registryWritten)
            && (result == HomeNotRemoved <==> begins && o.registryWritten && !o.homeRemoved)
            && (result == Done <==> begins && o.registryWritten && o.homeRemoved)
            && (result in {Rejected, RegistryNotWritten} ==> after == store)
            && (result in {HomeNotRemoved, Done} ==>
                && after.registry == Without(store.registry, id) && OtherEnvsStay(store, after, id)
                && EnvOf(after, id) == if result == Done then None else EnvOf(store, id))
  {
    UnknownId(store.registry, id);
    hide FindInstance, Without;
  }

  lemma WithoutFirst(first: Instance, rest: Registry, id: string)
    ensures Without([first] + rest, id) == if first.id == id then Without(rest, id) else [first] + Without(rest, id)
  {
    assert ([first] + rest)[1..] == rest;
    assert [] + Without(rest, id) == Without(rest, id);
  }

  lemma NothingWithout(id: string)
    ensures Without([], id) == []
  {}

  /** The removal of an ID goes entry by entry, and keeps the others in their order. */
  lemma {:induction false} WithoutConcat(a: Registry, b: Registry, id: string)
    ensures Without(a + b, id) == Without(a, id) + Without(b, id)
    decreases |a|
  {
    hide Without;
    if a == [] {
      assert a + b == b;
      assert Without([], id) == [] by { NothingWithout(id); }
    } else {
      var first, rest := a[0], a[1..];
      assert a == [first] + rest && a + b == [first] + (rest + b);
      WithoutFirst(first, rest, id);
      WithoutFirst(first, rest + b, id);
      WithoutConcat(rest, b, id);
      Associates([first], Without(rest, id), Without(b, id));
    }
  }

  lemma Associates(a: Registry, b: Registry, c: Registry)
    ensures a + (b + c) == (a + b) + c
  {}

  lemma WithoutOne(instance: Instance, id: string)
    ensures Without([instance], id) == if instance.id == id then [] else [instance]
  {
    assert [instance][1..] == [];
  }
}
