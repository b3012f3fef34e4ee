/** What the operations on Code Execution instances keep, under every pattern of failures. */
module CodeExecutionProofs {
  import opened JsStrings
  import opened GoDotenv
  import opened GoDotenvProofs
  import opened CodeExecutionEnv
  import opened CodeExecution

  // ------------------------------------------------------------ the registry

  lemma {:induction false} FindIsFirst(registry: Registry, id: string)
    ensures match FindInstance(registry, id)
            case None => forall i :: 0 <= i < |registry| ==> registry[i].id != id
            case Some(instance) =>
              exists i :: 0 <= i < |registry| && registry[i] == instance && instance.id == id
    decreases |registry|
  {
    if registry != [] && registry[0].id != id {
      FindIsFirst(registry[1..], id);
      if FindInstance(registry, id).Some? {
        var i :| 0 <= i < |registry[1..]| && registry[1..][i] == FindInstance(registry, id).value;
        assert registry[i + 1] == registry[1..][i];
      } else {
        assert forall i :: 1 <= i < |registry| ==> registry[i] == registry[1..][i - 1];
      }
    }
  }

  lemma {:induction false} FindReplaced(registry: Registry, id: string, instance: Instance, other: string)
    requires instance.id == id
    ensures FindInstance(Replace(registry, id, instance), other)
         == if other == id && FindInstance(registry, id).Some? then Some(instance) else FindInstance(registry, other)
    decreases |registry|
  {
    if registry != [] {
      FindReplaced(registry[1..], id, instance, other);
      assert Replace(registry, id, instance)[1..] == Replace(registry[1..], id, instance);
    }
  }

  lemma {:induction false} FindWithout(registry: Registry, id: string, other: string)
    ensures FindInstance(Without(registry, id), other) == if other == id then None else FindInstance(registry, other)
    decreases |registry|
  {
    if registry != [] {
      FindWithout(registry[1..], id, other);
      var rest := Without(registry[1..], id);
      assert [] + rest == rest && ([registry[0]] + rest)[1..] == rest;
    }
  }

  lemma {:induction false} FindAppended(registry: Registry, instance: Instance, other: string)
    ensures FindInstance(registry + [instance], other)
         == if FindInstance(registry, other).Some? then FindInstance(registry, other)
            else if instance.id == other then Some(instance) else None
    decreases |registry|
  {
    if registry != [] {
      assert (registry + [instance])[1..] == registry[1..] + [instance];
      FindAppended(registry[1..], instance, other);
    } else {
      assert registry + [instance] == [instance] && [instance][1..] == [];
    }
  }

  // ------------------------------------------------------------ one update

  /** The entry an update writes. */
  function Target(store: Store, id: string, o: UpdateOutcomes): Option<Instance> {
    var found := FindInstance(store.registry, id);
    if found.Some? && Latest(o).Some? then Some(found.value.(version := Latest(o).value, updatedAt := o.now)) else None
  }

  lemma NilWrites(layout: Layout, store: Store, id: string, o: UpdateOutcomes)
    requires Updated(layout, store, id, o).1 == Done
    ensures var after := Updated(layout, store, id, o).0;
            && Target(store, id, o).Some? && FindInstance(after.registry, id).Some?
            && FindInstance(after.registry, id).value.version == Latest(o).value
            && if FindInstance(store.registry, id).value.version == Latest(o).value then after == store
               else
                 && id in store.envs && id in after.envs && FindInstance(after.registry, id) == Target(store, id, o)
                 && after.envs[id] == Serialize(layout, Target(store, id, o).value, Secret(layout, store.envs[id]))
  {
    hide Serialize, Secret, SemanticVersion;
    var found := FindInstance(store.registry, id);
    FindIsFirst(store.registry, id);
    if found.value.version != Latest(o).value {
      FindReplaced(store.registry, id, Target(store, id, o).value, id);
    }
    hide FindInstance, Replace;
  }

  lemma LatestIsSemantic(o: UpdateOutcomes)
    ensures Latest(o).Some? ==> o.latest == Latest(o) && SemanticVersion(Latest(o).value)
  {
    hide SemanticVersion;
  }

  /**
   A nil result leaves the registry at the latest version. If it was not there
   before, the version read from the file is the latest one too, if and only if
   no line feed in the entry's id or memory starts a line that assigns another
   version.
   */
  lemma NilIsLatest(layout: Layout, store: Store, id: string, o: UpdateOutcomes)
    requires Fits(layout) && Updated(layout, store, id, o).1 == Done
    ensures var after := Updated(layout, store, id, o).0;
            && o.latest.Some? && FindInstance(after.registry, id).Some?
            && FindInstance(after.registry, id).value.version == o.latest.value
            && Target(store, id, o).Some?
            && if FindInstance(store.registry, id).value.version == o.latest.value then after == store
               else
                 && id in after.envs
                 && (VersionRead(layout, after.envs[id]) == o.latest.value
                     <==> ForeignVersion(layout, Target(store, id, o).value) in {None, o.latest})
  {
    hide Updated, Fits, Serialize, Secret, FindInstance, VersionRead, ForeignVersion, Held, SemanticVersion, Latest;
    NilWrites(layout, store, id, o);
    LatestIsSemantic(o);
    SemanticVersionIsHeld(o.latest.value);
    var target := Target(store, id, o).value;
    if FindInstance(store.registry, id).value.version != o.latest.value {
      VersionReadsBack(layout, target, Secret(layout, store.envs[id]));
    }
  }

  /** Every entry with the ID is the one that is found. */
  ghost predicate OneEntry(registry: Registry, id: string) {
    forall i :: 0 <= i < |registry| && registry[i].id == id ==> Some(registry[i]) == FindInstance(registry, id)
  }

  /** Putting the found instance back undoes a replacement if and only if every entry with the ID is that instance. */
  lemma ReplaceBackExactly(registry: Registry, id: string, instance: Instance)
    requires FindInstance(registry, id).Some? && instance.id == id
    ensures Replace(Replace(registry, id, instance), id, FindInstance(registry, id).value) == registry
       <==> OneEntry(registry, id)
  {
    hide FindInstance;
    var back := Replace(Replace(registry, id, instance), id, FindInstance(registry, id).value);
    forall i | 0 <= i < |registry|
      ensures back[i] == if registry[i].id == id then FindInstance(registry, id).value else registry[i]
    {}
  }

  /**
   Every error but a failed restoration leaves the files as they were, and the
   registry too, unless it ends in a rollback of an ID that other entries share
   with different contents: the rollback overwrites them all.
   */
  lemma FailureRestores(layout: Layout, store: Store, id: string, o: UpdateOutcomes)
    requires var r := Updated(layout, store, id, o).1; r != Done && r != EnvNotRestored && r != StoresNotRestored
    ensures var (after, r) := Updated(layout, store, id, o);
            && after.envs == store.envs
            && (after == store <==> (r in {RolledBack, NotRestarted} ==> OneEntry(store.registry, id)))
  {
    hide Serialize, Secret, Replace, Latest, OneEntry;
    var found := FindInstance(store.registry, id);
    if found.Some? && Latest(o).Some? {
      FindIsFirst(store.registry, id);
      var instance := found.value.(version := Latest(o).value, updatedAt := o.now);
      ReplaceBackExactly(store.registry, id, instance);
      if id in store.envs {
        PutBack(store, id, Serialize(layout, instance, Secret(layout, store.envs[id])));
      }
    }
    hide FindInstance;
  }

  /** With distinct IDs nothing but a failed restoration changes anything. */
  lemma DistinctIdsAreOneEntry(registry: Registry, id: string)
    requires DistinctIds(registry)
    ensures OneEntry(registry, id)
  {
    FindIsFirst(registry, id);
    hide FindInstance;
  }

  /** Two entries with one ID: the rollback replaces the second by the first. */
  lemma RollbackOverwritesTwin(layout: Layout, first: Instance, second: Instance, env: string, o: UpdateOutcomes)
    requires first.id == second.id && first != second && Secret(layout, env) != []
    requires Latest(o).Some? && first.version != Latest(o).value
    requires o.envWritten && o.registryWritten && !o.started && o.envRestored && o.registryRestored
    ensures var (after, r) := Updated(layout, Store([first, second], map[first.id := env]), first.id, o);
            r in {RolledBack, NotRestarted} && after.registry == [first, first] && after.envs == map[first.id := env]
  {
    hide Serialize, Secret, Latest;
  }

  /** Whatever fails, other instances keep their entries, their places and their files. */
  lemma OthersAreUntouched(layout: Layout, store: Store, id: string, o: UpdateOutcomes)
    ensures var after := Updated(layout, store, id, o).0;
            && after.envs.Keys == store.envs.Keys
            && (forall other :: other in store.envs && other != id ==> after.envs[other] == store.envs[other])
            && |after.registry| == |store.registry|
            && (forall i :: 0 <= i < |store.registry| && store.registry[i].id != id ==> after.registry[i] == store.registry[i])
            && (forall i :: 0 <= i < |store.registry| ==> after.registry[i].id == store.registry[i].id)
  {
    hide Serialize, Secret, Latest;
    FindIsFirst(store.registry, id);
    hide FindInstance;
  }

  // ------------------------------------------------------------ the API key

  /** The update gets as far as writing the environment file. */
  predicate Writes(layout: Layout, store: Store, id: string, o: UpdateOutcomes) {
    && Target(store, id, o).Some? && FindInstance(store.registry, id).value.version != Latest(o).value
    && id in store.envs && Secret(layout, store.envs[id]) != [] && o.envWritten
  }

  /** A later step fails, and the original file is put back. */
  predicate PutsBack(o: UpdateOutcomes) {
    !(o.registryWritten && o.started) && o.envRestored
  }

  lemma EnvAfter(layout: Layout, store: Store, id: string, o: UpdateOutcomes)
    requires id in store.envs
    ensures var after := Updated(layout, store, id, o).0;
            id in after.envs &&
            after.envs[id]
            == if Writes(layout, store, id, o) && !PutsBack(o)
               then Serialize(layout, Target(store, id, o).value, Secret(layout, store.envs[id]))
               else store.envs[id]
  {
    hide Serialize, Secret, FindInstance, Replace, Latest;
  }

  /**
   The API key is the same after the update if and only if the file was not
   written, or was put back, or the key is kept: when a line can hold it,
   unless a line feed in the entry's id or memory starts a line that assigns
   another key.
   */
  lemma ApiKeyIsKept(layout: Layout, store: Store, id: string, o: UpdateOutcomes)
    requires Fits(layout) && id in store.envs
    ensures var key, after := Secret(layout, store.envs[id]), Updated(layout, store, id, o).0;
            id in after.envs &&
            (Secret(layout, after.envs[id]) == key <==>
              !Writes(layout, store, id, o) || PutsBack(o) || KeepsKey(layout, Target(store, id, o).value, key))
  {
    hide Updated, Fits, Serialize, Secret, KeepsKey, Target, FindInstance, Latest;
    EnvAfter(layout, store, id, o);
    if Target(store, id, o).Some? {
      SecretReadsBack(layout, Target(store, id, o).value, Secret(layout, store.envs[id]));
    }
  }

  /** The condition for an entry without line feeds is that a line can hold the key. */
  lemma ApiKeyOfSoundEntry(layout: Layout, store: Store, id: string, o: UpdateOutcomes)
    requires Target(store, id, o).Some? && Sound(Target(store, id, o).value) && id in store.envs
    ensures var key := Secret(layout, store.envs[id]);
            KeepsKey(layout, Target(store, id, o).value, key) <==> Survives(key)
  {
    hide Secret, KeepsKey, Survives, Target, Held;
    SoundReadsBack(layout, Target(store, id, o).value);
  }

  // ------------------------------------------------------------ keys that are lost

  /** The line of a key in single quotes, which the reader takes off and the writer does not put back. */
  function SingleQuoted(secret: string): string {
    API_KEYS + (['='] + (['\''] + ((LAUNCHER + secret) + ['\''])))
  }

  /** The secret ends with a blank that the writer does not quote: neither a space nor a tab. */
  predicate EndsInOtherBlank(secret: string) {
    && secret != [] && IsGoSpace(secret[|secret| - 1])
    && forall c :: c in secret ==> c != ' ' && c != '\t' && c != '#' && c != '"' && c != '\'' && c != '\n'
  }

  lemma {:induction false} NoHashNoComment(done: string, rest: string, quote: Option<char>, escaped: bool)
    requires '#' !in rest
    ensures StripComment(done, rest, quote, escaped) == done + rest
    decreases |rest|
  {
    if rest == [] {
      assert done + rest == done;
    } else {
      assert rest[0] in rest;
      var next := done + [rest[0]];
      NoHashNoComment(next, rest[1..], None, false);
      NoHashNoComment(next, rest[1..], Some(rest[0]), false);
      NoHashNoComment(next, rest[1..], quote, false);
      NoHashNoComment(next, rest[1..], quote, true);
      assert next + rest[1..] == done + rest;
    }
  }

  lemma QuoteIsNoBlank()
    ensures !IsGoSpace('\'')
  {}

  lemma SingleQuotedValue(q: Quoting, inner: string)
    requires '#' !in inner
    ensures var x := ['\''] + (inner + ['\'']);
            UnquoteEnv(q, TrimSpace(StripInlineComment(TrimRight(x)))) == inner
  {
    hide IsGoSpace;
    var x := ['\''] + (inner + ['\'']);
    QuoteIsNoBlank();
    assert x[|x| - 1] == '\'';
    NothingOnRight(x);
    NoHashNoComment([], x, None, false);
    assert [] + x == x;
    TrimSpaceIdentity(x);
    assert x[1..|x| - 1] == inner;
  }

  lemma LauncherIsPlain()
    ensures forall c :: c in LAUNCHER ==> c != ' ' && c != '\t' && c != '#' && c != '"' && c != '\'' && c != '\n'
    ensures '\n' !in API_KEYS
  {}

  /** What is read from the line in single quotes. */
  lemma SingleQuotedReads(layout: Layout, secret: string)
    requires EndsInOtherBlank(secret)
    ensures Secret(layout, SingleQuoted(secret)) == secret
  {
    hide API_KEYS, LAUNCHER, IsGoSpace, ParseLine, KeyIn, UnquoteEnv, StripInlineComment, TrimRight, TrimSpace, IsKey;
    var inner, q := LAUNCHER + secret, layout.q;
    var line := SingleQuoted(secret);
    KeyShape();
    LauncherIsPlain();
    assert '\n' !in line;
    SplitOne(line);
    SingleQuotedValue(q, inner);
    EntryParses(q, API_KEYS, ['\''] + (inner + ['\'']));
    KeyInLauncher(secret);
    assert ParseLines(q, map[], [line]) == Put(q, map[], line) by { assert [line][1..] == []; }
  }

  lemma OtherBlankIsLost(secret: string)
    requires EndsInOtherBlank(secret)
    ensures !Survives(secret)
  {
    hide LAUNCHER, IsGoSpace;
    LauncherIsPlain();
  }

  /** Such a key, for instance one that ends with U+00A0, is read before an update and gone after it. */
  lemma SingleQuotedKeyIsLost(layout: Layout, store: Store, id: string, o: UpdateOutcomes, secret: string)
    requires Fits(layout) && EndsInOtherBlank(secret) && id in store.envs && store.envs[id] == SingleQuoted(secret)
    requires Target(store, id, o).Some? && Sound(Target(store, id, o).value)
    requires FindInstance(store.registry, id).value.version != Target(store, id, o).value.version
    requires o.envWritten && o.registryWritten && o.started
    ensures Updated(layout, store, id, o).1 == Done && Secret(layout, store.envs[id]) == secret
    ensures var after := Updated(layout, store, id, o).0; id in after.envs && Secret(layout, after.envs[id]) != secret
  {
    hide Fits, Serialize, Secret, KeepsKey, FindInstance, Replace, Sound, EndsInOtherBlank, SingleQuoted, Survives;
    SingleQuotedReads(layout, secret);
    OtherBlankIsLost(secret);
    SecretReadsBack(layout, Target(store, id, o).value, secret);
    ApiKeyOfSoundEntry(layout, store, id, o);
    assert secret != [] by { BlankIsSomething(secret); }
  }

  lemma BlankIsSomething(secret: string)
    requires EndsInOtherBlank(secret)
    ensures secret != []
  {}

  // ------------------------------------------------------------ every operation

  lemma {:induction false} WithoutKeeps(registry: Registry, id: string)
    ensures forall instance :: instance in Without(registry, id) <==> instance in registry && instance.id != id
    decreases |registry|
  {
    if registry != [] {
      WithoutKeeps(registry[1..], id);
      assert registry == [registry[0]] + registry[1..];
    }
  }

  lemma ConsIsDistinct(first: Instance, rest: Registry)
    requires DistinctIds(rest) && DistinctPorts(rest)
    requires forall other :: other in rest ==> other.id != first.id && other.port != first.port
    ensures DistinctIds([first] + rest) && DistinctPorts([first] + rest)
  {
    assert forall i :: 1 <= i < |[first] + rest| ==> ([first] + rest)[i] == rest[i - 1];
  }

  lemma TailIsDistinct(registry: Registry)
    requires DistinctIds(registry) && DistinctPorts(registry) && registry != []
    ensures DistinctIds(registry[1..]) && DistinctPorts(registry[1..])
    ensures forall other :: other in registry[1..] ==> other.id != registry[0].id && other.port != registry[0].port
  {}

  lemma {:induction false} WithoutKeepsDistinct(registry: Registry, id: string)
    requires DistinctIds(registry) && DistinctPorts(registry)
    ensures DistinctIds(Without(registry, id)) && DistinctPorts(Without(registry, id))
    decreases |registry|
  {
    hide DistinctIds, DistinctPorts;
    if registry == [] {
      assert Without(registry, id) == registry;
    } else {
      var first, rest := registry[0], registry[1..];
      TailIsDistinct(registry);
      WithoutKeepsDistinct(rest, id);
      WithoutKeeps(rest, id);
      if first.id != id {
        ConsIsDistinct(first, Without(rest, id));
      } else {
        assert [] + Without(rest, id) == Without(rest, id);
      }
    }
  }

  lemma ReplaceKeepsInvariant(store: Store, id: string, instance: Instance, env: string)
    requires Invariant(store) && instance.id == id && id in store.envs
    requires !PortUsedExcept(store.registry, instance.port, id)
    ensures Invariant(PutEnv(store, id, env).(registry := Replace(store.registry, id, instance)))
  {}

  lemma PutKeepsInvariant(store: Store, id: string, env: string)
    requires Invariant(store)
    ensures Invariant(PutEnv(store, id, env))
  {}

  lemma OwnPortIsFree(registry: Registry, id: string)
    requires DistinctPorts(registry) && FindInstance(registry, id).Some?
    ensures !PortUsedExcept(registry, FindInstance(registry, id).value.port, id)
    ensures FindInstance(registry, id).value.id == id
  {
    FindIsFirst(registry, id);
    hide FindInstance;
  }

  lemma UpdateKeepsInvariant(layout: Layout, store: Store, id: string, o: UpdateOutcomes)
    requires Invariant(store)
    ensures Invariant(Updated(layout, store, id, o).0)
  {
    hide Serialize, Secret, Replace, FindInstance, Invariant, PortUsedExcept, PutEnv;
    var found := FindInstance(store.registry, id);
    if found.Some? && Latest(o).Some? && id in store.envs {
      var instance := found.value.(version := Latest(o).value, updatedAt := o.now);
      var env := Serialize(layout, instance, Secret(layout, store.envs[id]));
      assert DistinctIds(store.registry) && DistinctPorts(store.registry) by { InvariantParts(store); }
      OwnPortIsFree(store.registry, id);
      PutKeepsInvariant(store, id, env);
      ReplaceKeepsInvariant(store, id, instance, env);
      var updated := PutEnv(store, id, env).(registry := Replace(store.registry, id, instance));
      PutKeepsInvariant(updated, id, store.envs[id]);
      DistinctIdsAreOneEntry(store.registry, id);
      ReplaceBackExactly(store.registry, id, instance);
      PutTwice(store, id, env, instance);
    }
  }

  lemma InvariantParts(store: Store)
    requires Invariant(store)
    ensures DistinctIds(store.registry) && DistinctPorts(store.registry) && EnvOfEach(store)
  {}

  lemma PutTwice(store: Store, id: string, env: string, instance: Instance)
    requires id in store.envs
    ensures PutEnv(PutEnv(store, id, env).(registry := Replace(store.registry, id, instance)), id, store.envs[id])
         == store.(registry := Replace(store.registry, id, instance))
  {
    hide Replace;
    PutBack(store, id, env);
  }

  lemma EditKeepsInvariant(layout: Layout, store: Store, id: string, c: Changes, o: EditOutcomes)
    requires Invariant(store)
    ensures Invariant(Edited(layout, store, id, c, o).0)
  {
    hide Serialize, Secret, Replace, FindInstance, Invariant, PortUsedExcept, PutEnv, LimitsAllowed, MEMORY_LIMITS;
    var found := FindInstance(store.registry, id);
    if found.Some? && ChangesAllowed(store.registry, found.value, c, o) && id in store.envs {
      var instance := Changed(found.value, c, o.now);
      var env := Serialize(layout, instance, Secret(layout, store.envs[id]));
      assert DistinctPorts(store.registry) by { InvariantParts(store); }
      OwnPortIsFree(store.registry, id);
      PutKeepsInvariant(store, id, env);
      ReplaceKeepsInvariant(store, id, instance, env);
    }
  }

  lemma CreateKeepsInvariant(layout: Layout, store: Store, c: Creation)
    requires Invariant(store)
    ensures Invariant(Created(layout, store, c).0)
  {
    hide Serialize, LimitsAllowed, MEMORY_LIMITS;
    FindIsFirst(store.registry, c.id);
    NextPortIsLeast(store.registry, c.available, 8000);
    hide FindInstance, NextPort;
  }

  lemma DeleteKeepsInvariant(store: Store, id: string, o: DeleteOutcomes)
    requires Invariant(store)
    ensures Invariant(Deleted(store, id, o).0)
  {
    WithoutKeeps(store.registry, id);
    WithoutKeepsDistinct(store.registry, id);
    hide FindInstance, Without;
    forall instance | instance in Without(store.registry, id)
      ensures instance.id in store.envs && instance.id != id
    {
      assert instance in store.registry;
    }
  }

  /** IDs and ports stay distinct and every registered instance keeps an environment file, whatever fails. */
  lemma {:induction false} OperationsKeepInvariant(layout: Layout, store: Store, ops: seq<Operation>)
    requires Invariant(store)
    ensures Invariant(ApplyAll(layout, store, ops))
    decreases |ops|
  {
    hide Updated, Edited, Created, Deleted, Invariant;
    if ops != [] {
      match ops[0] {
        case Create(c) => CreateKeepsInvariant(layout, store, c);
        case Edit(id, c, o) => EditKeepsInvariant(layout, store, id, c, o);
        case Delete(id, o) => DeleteKeepsInvariant(store, id, o);
        case Update(id, o) => UpdateKeepsInvariant(layout, store, id, o);
      }
      OperationsKeepInvariant(layout, Apply(layout, store, ops[0]).0, ops[1..]);
    }
  }

  // ------------------------------------------------------------ agreement of the two stores

  /** The entry, if there is one, breaks no line. */
  predicate SoundEntry(store: Store, id: string) {
    FindInstance(store.registry, id).Some? ==> Sound(FindInstance(store.registry, id).value)
  }

  lemma SoundVersion(layout: Layout, instance: Instance, secret: string)
    requires Fits(layout) && Sound(instance)
    ensures VersionRead(layout, Serialize(layout, instance, secret)) == instance.version
  {
    hide Fits, VersionRead, Serialize, KeepsVersion, KeepsKey, Held;
    VersionReadsBack(layout, instance, secret);
    SoundReadsBack(layout, instance);
  }

  lemma NewVersionIsSound(instance: Instance, version: string)
    requires Sound(instance) && SemanticVersion(version)
    ensures Sound(instance.(version := version))
  {
    hide SemanticVersion, Held;
    SemanticVersionIsHeld(version);
  }

  lemma TargetIsSound(store: Store, id: string, o: UpdateOutcomes)
    requires SoundEntry(store, id)
    ensures Target(store, id, o).Some? ==> Sound(Target(store, id, o).value)
  {
    hide FindInstance, SemanticVersion, Held, Latest;
    LatestIsSemantic(o);
    if Target(store, id, o).Some? {
      NewVersionIsSound(FindInstance(store.registry, id).value, Latest(o).value);
    }
  }

  lemma UpdateKeepsAgreement(layout: Layout, store: Store, id: string, o: UpdateOutcomes, other: string)
    requires Fits(layout) && DistinctIds(store.registry) && Agree(layout, store, other) && SoundEntry(store, other)
    requires var r := Updated(layout, store, id, o).1; other == id ==> r != EnvNotRestored && r != StoresNotRestored
    ensures Agree(layout, Updated(layout, store, id, o).0, other) && SoundEntry(Updated(layout, store, id, o).0, other)
  {
    hide Fits, Serialize, Secret, FindInstance, Replace, VersionRead, Sound, Latest;
    var found := FindInstance(store.registry, id);
    if Target(store, id, o).Some? {
      assert found.value.id == id by { FindIsFirst(store.registry, id); }
      var instance := Target(store, id, o).value;
      FindReplaced(store.registry, id, instance, other);
      FindReplaced(Replace(store.registry, id, instance), id, found.value, other);
      if other == id && id in store.envs {
        TargetIsSound(store, id, o);
        SoundVersion(layout, instance, Secret(layout, store.envs[id]));
        PutBack(store, id, Serialize(layout, instance, Secret(layout, store.envs[id])));
      }
    }
  }

  lemma MemoryIsOneLine(memory: string)
    requires memory in MEMORY_LIMITS
    ensures '\n' !in memory
  {}

  lemma ChangedIsSound(registry: Registry, instance: Instance, c: Changes, o: EditOutcomes)
    requires Sound(instance) && ChangesAllowed(registry, instance, c, o)
    ensures Sound(Changed(instance, c, o.now))
  {
    hide SemanticVersion, Held, MEMORY_LIMITS, PortUsedExcept, LimitsAllowed;
    if c.version.Some? {
      SemanticVersionIsHeld(c.version.value);
    }
    if c.memory.Some? {
      MemoryIsOneLine(c.memory.value);
    }
  }

  lemma EditKeepsAgreement(layout: Layout, store: Store, id: string, c: Changes, o: EditOutcomes, other: string)
    requires Fits(layout) && DistinctIds(store.registry) && Agree(layout, store, other) && SoundEntry(store, other)
    requires other == id ==> Edited(layout, store, id, c, o).1 != EnvNotRestored
    ensures Agree(layout, Edited(layout, store, id, c, o).0, other) && SoundEntry(Edited(layout, store, id, c, o).0, other)
  {
    hide Fits, Serialize, Secret, FindInstance, Replace, ChangesAllowed, VersionRead, Sound;
    var found := FindInstance(store.registry, id);
    if found.Some? && ChangesAllowed(store.registry, found.value, c, o) {
      assert found.value.id == id by { FindIsFirst(store.registry, id); }
      FindReplaced(store.registry, id, Changed(found.value, c, o.now), other);
      if other == id && id in store.envs {
        ChangedIsSound(store.registry, found.value, c, o);
        SoundVersion(layout, Changed(found.value, c, o.now), Secret(layout, store.envs[id]));
      }
    }
  }

  lemma CreatedIsSound(instance: Instance, id: GeneratedId)
    requires instance.id == id && SemanticVersion(instance.version) && instance.memory in MEMORY_LIMITS
    ensures Sound(instance)
  {
    hide SemanticVersion, Held, MEMORY_LIMITS;
    SemanticVersionIsHeld(instance.version);
    MemoryIsOneLine(instance.memory);
  }

  lemma CreateKeepsAgreement(layout: Layout, store: Store, c: Creation, other: string)
    requires Fits(layout) && Agree(layout, store, other) && SoundEntry(store, other)
    ensures Agree(layout, Created(layout, store, c).0, other) && SoundEntry(Created(layout, store, c).0, other)
  {
    hide Fits, Serialize, FindInstance, LimitsAllowed, MEMORY_LIMITS, CreatedPort, VersionRead, Sound, SemanticVersion;
    var port := CreatedPort(store.registry, c);
    var instance := c.wanted.(
      id := c.id,
      port := if port.Some? then port.value else 0,
      maxConcurrent := FirstPositive(c.wanted.maxConcurrent, 10),
      sessionTimeout := FirstPositive(c.wanted.sessionTimeout, 1200));
    FindAppended(store.registry, instance, other);
    if SemanticVersion(c.wanted.version) && c.wanted.memory in MEMORY_LIMITS {
      CreatedIsSound(instance, c.id);
      SoundVersion(layout, instance, c.secret);
    }
  }

  lemma DeleteKeepsAgreement(layout: Layout, store: Store, id: string, o: DeleteOutcomes, other: string)
    requires Agree(layout, store, other) && SoundEntry(store, other)
    ensures Agree(layout, Deleted(store, id, o).0, other) && SoundEntry(Deleted(store, id, o).0, other)
  {
    hide FindInstance, VersionRead, Sound;
    FindWithout(store.registry, id, other);
  }

  /**
   If the texts of an entry break no line, the version read from its file
   comes to differ from the registry's only when an operation on it reports a
   failed restoration.
   */
  lemma {:induction false} StoresAgree(layout: Layout, store: Store, ops: seq<Operation>, id: string)
    requires Fits(layout) && Invariant(store) && Agree(layout, store, id) && SoundEntry(store, id)
    requires !RestorationFails(layout, store, ops, id)
    ensures Agree(layout, ApplyAll(layout, store, ops), id) && SoundEntry(ApplyAll(layout, store, ops), id)
    decreases |ops|
  {
    hide Fits, Updated, Edited, Created, Deleted, Invariant, Agree, SoundEntry;
    if ops != [] {
      InvariantParts(store);
      match ops[0] {
        case Create(c) =>
          CreateKeepsInvariant(layout, store, c);
          CreateKeepsAgreement(layout, store, c, id);
        case Edit(of, c, o) =>
          EditKeepsInvariant(layout, store, of, c, o);
          EditKeepsAgreement(layout, store, of, c, o, id);
        case Delete(of, o) =>
          DeleteKeepsInvariant(store, of, o);
          DeleteKeepsAgreement(layout, store, of, o, id);
        case Update(of, o) =>
          UpdateKeepsInvariant(layout, store, of, o);
          UpdateKeepsAgreement(layout, store, of, o, id);
      }
      StoresAgree(layout, Apply(layout, store, ops[0]).0, ops[1..], id);
    }
  }
}
