/** The names of the topology settings: identifiers, pairwise distinct, never removed. */
module EnvKeys {
  import opened JsStrings
  import opened TextLines
  import opened Dotenv
  import opened DotenvProofs
  import opened DotenvValues
  import opened DotenvEditing
  import opened EnvTopology
  import JsonStrings

  /** The settings that are derived from others. */
  const DERIVED_KEYS: set<JsString> := {
    USE_PGBOUNCER, DATABASE_URL, DATABASE_HOST_OVERRIDE, DATABASE_PORT_OVERRIDE, MIGRATION_HOST_OVERRIDE,
    MIGRATION_PORT_OVERRIDE, USE_BUNDLED_REDIS, STORAGE_PROVIDER, REDIS_URL
  }

  lemma DatabaseKeysAreIdentifiers()
    ensures IsIdentifier(USE_PGBOUNCER) && IsIdentifier(DATABASE_URL) && IsIdentifier(DATABASE_HOST_OVERRIDE)
    ensures IsIdentifier(DATABASE_PORT_OVERRIDE)
  {}

  lemma MigrationKeysAreIdentifiers()
    ensures IsIdentifier(MIGRATION_HOST_OVERRIDE) && IsIdentifier(MIGRATION_PORT_OVERRIDE)
  {}

  lemma OtherKeysAreIdentifiers()
    ensures IsIdentifier(USE_BUNDLED_REDIS) && IsIdentifier(STORAGE_PROVIDER) && IsIdentifier(REDIS_URL)
  {}

  lemma DerivedKeyShape(k: JsString)
    requires k in DERIVED_KEYS
    ensures IsIdentifier(k) && k != PROTO
  {
    hide IsIdentifier;
    DatabaseKeysAreIdentifiers();
    MigrationKeysAreIdentifiers();
    OtherKeysAreIdentifiers();
    assert PROTO[0] == UNDERSCORE;
    assert k[0] as int in {'O' as int, 'D' as int, 'F' as int, 'R' as int};
  }

  /** A removed name starts like `OMLORIX_L` or `OMLORIX_G`; no derived one does. */
  lemma DerivedIsNotRemoved(k: JsString)
    ensures k in DERIVED_KEYS ==> k !in REMOVED_KEYS
  {
    assert k in DERIVED_KEYS ==> k[0] as int != 'O' as int || k[8] as int == 'U' as int;
    assert k in REMOVED_KEYS ==> |k| > 8 && k[0] as int == 'O' as int && k[8] as int != 'U' as int;
  }

  /** The settings the topology is computed from, apart from two that it may switch off. */
  lemma InputsAreNotDerived()
    ensures USE_BUNDLED_DB !in DERIVED_KEYS && REDIS_ENABLED !in DERIVED_KEYS
    ensures USE_BUNDLED_STORAGE !in DERIVED_KEYS && REDIS_PASSWORD !in DERIVED_KEYS
  {
    assert USE_BUNDLED_DB[0] != DATABASE_HOST_OVERRIDE[0] && USE_BUNDLED_DB[0] != DATABASE_PORT_OVERRIDE[0];
  }

  lemma DatabaseKeysDiffer()
    ensures DATABASE_HOST_OVERRIDE != DATABASE_PORT_OVERRIDE && MIGRATION_HOST_OVERRIDE != MIGRATION_PORT_OVERRIDE
    ensures USE_PGBOUNCER != STORAGE_PROVIDER
  {
    assert DATABASE_HOST_OVERRIDE[9] != DATABASE_PORT_OVERRIDE[9];
    assert MIGRATION_HOST_OVERRIDE[19] != MIGRATION_PORT_OVERRIDE[19];
    assert USE_PGBOUNCER[0] != STORAGE_PROVIDER[0];
  }

  /** Every derived value can be written on a dotenv line. */
  lemma {:induction false} EncodedIsAscii(s: JsString)
    ensures EncodeUrlComponent(s).Some? ==> forall c :: c in EncodeUrlComponent(s).value ==> c < 0x80
    decreases |s|
  {
    if s == [] {
    } else if Unreserved(s[0]) {
      EncodedIsAscii(s[1..]);
    } else {
      hide JsonStrings.IsHighSurrogate, JsonStrings.IsLowSurrogate, Unreserved;
      if |s| > 1 {
        EncodedIsAscii(s[2..]);
      }
      EncodedIsAscii(s[1..]);
      forall n: int | 0 <= n < 0x11_0000
        ensures forall c :: c in PercentScalar(n) ==> c < 0x80
      {
        PercentIsAscii(n);
      }
    }
  }

  lemma PercentIsAscii(n: int)
    requires 0 <= n < 0x11_0000
    ensures forall c :: c in PercentScalar(n) ==> c < 0x80
  {}

  ghost predicate Derived(entry: (JsString, JsString)) {
    entry.0 in DERIVED_KEYS && !HasSeparator(entry.1)
  }

  lemma LiteralsHaveNoSeparator()
    ensures !HasSeparator([]) && !HasSeparator(FALSE) && !HasSeparator(POSTGRES) && !HasSeparator(PGBOUNCER)
    ensures !HasSeparator(POSTGRES_PORT) && !HasSeparator(S3)
  {}

  lemma RedisUrlHasNoSeparator(password: JsString)
    ensures LocalRedisUrl(password).Some? ==> !HasSeparator(LocalRedisUrl(password).value)
  {
    hide EncodeUrlComponent;
    EncodedIsAscii(password);
    assert forall c :: c in REDIS_URL_START ==> c < 0x80;
    assert forall c :: c in REDIS_URL_END ==> c < 0x80;
  }

  lemma DatabaseUpdatesShape(env: Env)
    ensures var u := DatabaseUpdates(env);
            && DistinctKeys(u) && (forall i :: 0 <= i < |u| ==> Derived(u[i]))
            && (forall i :: 0 <= i < |u| ==>
                |u[i].0| in {12, 22, 32} || (u[i].0 == USE_PGBOUNCER && !EnvTruthy(Value(env, USE_BUNDLED_DB))))
  {
    hide EnvTruthy, HasSeparator;
    LiteralsHaveNoSeparator();
    DatabaseKeysDiffer();
  }

  lemma OtherUpdatesShape(env: Env)
    requires RedisUrlUpdates(env).Some?
    ensures var u := RedisOffUpdates(env) + StorageUpdates(env) + RedisUrlUpdates(env).value;
            && DistinctKeys(u) && (forall i :: 0 <= i < |u| ==> Derived(u[i]))
            && (forall i :: 0 <= i < |u| ==>
                u[i].0 == STORAGE_PROVIDER || u[i].0 == REDIS_URL || (u[i].0 == USE_BUNDLED_REDIS && !RedisIsEnabled(env)))
  {
    hide EnvTruthy, HasSeparator, RedisIsEnabled, LocalRedisUrl;
    LiteralsHaveNoSeparator();
    RedisUrlHasNoSeparator(Value(env, REDIS_PASSWORD));
  }

  /** The derived updates: distinct known keys, values a line can carry. */
  lemma TopologyShape(env: Env)
    requires TopologyInvariantUpdates(env).Some?
    ensures var u := TopologyInvariantUpdates(env).value;
            && u != [] && DistinctKeys(u) && (forall i :: 0 <= i < |u| ==> Derived(u[i]))
            && (forall i :: 0 <= i < |u| && u[i].0 == USE_PGBOUNCER ==> !EnvTruthy(Value(env, USE_BUNDLED_DB)))
            && (forall i :: 0 <= i < |u| && u[i].0 == USE_BUNDLED_REDIS ==> !RedisIsEnabled(env))
  {
    hide EnvTruthy, RedisIsEnabled, Derived, RedisUrlUpdates, RedisOffUpdates, StorageUpdates, DatabaseUpdates;
    var first, second := DatabaseUpdates(env), RedisOffUpdates(env) + StorageUpdates(env) + RedisUrlUpdates(env).value;
    DatabaseUpdatesShape(env);
    OtherUpdatesShape(env);
    DatabaseUpdatesNotEmpty(env);
    DatabaseKeysDiffer();
    assert TopologyInvariantUpdates(env).value == first + second;
  }

  lemma DatabaseUpdatesNotEmpty(env: Env)
    ensures DatabaseUpdates(env) != []
  {}

  lemma TopologyIsStorable(env: Env)
    requires TopologyInvariantUpdates(env).Some?
    ensures var u := TopologyInvariantUpdates(env).value;
            && DistinctKeys(u) && IdentifierKeys(ToMap(u)) && Storable(ToMap(u))
            && ToMap(u).Keys <= DERIVED_KEYS
  {
    hide TopologyInvariantUpdates, HasSeparator, IsIdentifier, ToMap;
    var u := TopologyInvariantUpdates(env).value;
    TopologyShape(env);
    EntriesOfMap(u);
    forall k | k in ToMap(u)
      ensures k in DERIVED_KEYS && IsIdentifier(k) && k != PROTO && !HasSeparator(ToMap(u)[k])
    {
      var i :| 0 <= i < |u| && u[i].0 == k;
      DerivedKeyShape(k);
    }
  }

  /** Deriving again from an environment that already holds the derived values changes nothing. */
  lemma TopologyIsStable(env: Env)
    requires TopologyInvariantUpdates(env).Some?
    ensures TopologyInvariantUpdates(env + ToMap(TopologyInvariantUpdates(env).value)) == TopologyInvariantUpdates(env)
  {
    hide EnvTruthy, LocalRedisUrl, ToMap, HasSeparator, IsIdentifier, Trim;
    var u := TopologyInvariantUpdates(env).value;
    var env' := env + ToMap(u);
    assert USE_PGBOUNCER in ToMap(u) ==> !EnvTruthy(Value(env, USE_BUNDLED_DB)) by { KeysOfTopology(env); }
    assert USE_BUNDLED_REDIS in ToMap(u) ==> !RedisIsEnabled(env) by { KeysOfTopology(env); }
    assert ToMap(u).Keys <= DERIVED_KEYS by { TopologyIsStorable(env); }
    InputsAreNotDerived();
    assert Value(env', USE_BUNDLED_DB) == Value(env, USE_BUNDLED_DB);
    assert Value(env', REDIS_ENABLED) == Value(env, REDIS_ENABLED);
    assert Value(env', USE_BUNDLED_STORAGE) == Value(env, USE_BUNDLED_STORAGE);
    assert Value(env', REDIS_PASSWORD) == Value(env, REDIS_PASSWORD);
  }

  lemma KeysOfTopology(env: Env)
    requires TopologyInvariantUpdates(env).Some?
    ensures var u := ToMap(TopologyInvariantUpdates(env).value);
            && (USE_PGBOUNCER in u ==> !EnvTruthy(Value(env, USE_BUNDLED_DB)))
            && (USE_BUNDLED_REDIS in u ==> !RedisIsEnabled(env))
  {
    hide TopologyInvariantUpdates, EnvTruthy, RedisIsEnabled, ToMap, Derived;
    TopologyShape(env);
    EntriesOfMap(TopologyInvariantUpdates(env).value);
  }
}
