/** What the derived settings of a written environment file come to, setting by setting. */
module TopologyMeaning {
  import opened JsStrings
  import opened TextLines
  import opened Dotenv
  import opened DotenvEditing
  import opened EnvTopology
  import opened EnvKeys
  import opened EnvLines
  import opened EnvCanonical
  import opened UrlComponents

  // ------------------------------------------------------------ truthy values

  /** The text is the word, apart from the case of its letters. */
  predicate Spells(text: JsString, word: JsString) {
    && |text| == |word|
    && forall i :: 0 <= i < |text| ==> text[i] == word[i] || (0x41 <= text[i] <= 0x5A && text[i] + 0x20 == word[i])
  }

  const TRUE_WORDS: seq<JsString> := [Js("1"), Js("true"), Js("yes"), Js("on")]

  ghost predicate SpellsTrue(text: JsString) {
    exists k :: 0 <= k < |TRUE_WORDS| && Spells(text, TRUE_WORDS[k])
  }

  lemma TrueWords(k: nat)
    requires k < |TRUE_WORDS|
    ensures TRUE_WORDS[k] != [] && forall i :: 0 <= i < |TRUE_WORDS[k]| ==> IsDigit(TRUE_WORDS[k][i]) || 0x61 <= TRUE_WORDS[k][i] <= 0x7A
    ensures TRUE_WORDS[k] in {ONE, TRUE, YES, ON}
  {}

  lemma TrueWordIs(word: JsString)
    requires word in {ONE, TRUE, YES, ON}
    ensures word in TRUE_WORDS
  {}

  lemma LowerSpells(text: JsString, k: nat)
    requires k < |TRUE_WORDS|
    ensures LowerCase(text) == TRUE_WORDS[k] <==> Spells(text, TRUE_WORDS[k])
  {
    hide TRUE_WORDS, LowerCase;
    TrueWords(k);
    var word := TRUE_WORDS[k];
    LowerUnits(text);
    if Spells(text, word) {
      assert forall i :: 0 <= i < |text| ==> LowerCase(text)[i] == word[i];
    }
  }

  lemma LowerUnits(text: JsString)
    ensures forall i :: 0 <= i < |text| ==> LowerCase(text)[i] == LowerAscii(text[i])
  {}

  /** A value is truthy when one of the four words, in any case, is all that it holds besides white space at its ends. */
  lemma TruthyExactly(value: JsString)
    ensures EnvTruthy(value) <==> SpellsTrue(Trim(value))
  {
    hide Trim, LowerCase, Spells;
    var text := Trim(value);
    if EnvTruthy(value) {
      TrueWordIs(LowerCase(text));
      var k :| 0 <= k < |TRUE_WORDS| && TRUE_WORDS[k] == LowerCase(text);
      LowerSpells(text, k);
    }
    if SpellsTrue(text) {
      var k :| 0 <= k < |TRUE_WORDS| && Spells(text, TRUE_WORDS[k]);
      LowerSpells(text, k);
      TrueWords(k);
    }
  }

  // ------------------------------------------------------------ the derived settings

  predicate On(env: Env, key: JsString) {
    EnvTruthy(Value(env, key))
  }

  /** Redis is in use unless its setting holds something that is not truthy. */
  predicate RedisInUse(env: Env) {
    Trim(Value(env, REDIS_ENABLED)) == [] || On(env, REDIS_ENABLED)
  }

  const OFF_WORD := Js("false")
  const POOLER_HOST := Js("pgbouncer")
  const DATABASE_HOST := Js("postgres")
  const DATABASE_PORT := Js("5432")
  const BUCKET_PROVIDER := Js("s3")
  const URL_HEAD := Js("redis://:")
  const URL_TAIL := Js("@redis:6379/0")

  /** The URL of the bundled Redis with a password that decodes to the given one and cannot break the URL. */
  ghost predicate IsRedisUrl(url: Option<JsString>, password: JsString) {
    exists e :: url == Some(URL_HEAD + e + URL_TAIL) && Carries(e, password)
  }

  ghost predicate Carries(e: JsString, password: JsString) {
    DecodeUrlComponent(e) == Some(password) && forall c :: c in e ==> UrlSafe(c)
  }

  /**
   With the bundled database its split settings lead to it, through the pooler
   when that is on, and a URL cannot bypass them; without it the pooler is off.
   */
  ghost predicate DatabaseRoutes(before: Env, after: Env) {
    var bundled := On(before, USE_BUNDLED_DB);
    && At(after, DATABASE_URL) == (if bundled then Some([]) else At(before, DATABASE_URL))
    && At(after, DATABASE_HOST_OVERRIDE)
       == (if !bundled then At(before, DATABASE_HOST_OVERRIDE)
           else Some(if On(before, USE_PGBOUNCER) then POOLER_HOST else DATABASE_HOST))
    && At(after, DATABASE_PORT_OVERRIDE) == (if bundled then Some(DATABASE_PORT) else At(before, DATABASE_PORT_OVERRIDE))
    && At(after, MIGRATION_HOST_OVERRIDE) == (if bundled then Some(DATABASE_HOST) else At(before, MIGRATION_HOST_OVERRIDE))
    && At(after, MIGRATION_PORT_OVERRIDE) == (if bundled then Some(DATABASE_PORT) else At(before, MIGRATION_PORT_OVERRIDE))
    && At(after, USE_PGBOUNCER) == (if bundled then At(before, USE_PGBOUNCER) else Some(OFF_WORD))
  }

  /** Redis off turns off the bundled one, and what is bundled is what is used. */
  ghost predicate ServiceRoutes(before: Env, after: Env) {
    var password := Value(before, REDIS_PASSWORD);
    && At(after, USE_BUNDLED_REDIS) == (if RedisInUse(before) then At(before, USE_BUNDLED_REDIS) else Some(OFF_WORD))
    && At(after, STORAGE_PROVIDER)
       == (if On(before, USE_BUNDLED_STORAGE) then Some(BUCKET_PROVIDER) else At(before, STORAGE_PROVIDER))
    && (if RedisInUse(before) && On(before, USE_BUNDLED_REDIS) && password != []
        then IsRedisUrl(At(after, REDIS_URL), password)
        else At(after, REDIS_URL) == At(before, REDIS_URL))
  }

  /** Every setting of what is written for an environment. */
  ghost predicate Routes(before: Env, after: Env) {
    && DatabaseRoutes(before, after) && ServiceRoutes(before, after)
    && forall key :: key !in DERIVED_KEYS ==> At(after, key) == At(before, key)
  }

  // ------------------------------------------------------------ the derivation, setting by setting

  lemma {:induction false} ToMapConcat(a: Entries, b: Entries)
    ensures ToMap(a + b) == ToMap(a) + ToMap(b)
    decreases |a|
  {
    hide ToMap;
    if a == [] {
      assert a + b == b;
      NothingToMap();
    } else {
      assert (a + b)[1..] == a[1..] + b;
      ToMapFirst(a);
      ToMapFirst(a + b);
      ToMapConcat(a[1..], b);
    }
  }

  lemma NothingToMap()
    ensures ToMap([]) == map[]
  {}

  lemma OneEntry(key: JsString, value: JsString)
    ensures ToMap([(key, value)]) == map[key := value]
  {
    hide ToMap;
    assert [(key, value)][1..] == [];
    ToMapFirst([(key, value)]);
    NothingToMap();
  }

  lemma KeysByLength()
    ensures |DATABASE_URL| == 12 && |DATABASE_HOST_OVERRIDE| == 22 && |DATABASE_PORT_OVERRIDE| == 22
    ensures |MIGRATION_HOST_OVERRIDE| == 32 && |MIGRATION_PORT_OVERRIDE| == 32
    ensures |USE_PGBOUNCER| == 21 && |USE_BUNDLED_REDIS| == 25 && |STORAGE_PROVIDER| == 21 && |REDIS_URL| == 9
  {}

  const ROUTED_KEYS: set<JsString> := {
    DATABASE_URL, DATABASE_HOST_OVERRIDE, DATABASE_PORT_OVERRIDE, MIGRATION_HOST_OVERRIDE, MIGRATION_PORT_OVERRIDE
  }

  function RoutedEntries(pooled: bool): Entries {
    [(DATABASE_URL, []), (DATABASE_HOST_OVERRIDE, if pooled then POOLER_HOST else DATABASE_HOST),
     (DATABASE_PORT_OVERRIDE, DATABASE_PORT), (MIGRATION_HOST_OVERRIDE, DATABASE_HOST),
     (MIGRATION_PORT_OVERRIDE, DATABASE_PORT)]
  }

  lemma RoutedValues(pooled: bool, key: JsString)
    ensures var u := ToMap(RoutedEntries(pooled));
            && At(u, DATABASE_URL) == Some([])
            && At(u, DATABASE_HOST_OVERRIDE) == Some(if pooled then POOLER_HOST else DATABASE_HOST)
            && At(u, DATABASE_PORT_OVERRIDE) == Some(DATABASE_PORT)
            && At(u, MIGRATION_HOST_OVERRIDE) == Some(DATABASE_HOST)
            && At(u, MIGRATION_PORT_OVERRIDE) == Some(DATABASE_PORT)
            && (key !in ROUTED_KEYS ==> At(u, key) == None)
  {
    hide ToMap;
    var entries := RoutedEntries(pooled);
    KeysByLength();
    DatabaseKeysDiffer();
    EntriesOfMap(entries);
    assert entries[0].0 == DATABASE_URL && entries[1].0 == DATABASE_HOST_OVERRIDE && entries[2].0 == DATABASE_PORT_OVERRIDE
        && entries[3].0 == MIGRATION_HOST_OVERRIDE && entries[4].0 == MIGRATION_PORT_OVERRIDE;
  }

  lemma DatabaseIs(env: Env)
    ensures DatabaseUpdates(env)
         == if On(env, USE_BUNDLED_DB) then RoutedEntries(On(env, USE_PGBOUNCER)) else [(USE_PGBOUNCER, OFF_WORD)]
  {
    hide EnvTruthy;
  }

  lemma TrimTwice(s: JsString)
    ensures Trim(Trim(s)) == Trim(s)
  {
    hide IsSpace, TrimEnd;
    var t := s[SpaceRun(s)..];
    TrimEndTwice(t);
    if TrimEnd(t) == [] {
      assert Trim([]) == [] by { EmptyIsBlank(); }
    } else {
      assert TrimEnd(t)[0] == t[0];
      assert TrimEnd(t)[0..] == TrimEnd(t);
    }
  }

  lemma UseIsEnabled(env: Env)
    ensures RedisInUse(env) <==> RedisIsEnabled(env)
  {
    hide Trim;
    TrimTwice(Value(env, REDIS_ENABLED));
  }

  lemma OthersAre(env: Env)
    ensures RedisOffUpdates(env) == if RedisInUse(env) then [] else [(USE_BUNDLED_REDIS, OFF_WORD)]
    ensures StorageUpdates(env) == if On(env, USE_BUNDLED_STORAGE) then [(STORAGE_PROVIDER, BUCKET_PROVIDER)] else []
  {
    hide EnvTruthy, RedisInUse, RedisIsEnabled;
    UseIsEnabled(env);
  }

  lemma UrlCarries(password: JsString)
    ensures LocalRedisUrl(password).Some? <==> PairedSurrogates(password)
    ensures LocalRedisUrl(password).Some? ==> IsRedisUrl(LocalRedisUrl(password), password)
  {
    hide EncodeUrlComponent, DecodeUrlComponent, PairedSurrogates, UrlSafe;
    EncodesExactly(password);
    if EncodeUrlComponent(password).Some? {
      DecodeEncode(password);
      EncodedIsSafe(password);
      assert Carries(EncodeUrlComponent(password).value, password);
    }
  }

  predicate NeedsUrl(env: Env) {
    RedisInUse(env) && On(env, USE_BUNDLED_REDIS) && Value(env, REDIS_PASSWORD) != []
  }

  lemma UrlIs(env: Env)
    ensures var u := RedisUrlUpdates(env);
            if !NeedsUrl(env) then u == Some([])
            else if !PairedSurrogates(Value(env, REDIS_PASSWORD)) then u == None
            else u.Some? && |u.value| == 1 && u.value[0].0 == REDIS_URL
                 && IsRedisUrl(Some(u.value[0].1), Value(env, REDIS_PASSWORD))
  {
    hide EnvTruthy, RedisInUse, RedisIsEnabled, LocalRedisUrl, PairedSurrogates, IsRedisUrl;
    UseIsEnabled(env);
    UrlCarries(Value(env, REDIS_PASSWORD));
  }

  lemma UpdatesAre(env: Env)
    requires TopologyInvariantUpdates(env).Some?
    ensures RedisUrlUpdates(env).Some?
    ensures ToMap(TopologyInvariantUpdates(env).value)
         == ToMap(DatabaseUpdates(env)) + ToMap(RedisOffUpdates(env)) + ToMap(StorageUpdates(env))
            + ToMap(RedisUrlUpdates(env).value)
  {
    hide ToMap, DatabaseUpdates, RedisOffUpdates, StorageUpdates, RedisUrlUpdates;
    var a, b, c, d := DatabaseUpdates(env), RedisOffUpdates(env), StorageUpdates(env), RedisUrlUpdates(env).value;
    ToMapConcat(a, b);
    ToMapConcat(a + b, c);
    ToMapConcat(a + b + c, d);
  }

  lemma NothingAt(key: JsString, value: JsString)
    ensures forall k :: At(map[key := value], k) == if k == key then Some(value) else None
  {}

  lemma DatabaseValue(env: Env, key: JsString)
    ensures var (u, bundled) := (ToMap(DatabaseUpdates(env)), On(env, USE_BUNDLED_DB));
            && At(u, DATABASE_URL) == (if bundled then Some([]) else None)
            && At(u, DATABASE_HOST_OVERRIDE)
               == (if bundled then Some(if On(env, USE_PGBOUNCER) then POOLER_HOST else DATABASE_HOST) else None)
            && At(u, DATABASE_PORT_OVERRIDE) == (if bundled then Some(DATABASE_PORT) else None)
            && At(u, MIGRATION_HOST_OVERRIDE) == (if bundled then Some(DATABASE_HOST) else None)
            && At(u, MIGRATION_PORT_OVERRIDE) == (if bundled then Some(DATABASE_PORT) else None)
            && At(u, USE_PGBOUNCER) == (if bundled then None else Some(OFF_WORD))
            && (key !in ROUTED_KEYS && key != USE_PGBOUNCER ==> At(u, key) == None)
  {
    hide ToMap, On, RoutedEntries, DatabaseUpdates, At;
    KeysByLength();
    NothingAt(USE_PGBOUNCER, OFF_WORD);
    DatabaseIs(env);
    if On(env, USE_BUNDLED_DB) {
      RoutedValues(On(env, USE_PGBOUNCER), key);
      RoutedValues(On(env, USE_PGBOUNCER), USE_PGBOUNCER);
    } else {
      OneEntry(USE_PGBOUNCER, OFF_WORD);
    }
  }

  lemma OtherValues(env: Env, key: JsString)
    ensures At(ToMap(RedisOffUpdates(env)), key)
         == if key == USE_BUNDLED_REDIS && !RedisInUse(env) then Some(OFF_WORD) else None
    ensures At(ToMap(StorageUpdates(env)), key)
         == if key == STORAGE_PROVIDER && On(env, USE_BUNDLED_STORAGE) then Some(BUCKET_PROVIDER) else None
    ensures RedisUrlUpdates(env).Some? ==>
              var url := At(ToMap(RedisUrlUpdates(env).value), key);
              if key == REDIS_URL && NeedsUrl(env) then url.Some? && IsRedisUrl(url, Value(env, REDIS_PASSWORD)) else url == None
  {
    hide ToMap, On, RedisInUse, NeedsUrl, IsRedisUrl, RedisUrlUpdates, RedisOffUpdates, StorageUpdates, PairedSurrogates;
    OthersAre(env);
    NothingToMap();
    OneEntry(USE_BUNDLED_REDIS, OFF_WORD);
    OneEntry(STORAGE_PROVIDER, BUCKET_PROVIDER);
    UrlIs(env);
    if RedisUrlUpdates(env).Some? && NeedsUrl(env) {
      var entries := RedisUrlUpdates(env).value;
      OneEntry(REDIS_URL, entries[0].1);
      assert entries == [(REDIS_URL, entries[0].1)];
    }
  }

  /** The value of a key after the four groups of updates. */
  lemma DerivedAt(env: Env, key: JsString)
    requires TopologyInvariantUpdates(env).Some?
    ensures RedisUrlUpdates(env).Some?
    ensures var first, second := At(ToMap(DatabaseUpdates(env)), key), At(ToMap(RedisOffUpdates(env)), key);
            var third, fourth := At(ToMap(StorageUpdates(env)), key), At(ToMap(RedisUrlUpdates(env).value), key);
            At(env + ToMap(TopologyInvariantUpdates(env).value), key)
            == if fourth.Some? then fourth else if third.Some? then third else if second.Some? then second
               else if first.Some? then first else At(env, key)
  {
    hide ToMap, TopologyInvariantUpdates, DatabaseUpdates, RedisOffUpdates, StorageUpdates, RedisUrlUpdates;
    UpdatesAre(env);
  }

  function After(env: Env): Env
    requires TopologyInvariantUpdates(env).Some?
  {
    env + ToMap(TopologyInvariantUpdates(env).value)
  }

  lemma DerivedDatabase(env: Env)
    requires TopologyInvariantUpdates(env).Some?
    ensures DatabaseRoutes(env, After(env))
  {
    hide ToMap, On, RedisInUse, NeedsUrl, IsRedisUrl, TopologyInvariantUpdates, At, DatabaseUpdates, RedisOffUpdates,
         StorageUpdates, RedisUrlUpdates;
    KeysByLength();
    DatabaseKeysDiffer();
    DatabaseValue(env, USE_PGBOUNCER);
    forall key | key in ROUTED_KEYS || key == USE_PGBOUNCER
      ensures var u := At(ToMap(DatabaseUpdates(env)), key); At(After(env), key) == if u.Some? then u else At(env, key)
    {
      OtherValues(env, key);
      DerivedAt(env, key);
    }
  }

  lemma DerivedServices(env: Env)
    requires TopologyInvariantUpdates(env).Some?
    ensures ServiceRoutes(env, After(env))
  {
    hide ToMap, On, RedisInUse, IsRedisUrl, TopologyInvariantUpdates, At, DatabaseUpdates, RedisOffUpdates,
         StorageUpdates, RedisUrlUpdates;
    KeysByLength();
    DatabaseKeysDiffer();
    forall key | key in {USE_BUNDLED_REDIS, STORAGE_PROVIDER, REDIS_URL}
      ensures At(ToMap(DatabaseUpdates(env)), key) == None
    {
      DatabaseValue(env, key);
    }
    OtherValues(env, USE_BUNDLED_REDIS);
    OtherValues(env, STORAGE_PROVIDER);
    OtherValues(env, REDIS_URL);
    DerivedAt(env, USE_BUNDLED_REDIS);
    DerivedAt(env, STORAGE_PROVIDER);
    DerivedAt(env, REDIS_URL);
  }

  lemma DerivedRest(env: Env, key: JsString)
    requires TopologyInvariantUpdates(env).Some? && key !in DERIVED_KEYS
    ensures At(After(env), key) == At(env, key)
  {
    hide ToMap, On, RedisInUse, NeedsUrl, IsRedisUrl, TopologyInvariantUpdates, At, DatabaseUpdates, RedisOffUpdates,
         StorageUpdates, RedisUrlUpdates;
    DatabaseValue(env, key);
    OtherValues(env, key);
    DerivedAt(env, key);
  }

  /** What deriving does to every setting. */
  lemma DerivedRoutes(env: Env)
    requires TopologyInvariantUpdates(env).Some?
    ensures Routes(env, After(env))
  {
    hide DatabaseRoutes, ServiceRoutes, After, DERIVED_KEYS, TopologyInvariantUpdates, At;
    DerivedDatabase(env);
    DerivedServices(env);
    forall key | key !in DERIVED_KEYS
      ensures At(After(env), key) == At(env, key)
    {
      DerivedRest(env, key);
    }
  }

  /** Deriving fails exactly when the bundled Redis needs a password with a lone surrogate in its URL. */
  lemma DerivesExactly(env: Env)
    ensures TopologyInvariantUpdates(env).Some? <==> (NeedsUrl(env) ==> PairedSurrogates(Value(env, REDIS_PASSWORD)))
  {
    hide NeedsUrl, PairedSurrogates, IsRedisUrl, RedisUrlUpdates;
    UrlIs(env);
  }

  /** The word for off is not truthy. */
  lemma OffIsOff()
    ensures !EnvTruthy(OFF_WORD)
  {}

  // ------------------------------------------------------------ what is written

  /**
   Every setting of a written file, in terms of the settings of the text it was
   written for. No line of that text may be turned into an assignment by
   stripping; writing fails exactly when deriving does.
   */
  lemma WrittenRoutes(raw: JsString)
    requires Steady(raw)
    ensures var before := ParseEnv(raw) - REMOVED_KEYS;
            && (CanonicalText(raw).Some? <==> (NeedsUrl(before) ==> PairedSurrogates(Value(before, REDIS_PASSWORD))))
            && (CanonicalText(raw).Some? ==> Routes(before, ParseEnv(CanonicalText(raw).value)))
  {
    hide Steady, ParseEnv, TopologyInvariantUpdates, REMOVED_KEYS, NeedsUrl, PairedSurrogates, Routes, ToMap, RemoveEnvKeys,
         UpdateEnv, TrimEnd, Value;
    var before := ParseEnv(raw) - REMOVED_KEYS;
    SteadyEnvironment(raw);
    DerivesExactly(before);
    if CanonicalText(raw).Some? {
      WrittenEnvironment(raw);
      DerivedRoutes(before);
    }
  }

  /** The invariants of a written file, on the settings it holds itself. */
  lemma WrittenTopology(raw: JsString)
    requires Steady(raw) && CanonicalText(raw).Some?
    ensures var env := ParseEnv(CanonicalText(raw).value);
            && (On(env, USE_BUNDLED_DB) ==>
                && At(env, DATABASE_URL) == Some([])
                && At(env, DATABASE_HOST_OVERRIDE) == Some(if On(env, USE_PGBOUNCER) then POOLER_HOST else DATABASE_HOST)
                && At(env, DATABASE_PORT_OVERRIDE) == Some(DATABASE_PORT)
                && At(env, MIGRATION_HOST_OVERRIDE) == Some(DATABASE_HOST)
                && At(env, MIGRATION_PORT_OVERRIDE) == Some(DATABASE_PORT))
            && (!On(env, USE_BUNDLED_DB) ==> At(env, USE_PGBOUNCER) == Some(OFF_WORD) && !On(env, USE_PGBOUNCER))
            && (!RedisInUse(env) ==> At(env, USE_BUNDLED_REDIS) == Some(OFF_WORD) && !On(env, USE_BUNDLED_REDIS))
            && (On(env, USE_BUNDLED_STORAGE) ==> At(env, STORAGE_PROVIDER) == Some(BUCKET_PROVIDER))
            && (NeedsUrl(env) ==> IsRedisUrl(At(env, REDIS_URL), Value(env, REDIS_PASSWORD)))
  {
    hide Steady, CanonicalText, ParseEnv, REMOVED_KEYS, PairedSurrogates, EnvTruthy, Trim, IsRedisUrl, DERIVED_KEYS;
    WrittenRoutes(raw);
    InputsAreNotDerived();
    OffIsOff();
    var before, env := ParseEnv(raw) - REMOVED_KEYS, ParseEnv(CanonicalText(raw).value);
    SameValue(before, env, USE_BUNDLED_DB);
    SameValue(before, env, REDIS_ENABLED);
    SameValue(before, env, USE_BUNDLED_STORAGE);
    SameValue(before, env, REDIS_PASSWORD);
    if On(before, USE_BUNDLED_DB) {
      SameValue(before, env, USE_PGBOUNCER);
    }
    if RedisInUse(before) {
      SameValue(before, env, USE_BUNDLED_REDIS);
    }
  }

  lemma SameValue(a: Env, b: Env, key: JsString)
    requires At(a, key) == At(b, key)
    ensures Value(a, key) == Value(b, key)
  {}
}
