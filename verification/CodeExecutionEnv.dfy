/** The environment file of a Code Execution instance, and what is read back from it. */
module CodeExecutionEnv {
  import opened JsStrings
  import opened GoDotenv
  import opened GoDotenvProofs

  datatype Instance = Instance(
    id: string, name: string, version: string, port: int, memory: string, maxConcurrent: int, sessionTimeout: int,
    networkAccess: bool, allowPip: bool, updatedAt: string)

  function Digits(n: nat): string {
    if n < 10 then [('0' as int + n) as char] else Digits(n / 10) + [('0' as int + n % 10) as char]
  }

  function Itoa(n: int): string {
    if n < 0 then ['-'] + Digits(-n) else Digits(n)
  }

  function FormatBool(b: bool): string {
    if b then "true" else "false"
  }

  function Max(a: int, b: int): int {
    if a > b then a else b
  }

  // ------------------------------------------------------------ the settings

  /**
   The settings that are the same for every instance, in the five places that
   the order of the names gives them between those of the instance.
   */
  datatype Layout = Layout(q: Quoting, limits: Table, files: Table, shared: Table, sandbox: Table, last: Table)

  const CODE_EXECUTION_VERSION := "CODE_EXECUTION_VERSION"

  const IMAGES := "ghcr.io/phinaldoo/omlorix-code-execution-"

  function FirstSettings(instance: Instance): Table {
    [("ALLOWED_HOSTS", "127.0.0.1,localhost,gateway,codeexec-" + instance.id),
     ("ALLOW_PIP_INSTALLS", FormatBool(instance.allowPip)),
     ("ALLOW_RESTRICTED_LOCAL_DOCKER_PROXY", "true"),
     ("ALLOW_SANDBOX_ENV_INJECTION", "false")]
  }

  const APP_ENV: (string, string) := ("APP_ENV", "production")

  function NamedSettings(instance: Instance): Table {
    [("CODE_EXECUTION_GATEWAY_IMAGE", IMAGES + ("gateway:" + instance.version)),
     ("CODE_EXECUTION_INSTANCE_ID", instance.id),
     ("CODE_EXECUTION_NETWORK_ALIAS", "codeexec-" + instance.id)]
  }

  function VersionSetting(instance: Instance): (string, string) {
    (CODE_EXECUTION_VERSION, instance.version)
  }

  function ProjectSetting(instance: Instance): (string, string) {
    ("COMPOSE_PROJECT_NAME", "omlorix-codeexec-" + instance.id)
  }

  function NumberSettings(instance: Instance): Table {
    [("GATEWAY_PORT", Itoa(instance.port)),
     ("MAX_ACTIVE_SESSIONS", Itoa(Max(instance.maxConcurrent * 10, 20))),
     ("MAX_CONCURRENT_EXECUTIONS", Itoa(instance.maxConcurrent))]
  }

  function LifetimeSetting(instance: Instance): (string, string) {
    ("MAX_SESSION_LIFETIME_SECONDS", Itoa(Max(instance.sessionTimeout, 3600)))
  }

  function SandboxTexts(instance: Instance): Table {
    [("SANDBOX_IMAGE", IMAGES + ("sandbox:" + instance.version)),
     ("SANDBOX_MEM_LIMIT", instance.memory)]
  }

  function NetworkSetting(instance: Instance): (string, string) {
    ("SANDBOX_NETWORK_MODE", if instance.networkAccess then "bridge" else "none")
  }

  function TimeoutSetting(instance: Instance): (string, string) {
    ("SESSION_TIMEOUT_SECONDS", Itoa(instance.sessionTimeout))
  }

  /** The settings between the texts of an entry, and behind them. */
  function MiddleSettings(layout: Layout, instance: Instance): Table {
    layout.limits + NumberSettings(instance) + layout.files + [LifetimeSetting(instance)] + layout.shared
  }

  function LastSettings(layout: Layout, instance: Instance): Table {
    [NetworkSetting(instance)] + layout.sandbox + [TimeoutSetting(instance)] + layout.last
  }

  function BehindVersion(layout: Layout, instance: Instance): Table {
    [ProjectSetting(instance)] + (MiddleSettings(layout, instance) + (SandboxTexts(instance) + LastSettings(layout, instance)))
  }

  function BehindKey(layout: Layout, instance: Instance): Table {
    [APP_ENV] + (NamedSettings(instance) + ([VersionSetting(instance)] + BehindVersion(layout, instance)))
  }

  /** The whole file, sorted by name. */
  function Settings(layout: Layout, instance: Instance, secret: string): Table {
    FirstSettings(instance) + ([(API_KEYS, LAUNCHER + secret)] + BehindKey(layout, instance))
  }

  function Serialize(layout: Layout, instance: Instance, secret: string): string {
    Render(layout.q, Settings(layout, instance, secret))
  }

  function Secret(layout: Layout, env: string): string {
    ApiKey(ParseEnvContent(layout.q, env))
  }

  function VersionRead(layout: Layout, env: string): string {
    Lookup(ParseEnvContent(layout.q, env), CODE_EXECUTION_VERSION)
  }

  // ------------------------------------------------------------ versions

  predicate IsNumber(s: string) {
    s != [] && (forall i :: 0 <= i < |s| ==> '0' <= s[i] <= '9') && (s[0] == '0' ==> |s| == 1)
  }

  predicate IsVersionChar(c: char) {
    '0' <= c <= '9' || 'A' <= c <= 'Z' || 'a' <= c <= 'z' || c == '.' || c == '-'
  }

  /** `(0|[1-9][0-9]*)(?:-[0-9A-Za-z.-]+)?` */
  predicate IsLastPart(s: string) {
    match Cut(s, '-')
    case None => IsNumber(s)
    case Some((number, prerelease)) =>
      IsNumber(number) && prerelease != [] && forall i :: 0 <= i < |prerelease| ==> IsVersionChar(prerelease[i])
  }

  /** semanticVersionPattern: two numbers, each ended by a dot, and the last part. */
  predicate SemanticVersion(s: string) {
    match Cut(s, '.')
    case None => false
    case Some((major, rest)) =>
      match Cut(rest, '.')
      case None => false
      case Some((minor, last)) => IsNumber(major) && IsNumber(minor) && IsLastPart(last)
  }

  // ------------------------------------------------------------ settings that stay on their line

  /** A setting with a name of its own and a value without line feeds. */
  ghost predicate Calm(entry: (string, string)) {
    IsKey(entry.0) && entry.0 != API_KEYS && entry.0 != CODE_EXECUTION_VERSION && '\n' !in entry.1
  }

  ghost predicate AllCalm(table: Table) {
    forall i :: 0 <= i < |table| ==> Calm(table[i])
  }

  /** What is known of the settings that are the same for every instance. */
  ghost predicate Fits(layout: Layout) {
    && Documented(layout.q) && AllCalm(layout.limits) && AllCalm(layout.files) && AllCalm(layout.shared)
    && AllCalm(layout.sandbox) && AllCalm(layout.last)
  }

  lemma {:induction false} DigitsAreDigits(n: nat)
    ensures Digits(n) != [] && forall c :: c in Digits(n) ==> '0' <= c <= '9'
  {
    if n >= 10 {
      DigitsAreDigits(n / 10);
    }
  }

  lemma ItoaIsOneLine(n: int)
    ensures '\n' !in Itoa(n)
  {
    DigitsAreDigits(if n < 0 then -n else n);
  }

  lemma NumbersAreCalm(instance: Instance)
    ensures AllCalm(NumberSettings(instance))
  {
    hide Itoa;
    ItoaIsOneLine(instance.port);
    ItoaIsOneLine(Max(instance.maxConcurrent * 10, 20));
    ItoaIsOneLine(instance.maxConcurrent);
  }

  lemma LifetimeIsCalm(instance: Instance)
    ensures Calm(LifetimeSetting(instance))
  {
    hide Itoa;
    ItoaIsOneLine(Max(instance.sessionTimeout, 3600));
  }

  lemma TimeoutIsCalm(instance: Instance)
    ensures Calm(TimeoutSetting(instance))
  {
    hide Itoa;
    ItoaIsOneLine(instance.sessionTimeout);
  }

  lemma ChoicesAreCalm(instance: Instance)
    ensures Calm(NetworkSetting(instance))
  {}

  lemma ModeIsCalm()
    ensures Calm(APP_ENV)
  {
    assert APP_ENV.0[2] != API_KEYS[2];
  }

  lemma MiddleIsCalm(layout: Layout, instance: Instance)
    requires Fits(layout)
    ensures AllCalm(MiddleSettings(layout, instance)) && AllCalm(LastSettings(layout, instance))
  {
    hide Calm, Documented, NumberSettings, LifetimeSetting, NetworkSetting, TimeoutSetting;
    NumbersAreCalm(instance);
    LifetimeIsCalm(instance);
    TimeoutIsCalm(instance);
    ChoicesAreCalm(instance);
  }

  // ------------------------------------------------------------ values that break their line

  lemma {:induction false} ExtraConcat(a: Table, b: Table)
    ensures ExtraLines(a + b) == ExtraLines(a) + ExtraLines(b)
    decreases |a|
  {
    hide Extra;
    if a == [] {
      assert a + b == b;
    } else {
      assert (a + b)[1..] == a[1..] + b;
      ExtraConcat(a[1..], b);
    }
  }

  lemma OneLine(value: string)
    requires '\n' !in value
    ensures Extra(value) == []
  {
    hide SplitLines, NeedsQuotes;
    SplitOne(value);
    assert [value][1..] == [];
  }

  lemma {:induction false} CalmLines(table: Table)
    requires AllCalm(table)
    ensures ExtraLines(table) == []
    decreases |table|
  {
    hide Extra, IsKey;
    if table != [] {
      assert Calm(table[0]);
      OneLine(table[0].1);
      assert AllCalm(table[1..]) by {
        assert forall i :: 0 <= i < |table| - 1 ==> table[1..][i] == table[i + 1];
      }
      CalmLines(table[1..]);
    }
  }

  lemma ExtraOne(entry: (string, string))
    ensures ExtraLines([entry]) == Extra(entry.1)
  {
    hide Extra;
    assert [entry][1..] == [];
    assert Extra(entry.1) + [] == Extra(entry.1);
  }

  /** The texts of the entry behind its version. */
  function TextsBehindVersion(instance: Instance): Table {
    [ProjectSetting(instance)] + SandboxTexts(instance)
  }

  function TextsBehindKey(instance: Instance): Table {
    NamedSettings(instance) + ([VersionSetting(instance)] + TextsBehindVersion(instance))
  }

  lemma LinesBehindVersion(layout: Layout, instance: Instance)
    requires Fits(layout)
    ensures ExtraLines(BehindVersion(layout, instance)) == ExtraLines(TextsBehindVersion(instance))
  {
    hide ExtraLines, MiddleSettings, LastSettings, SandboxTexts, ProjectSetting, Fits, AllCalm;
    var first, middle, texts, last
      := [ProjectSetting(instance)], MiddleSettings(layout, instance), SandboxTexts(instance), LastSettings(layout, instance);
    MiddleIsCalm(layout, instance);
    CalmLines(middle);
    CalmLines(last);
    ExtraConcat(first, middle + (texts + last));
    ExtraConcat(middle, texts + last);
    ExtraConcat(texts, last);
    ExtraConcat(first, texts);
  }

  lemma LinesBehindKey(layout: Layout, instance: Instance)
    requires Fits(layout)
    ensures ExtraLines(BehindKey(layout, instance)) == ExtraLines(TextsBehindKey(instance))
  {
    hide ExtraLines, BehindVersion, TextsBehindVersion, NamedSettings, VersionSetting, Fits, AllCalm, Calm, APP_ENV;
    var named, version := NamedSettings(instance), [VersionSetting(instance)];
    LinesBehindVersion(layout, instance);
    ModeIsCalm();
    ModeLines();
    ExtraConcat([APP_ENV], named + (version + BehindVersion(layout, instance)));
    ExtraConcat(named, version + BehindVersion(layout, instance));
    ExtraConcat(version, BehindVersion(layout, instance));
    ExtraConcat(named, version + TextsBehindVersion(instance));
    ExtraConcat(version, TextsBehindVersion(instance));
  }

  lemma ModeLines()
    ensures ExtraLines([APP_ENV]) == []
  {
    hide Extra;
    ExtraOne(APP_ENV);
    OneLine(APP_ENV.1);
  }

  lemma GatewayImageKey()
    ensures IsKey("CODE_EXECUTION_GATEWAY_IMAGE")
  {}

  lemma InstanceKey()
    ensures IsKey("CODE_EXECUTION_INSTANCE_ID")
  {}

  lemma AliasKey()
    ensures IsKey("CODE_EXECUTION_NETWORK_ALIAS")
  {}

  lemma NamedKeys(instance: Instance)
    ensures Lacks(NamedSettings(instance), API_KEYS)
  {
    hide IsKey, IMAGES;
    GatewayImageKey();
    InstanceKey();
    AliasKey();
    assert |API_KEYS| == 8;
  }

  lemma ProjectKeys(instance: Instance)
    ensures Lacks([ProjectSetting(instance)], API_KEYS) && Lacks([ProjectSetting(instance)], CODE_EXECUTION_VERSION)
  {}

  lemma SandboxKeys(instance: Instance)
    ensures Lacks(SandboxTexts(instance), API_KEYS) && Lacks(SandboxTexts(instance), CODE_EXECUTION_VERSION)
  {
    hide IMAGES;
  }

  lemma VersionKey()
    ensures IsKey(CODE_EXECUTION_VERSION) && CODE_EXECUTION_VERSION != API_KEYS
  {}

  lemma CalmLacks(table: Table)
    requires AllCalm(table)
    ensures Lacks(table, API_KEYS) && Lacks(table, CODE_EXECUTION_VERSION)
  {
    hide IsKey;
    forall i | 0 <= i < |table|
      ensures IsKey(table[i].0) && table[i].0 != API_KEYS && table[i].0 != CODE_EXECUTION_VERSION
    {
      assert Calm(table[i]);
    }
  }

  lemma LacksConcat(a: Table, b: Table, key: string)
    requires Lacks(a, key) && Lacks(b, key)
    ensures Lacks(a + b, key)
  {
    hide IsKey;
  }

  lemma BehindVersionKeys(layout: Layout, instance: Instance, key: string)
    requires Fits(layout) && key in {API_KEYS, CODE_EXECUTION_VERSION}
    ensures Lacks(BehindVersion(layout, instance), key)
  {
    hide Lacks, MiddleSettings, LastSettings, SandboxTexts, ProjectSetting, Fits, AllCalm;
    ProjectKeys(instance);
    SandboxKeys(instance);
    MiddleIsCalm(layout, instance);
    CalmLacks(MiddleSettings(layout, instance));
    CalmLacks(LastSettings(layout, instance));
    LacksConcat(SandboxTexts(instance), LastSettings(layout, instance), key);
    LacksConcat(MiddleSettings(layout, instance), SandboxTexts(instance) + LastSettings(layout, instance), key);
    LacksConcat([ProjectSetting(instance)],
                  MiddleSettings(layout, instance) + (SandboxTexts(instance) + LastSettings(layout, instance)), key);
  }

  lemma LacksOne(entry: (string, string), key: string)
    requires IsKey(entry.0) && entry.0 != key
    ensures Lacks([entry], key)
  {
    hide IsKey;
  }

  lemma BehindKeyKeys(layout: Layout, instance: Instance)
    requires Fits(layout)
    ensures Lacks(BehindKey(layout, instance), API_KEYS)
  {
    hide Lacks, NamedSettings, BehindVersion, Fits, IsKey, API_KEYS, CODE_EXECUTION_VERSION, APP_ENV;
    var rest := [VersionSetting(instance)] + BehindVersion(layout, instance);
    VersionKey();
    ModeIsCalm();
    LacksOne(APP_ENV, API_KEYS);
    LacksOne(VersionSetting(instance), API_KEYS);
    NamedKeys(instance);
    BehindVersionKeys(layout, instance, API_KEYS);
    LacksConcat([VersionSetting(instance)], BehindVersion(layout, instance), API_KEYS);
    LacksConcat(NamedSettings(instance), rest, API_KEYS);
    LacksConcat([APP_ENV], NamedSettings(instance) + rest, API_KEYS);
  }

  // ------------------------------------------------------------ what is read back

  /** The value that a broken line behind the API key assigns to it. */
  function ForeignKey(layout: Layout, instance: Instance): Option<string> {
    LastOf(layout.q, ExtraLines(TextsBehindKey(instance)), API_KEYS)
  }

  function ForeignVersion(layout: Layout, instance: Instance): Option<string> {
    LastOf(layout.q, ExtraLines(TextsBehindVersion(instance)), CODE_EXECUTION_VERSION)
  }

  /** The entry's texts leave the secret alone, and a line can hold it. */
  predicate KeepsKey(layout: Layout, instance: Instance, secret: string) {
    match ForeignKey(layout, instance)
    case Some(value) => KeyIn(value) == secret
    case None => Survives(secret)
  }

  predicate KeepsVersion(layout: Layout, instance: Instance) {
    match ForeignVersion(layout, instance)
    case Some(value) => value == instance.version
    case None => Held(instance.version)
  }

  /**
   The secret read from a rendered file is the one written, if and only if a
   line can hold it and no line feed in the entry's id, version or memory
   starts a line that assigns another one.
   */
  lemma SecretReadsBack(layout: Layout, instance: Instance, secret: string)
    requires Fits(layout)
    ensures Secret(layout, Serialize(layout, instance, secret)) == secret <==> KeepsKey(layout, instance, secret)
  {
    hide Documented, AllCalm, BehindKey, FirstSettings, TextsBehindKey, ExtraLines, LastOf, Render, ParseEnvContent, KeyIn,
         Survives, API_KEYS, LAUNCHER, Lacks, ApiKey;
    BehindKeyKeys(layout, instance);
    LinesBehindKey(layout, instance);
    ApiKeyRoundTrip(layout.q, FirstSettings(instance), secret, BehindKey(layout, instance));
  }

  lemma SettingsAround(layout: Layout, instance: Instance, secret: string) returns (before: Table)
    ensures Settings(layout, instance, secret)
         == before + ([(CODE_EXECUTION_VERSION, instance.version)] + BehindVersion(layout, instance))
  {
    hide FirstSettings, NamedSettings, BehindVersion, APP_ENV, API_KEYS, LAUNCHER, CODE_EXECUTION_VERSION;
    var rest := [VersionSetting(instance)] + BehindVersion(layout, instance);
    before := FirstSettings(instance) + ([(API_KEYS, LAUNCHER + secret)] + ([APP_ENV] + NamedSettings(instance)));
    assert Settings(layout, instance, secret) == before + rest;
  }

  /** The version read from a rendered file is the entry's, if and only if its texts keep it. */
  lemma VersionReadsBack(layout: Layout, instance: Instance, secret: string)
    requires Fits(layout)
    ensures VersionRead(layout, Serialize(layout, instance, secret)) == instance.version <==> KeepsVersion(layout, instance)
  {
    hide Documented, AllCalm, BehindVersion, Settings, TextsBehindVersion, ExtraLines, LastOf, Render, ParseEnvContent,
         Held, CODE_EXECUTION_VERSION, Lacks, IsKey, API_KEYS, OwnValue;
    var before := SettingsAround(layout, instance, secret);
    VersionKey();
    BehindVersionKeys(layout, instance, CODE_EXECUTION_VERSION);
    LinesBehindVersion(layout, instance);
    FileValue(layout.q, before, CODE_EXECUTION_VERSION, instance.version, BehindVersion(layout, instance));
    OwnValueIsHeld(layout.q, CODE_EXECUTION_VERSION, instance.version);
  }

  // ------------------------------------------------------------ entries that break no line

  /** No text of the entry holds a line feed, and its version fits on a line. */
  predicate Sound(instance: Instance) {
    '\n' !in instance.id && '\n' !in instance.version && '\n' !in instance.memory && Held(instance.version)
  }

  lemma SoundTexts(instance: Instance)
    requires '\n' !in instance.id && '\n' !in instance.version && '\n' !in instance.memory
    ensures ExtraLines(TextsBehindVersion(instance)) == [] && ExtraLines(TextsBehindKey(instance)) == []
  {
    hide Extra, ExtraLines, NeedsQuotes;
    SoundValues(instance);
    ExtraConcat([ProjectSetting(instance)], SandboxTexts(instance));
    ExtraConcat([SandboxTexts(instance)[0]], [SandboxTexts(instance)[1]]);
    ExtraOne(ProjectSetting(instance));
    ExtraOne(SandboxTexts(instance)[0]);
    ExtraOne(SandboxTexts(instance)[1]);
    assert SandboxTexts(instance) == [SandboxTexts(instance)[0]] + [SandboxTexts(instance)[1]];
    NamedTexts(instance);
    ExtraOne(VersionSetting(instance));
    ExtraConcat([VersionSetting(instance)], TextsBehindVersion(instance));
    ExtraConcat(NamedSettings(instance), [VersionSetting(instance)] + TextsBehindVersion(instance));
  }

  lemma PrefixedIsOneLine(prefix: string, value: string)
    requires '\n' !in prefix && '\n' !in value
    ensures Extra(prefix + value) == []
  {
    hide Extra;
    OneLine(prefix + value);
  }

  lemma ImageIsOneLine(name: string, version: string)
    requires '\n' !in name && '\n' !in version
    ensures Extra(IMAGES + (name + version)) == []
  {
    hide Extra, IMAGES;
    NoBreakInImages();
    PrefixedIsOneLine(IMAGES, name + version);
  }

  lemma NoBreakInImages()
    ensures '\n' !in IMAGES
  {}

  lemma SoundValues(instance: Instance)
    requires '\n' !in instance.id && '\n' !in instance.version && '\n' !in instance.memory
    ensures Extra(ProjectSetting(instance).1) == [] && Extra(VersionSetting(instance).1) == []
    ensures Extra(SandboxTexts(instance)[0].1) == [] && Extra(SandboxTexts(instance)[1].1) == []
  {
    hide Extra;
    PrefixedIsOneLine("omlorix-codeexec-", instance.id);
    ImageIsOneLine("sandbox:", instance.version);
    OneLine(instance.version);
    OneLine(instance.memory);
  }

  lemma NamedTexts(instance: Instance)
    requires '\n' !in instance.id && '\n' !in instance.version
    ensures ExtraLines(NamedSettings(instance)) == []
  {
    hide Extra, ExtraLines;
    var s := NamedSettings(instance);
    ImageIsOneLine("gateway:", instance.version);
    PrefixedIsOneLine("codeexec-", instance.id);
    OneLine(instance.id);
    ExtraOne(s[0]);
    ExtraOne(s[1]);
    ExtraOne(s[2]);
    assert s == [s[0]] + ([s[1]] + [s[2]]);
    ExtraConcat([s[0]], [s[1]] + [s[2]]);
    ExtraConcat([s[1]], [s[2]]);
  }

  /** Such an entry is read back: its version always, the secret if a line can hold it. */
  lemma SoundReadsBack(layout: Layout, instance: Instance)
    requires '\n' !in instance.id && '\n' !in instance.version && '\n' !in instance.memory
    ensures forall secret :: KeepsKey(layout, instance, secret) <==> Survives(secret)
    ensures KeepsVersion(layout, instance) <==> Held(instance.version)
  {
    hide TextsBehindVersion, TextsBehindKey, Survives, Held, KeyIn, API_KEYS, CODE_EXECUTION_VERSION, ParseLine;
    SoundTexts(instance);
  }

  // ------------------------------------------------------------ an entry that brings its own key

  /** A memory text whose second line assigns `value` to the API key. */
  predicate BringsKey(instance: Instance, first: string, value: string) {
    && '\n' !in instance.id && '\n' !in instance.version && '\n' !in first && '\n' !in value
    && instance.memory == first + (['\n'] + (API_KEYS + (['='] + value))) && !NeedsQuotes(instance.memory)
  }

  lemma BringingLines(instance: Instance, first: string, value: string)
    requires BringsKey(instance, first, value)
    ensures Extra(instance.memory) == [API_KEYS + (['='] + value)]
  {
    hide SplitLines, NeedsQuotes, IsKey, API_KEYS;
    var line := API_KEYS + (['='] + value);
    KeyShape();
    KeyIsOneLine(value);
    SplitOne(first);
    SplitOne(line);
    SplitConcat(first, line);
    assert ([first] + [line])[1..] == [line];
  }

  lemma KeyIsOneLine(value: string)
    requires '\n' !in value
    ensures '\n' !in API_KEYS + (['='] + value)
  {}

  lemma BringingTexts(instance: Instance, first: string, value: string)
    requires BringsKey(instance, first, value)
    ensures ExtraLines(TextsBehindKey(instance)) == [API_KEYS + (['='] + value)]
  {
    hide Extra, ExtraLines, NeedsQuotes, API_KEYS, IMAGES;
    var sandbox := SandboxTexts(instance);
    BringingLines(instance, first, value);
    NamedTexts(instance);
    OneLine(instance.version);
    PrefixedIsOneLine("omlorix-codeexec-", instance.id);
    ImageIsOneLine("sandbox:", instance.version);
    ExtraOne(VersionSetting(instance));
    ExtraOne(ProjectSetting(instance));
    ExtraOne(sandbox[0]);
    ExtraOne(sandbox[1]);
    assert sandbox == [sandbox[0]] + [sandbox[1]];
    ExtraConcat([sandbox[0]], [sandbox[1]]);
    ExtraConcat([ProjectSetting(instance)], sandbox);
    ExtraConcat([VersionSetting(instance)], TextsBehindVersion(instance));
    ExtraConcat(NamedSettings(instance), [VersionSetting(instance)] + TextsBehindVersion(instance));
  }

  lemma PartNeedsNoQuotes(front: string, part: string)
    requires !NeedsQuotes(front + part)
    ensures !NeedsQuotes(part)
  {}

  /** The key read from the file of such an entry is the one it brings, whatever secret was written. */
  lemma BroughtKeyIsRead(layout: Layout, instance: Instance, secret: string, first: string, value: string)
    requires Fits(layout) && BringsKey(instance, first, value)
    ensures KeepsKey(layout, instance, secret) <==> KeyIn(TrimSpace(value)) == secret
  {
    hide Fits, NeedsQuotes, API_KEYS, LAUNCHER, TextsBehindKey, ExtraLines, TrimSpace, TrimRight, UnquoteEnv,
         StripInlineComment, IsKey, KeyIn, ParseLine, Survives;
    var line := API_KEYS + (['='] + value);
    BringingTexts(instance, first, value);
    KeyShape();
    EntryParses(layout.q, API_KEYS, value);
    var front := first + (['\n'] + (API_KEYS + ['=']));
    assert instance.memory == front + value;
    PartNeedsNoQuotes(front, value);
    BareReads(layout.q, value);
    AssignedBy(layout.q, line, API_KEYS);
    LastOfCons(layout.q, line, [], API_KEYS);
    assert [line] + [] == [line];
  }

  // ------------------------------------------------------------ semantic versions fit on a line

  lemma CutParts(s: string, c: char)
    ensures Cut(s, c).Some? ==> s == Cut(s, c).value.0 + ([c] + Cut(s, c).value.1)
  {
    hide Find;
  }

  lemma NumberChars(s: string)
    requires IsNumber(s)
    ensures forall c :: c in s ==> IsVersionChar(c)
  {}

  lemma LastPartChars(s: string)
    requires IsLastPart(s)
    ensures s != [] && forall c :: c in s ==> IsVersionChar(c)
  {
    hide IsNumber, Cut;
    CutParts(s, '-');
    if Cut(s, '-').None? {
      NumberChars(s);
      NumberIsNotEmpty(s);
    } else {
      NumberChars(Cut(s, '-').value.0);
    }
  }

  lemma NumberIsNotEmpty(s: string)
    requires IsNumber(s)
    ensures s != []
  {}

  lemma VersionChars(s: string)
    requires SemanticVersion(s)
    ensures s != [] && forall c :: c in s ==> IsVersionChar(c)
  {
    hide IsNumber, Cut, IsLastPart;
    CutParts(s, '.');
    var major, rest := Cut(s, '.').value.0, Cut(s, '.').value.1;
    CutParts(rest, '.');
    NumberChars(major);
    NumberChars(Cut(rest, '.').value.0);
    LastPartChars(Cut(rest, '.').value.1);
  }

  /** A semantic version fits on a line. */
  lemma SemanticVersionIsHeld(s: string)
    requires SemanticVersion(s)
    ensures Held(s) && '\n' !in s
  {
    hide SemanticVersion;
    VersionChars(s);
    assert s[0] in s && s[|s| - 1] in s;
  }
}
