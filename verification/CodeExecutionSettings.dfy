/** What Compose finds in the environment file of an instance: the choices and the numbers of its entry. */
module CodeExecutionSettings {
  import opened JsStrings
  import opened GoDotenv
  import opened GoDotenvProofs
  import opened CodeExecutionEnv

  // ------------------------------------------------------------ numbers

  /** The value of decimal digits, read from the left. */
  function Decimal(s: string): int {
    if s == [] then 0 else 10 * Decimal(s[..|s| - 1]) + (s[|s| - 1] as int - '0' as int)
  }

  function ReadNumber(s: string): int {
    if s != [] && s[0] == '-' then -Decimal(s[1..]) else Decimal(s)
  }

  lemma {:induction false} DecimalOfDigits(n: nat)
    ensures Decimal(Digits(n)) == n && Digits(n) != [] && Digits(n)[0] != '-'
    decreases n
  {
    if n >= 10 {
      DecimalOfDigits(n / 10);
      assert Digits(n)[..|Digits(n)| - 1] == Digits(n / 10);
    } else {
      assert Digits(n)[..0] == [];
    }
  }

  /** A number is written as its decimal digits, with a minus sign if it is negative. */
  lemma NumberIsWritten(n: int)
    ensures ReadNumber(Itoa(n)) == n && '\n' !in Itoa(n) && Held(Itoa(n))
    ensures Itoa(n) != [] && (Itoa(n)[0] == '-' <==> n < 0)
  {
    var m: nat := if n < 0 then -n else n;
    DecimalOfDigits(m);
    DigitsAreDigits(m);
    assert n < 0 ==> Itoa(n)[1..] == Digits(m);
    assert Itoa(n)[0] in Itoa(n) && Itoa(n)[|Itoa(n)| - 1] in Itoa(n);
    DigitsAreNoSpace();
  }

  lemma DigitsAreNoSpace()
    ensures forall c :: '0' <= c <= '9' || c == '-' ==> !IsGoSpace(c)
  {}

  // ------------------------------------------------------------ one setting of the file

  ghost predicate DistinctNames(table: Table) {
    forall i, j :: 0 <= i < j < |table| ==> table[i].0 != table[j].0
  }

  ghost predicate OneLineEach(table: Table) {
    forall i :: 0 <= i < |table| ==> '\n' !in table[i].1
  }

  lemma {:induction false} NoExtraLines(table: Table)
    requires OneLineEach(table)
    ensures ExtraLines(table) == []
    decreases |table|
  {
    hide Extra;
    if table != [] {
      OneLine(table[0].1);
      assert forall i :: 0 <= i < |table[1..]| ==> table[1..][i] == table[i + 1];
      NoExtraLines(table[1..]);
    }
  }

  lemma NothingIsLast(q: Quoting, key: string)
    ensures LastOf(q, [], key) == None
  {}

  ghost predicate Named(table: Table) {
    forall i :: 0 <= i < |table| ==> IsKey(table[i].0)
  }

  lemma BehindLacks(table: Table, i: nat)
    requires DistinctNames(table) && Named(table) && i < |table|
    ensures IsKey(table[i].0) && Lacks(table[i + 1..], table[i].0)
  {
    hide IsKey;
    var behind := table[i + 1..];
    assert forall j :: 0 <= j < |behind| ==> behind[j] == table[i + 1 + j];
  }

  lemma BehindIsOneLine(table: Table, i: nat)
    requires OneLineEach(table) && i < |table|
    ensures OneLineEach(table[i + 1..])
  {
    var behind := table[i + 1..];
    assert forall j :: 0 <= j < |behind| ==> behind[j] == table[i + 1 + j];
  }

  /** In a file of distinct names and one-line values, every value that a line can hold is found. */
  lemma SettingIsFound(q: Quoting, table: Table, i: nat)
    requires Documented(q) && DistinctNames(table) && Named(table) && OneLineEach(table)
    requires i < |table| && Held(table[i].1)
    ensures Get(ParseEnvContent(q, Render(q, table)), table[i].0) == Some(table[i].1)
  {
    hide *;
    var before, behind := table[..i], table[i + 1..];
    assert table == before + ([(table[i].0, table[i].1)] + behind);
    BehindLacks(table, i);
    BehindIsOneLine(table, i);
    NoExtraLines(behind);
    NothingIsLast(q, table[i].0);
    SettingReadsBack(q, before, table[i].0, table[i].1, behind);
  }

  // ------------------------------------------------------------ the file of an instance

  /** The file has this setting. */
  ghost predicate Has(table: Table, key: string, value: string) {
    exists i :: 0 <= i < |table| && table[i] == (key, value)
  }

  lemma HasConcat(a: Table, b: Table, key: string, value: string)
    ensures Has(a + b, key, value) <==> Has(a, key, value) || Has(b, key, value)
  {
    if Has(a, key, value) {
      var i :| 0 <= i < |a| && a[i] == (key, value);
      assert (a + b)[i] == (key, value);
    }
    if Has(b, key, value) {
      var i :| 0 <= i < |b| && b[i] == (key, value);
      assert (a + b)[|a| + i] == (key, value);
    }
  }

  lemma HasAt(table: Table, i: nat)
    requires i < |table|
    ensures Has(table, table[i].0, table[i].1)
  {}

  lemma InFirst(layout: Layout, instance: Instance, secret: string, i: nat)
    requires i < |FirstSettings(instance)|
    ensures Has(Settings(layout, instance, secret), FirstSettings(instance)[i].0, FirstSettings(instance)[i].1)
  {
    hide FirstSettings, BehindKey;
    var (key, value) := FirstSettings(instance)[i];
    HasAt(FirstSettings(instance), i);
    HasConcat(FirstSettings(instance), [(API_KEYS, LAUNCHER + secret)] + BehindKey(layout, instance), key, value);
  }

  lemma InBehindKey(layout: Layout, instance: Instance, secret: string, key: string, value: string)
    requires Has(BehindKey(layout, instance), key, value)
    ensures Has(Settings(layout, instance, secret), key, value)
  {
    hide FirstSettings, BehindKey, Has;
    HasConcat([(API_KEYS, LAUNCHER + secret)], BehindKey(layout, instance), key, value);
    HasConcat(FirstSettings(instance), [(API_KEYS, LAUNCHER + secret)] + BehindKey(layout, instance), key, value);
  }

  lemma InNamed(layout: Layout, instance: Instance, key: string, value: string)
    requires Has(NamedSettings(instance), key, value)
    ensures Has(BehindKey(layout, instance), key, value)
  {
    hide NamedSettings, BehindVersion, Has;
    var rest := [VersionSetting(instance)] + BehindVersion(layout, instance);
    HasConcat(NamedSettings(instance), rest, key, value);
    HasConcat([APP_ENV], NamedSettings(instance) + rest, key, value);
  }

  lemma InBehindVersion(layout: Layout, instance: Instance, key: string, value: string)
    requires Has(BehindVersion(layout, instance), key, value)
    ensures Has(BehindKey(layout, instance), key, value)
  {
    hide NamedSettings, BehindVersion, Has;
    HasConcat([VersionSetting(instance)], BehindVersion(layout, instance), key, value);
    HasConcat(NamedSettings(instance), [VersionSetting(instance)] + BehindVersion(layout, instance), key, value);
    HasConcat([APP_ENV], NamedSettings(instance) + ([VersionSetting(instance)] + BehindVersion(layout, instance)), key, value);
  }

  lemma InMiddle(layout: Layout, instance: Instance, key: string, value: string)
    requires Has(NumberSettings(instance), key, value) || Has([LifetimeSetting(instance)], key, value)
    ensures Has(MiddleSettings(layout, instance), key, value)
  {
    hide NumberSettings, LifetimeSetting, Has;
    var a := layout.limits + NumberSettings(instance);
    HasConcat(layout.limits, NumberSettings(instance), key, value);
    HasConcat(a, layout.files, key, value);
    HasConcat(a + layout.files, [LifetimeSetting(instance)], key, value);
    HasConcat(a + layout.files + [LifetimeSetting(instance)], layout.shared, key, value);
  }

  lemma InLast(layout: Layout, instance: Instance, key: string, value: string)
    requires Has([NetworkSetting(instance)], key, value) || Has([TimeoutSetting(instance)], key, value)
    ensures Has(LastSettings(layout, instance), key, value)
  {
    hide NetworkSetting, TimeoutSetting, Has;
    var a := [NetworkSetting(instance)] + layout.sandbox;
    HasConcat([NetworkSetting(instance)], layout.sandbox, key, value);
    HasConcat(a, [TimeoutSetting(instance)], key, value);
    HasConcat(a + [TimeoutSetting(instance)], layout.last, key, value);
  }

  lemma InParts(layout: Layout, instance: Instance, key: string, value: string)
    requires Has(MiddleSettings(layout, instance), key, value) || Has(SandboxTexts(instance), key, value)
             || Has(LastSettings(layout, instance), key, value) || Has([ProjectSetting(instance)], key, value)
    ensures Has(BehindVersion(layout, instance), key, value)
  {
    hide MiddleSettings, SandboxTexts, LastSettings, ProjectSetting, Has;
    var a, b, c := MiddleSettings(layout, instance), SandboxTexts(instance), LastSettings(layout, instance);
    HasConcat(b, c, key, value);
    HasConcat(a, b + c, key, value);
    HasConcat([ProjectSetting(instance)], a + (b + c), key, value);
  }

  // ------------------------------------------------------------ the file is well made

  ghost predicate WellMade(table: Table) {
    Named(table) && OneLineEach(table)
  }

  lemma WellMadeConcat(a: Table, b: Table)
    ensures WellMade(a + b) <==> WellMade(a) && WellMade(b)
  {
    hide IsKey;
    assert forall i :: 0 <= i < |a| ==> (a + b)[i] == a[i];
    assert forall i :: 0 <= i < |b| ==> (a + b)[|a| + i] == b[i];
  }

  lemma CalmIsWellMade(table: Table)
    requires AllCalm(table)
    ensures WellMade(table)
  {
    hide IsKey;
  }

  lemma HostsKey()
    ensures IsKey("ALLOWED_HOSTS")
  {}

  lemma PipKey()
    ensures IsKey("ALLOW_PIP_INSTALLS")
  {}

  lemma ProxyKey()
    ensures IsKey("ALLOW_RESTRICTED_LOCAL_DOCKER_PROXY")
  {}

  lemma InjectionKey()
    ensures IsKey("ALLOW_SANDBOX_ENV_INJECTION")
  {}

  lemma HostsAreOneLine(id: string)
    requires '\n' !in id
    ensures '\n' !in "127.0.0.1,localhost,gateway,codeexec-" + id
  {
    var hosts := "127.0.0.1,localhost,gateway,codeexec-";
    assert '\n' !in hosts;
  }

  lemma WordsAreOneLine(b: bool)
    ensures '\n' !in FormatBool(b) && '\n' !in "true" && '\n' !in "false"
  {}

  lemma FirstIsWellMade(instance: Instance)
    requires '\n' !in instance.id
    ensures WellMade(FirstSettings(instance))
  {
    hide IsKey, FormatBool;
    HostsKey();
    PipKey();
    ProxyKey();
    InjectionKey();
    HostsAreOneLine(instance.id);
    WordsAreOneLine(instance.allowPip);
  }

  lemma SecretIsWellMade(secret: string)
    requires '\n' !in secret
    ensures WellMade([(API_KEYS, LAUNCHER + secret)])
  {
    hide API_KEYS, LAUNCHER, IsKey;
    KeyShape();
  }

  lemma ImagesAreOneLine(version: string)
    requires '\n' !in version
    ensures '\n' !in IMAGES + ("gateway:" + version) && '\n' !in IMAGES + ("sandbox:" + version)
  {
    assert '\n' !in "gateway:" && '\n' !in "sandbox:" && '\n' !in IMAGES;
  }

  lemma AliasIsOneLine(id: string)
    requires '\n' !in id
    ensures '\n' !in "codeexec-" + id
  {}

  lemma NamedIsWellMade(instance: Instance)
    requires '\n' !in instance.id && '\n' !in instance.version
    ensures WellMade(NamedSettings(instance))
  {
    hide IsKey, IMAGES;
    GatewayImageKey();
    InstanceKey();
    AliasKey();
    ImagesAreOneLine(instance.version);
    AliasIsOneLine(instance.id);
  }

  lemma VersionIsWellMade(instance: Instance)
    requires '\n' !in instance.version
    ensures WellMade([VersionSetting(instance)])
  {}

  lemma ProjectIsWellMade(instance: Instance)
    requires '\n' !in instance.id
    ensures WellMade([ProjectSetting(instance)])
  {}

  lemma SandboxKeys()
    ensures IsKey("SANDBOX_IMAGE") && IsKey("SANDBOX_MEM_LIMIT")
  {}

  lemma TextsAreWellMade(instance: Instance)
    requires '\n' !in instance.version && '\n' !in instance.memory
    ensures WellMade(SandboxTexts(instance))
  {
    hide IsKey, IMAGES;
    SandboxKeys();
    ImagesAreOneLine(instance.version);
  }

  lemma ModeIsWellMade()
    ensures WellMade([APP_ENV])
  {}

  lemma FileIsWellMade(layout: Layout, instance: Instance, secret: string)
    requires Fits(layout) && Sound(instance) && '\n' !in secret
    ensures WellMade(Settings(layout, instance, secret))
  {
    hide Documented, Held, MiddleSettings, LastSettings, FirstSettings, NamedSettings, SandboxTexts, WellMade, AllCalm,
         VersionSetting, ProjectSetting, APP_ENV, API_KEYS, LAUNCHER;
    var middle, texts, last := MiddleSettings(layout, instance), SandboxTexts(instance), LastSettings(layout, instance);
    MiddleIsCalm(layout, instance);
    CalmIsWellMade(middle);
    CalmIsWellMade(last);
    FirstIsWellMade(instance);
    SecretIsWellMade(secret);
    NamedIsWellMade(instance);
    VersionIsWellMade(instance);
    ProjectIsWellMade(instance);
    TextsAreWellMade(instance);
    ModeIsWellMade();
    WellMadeConcat(texts, last);
    WellMadeConcat(middle, texts + last);
    WellMadeConcat([ProjectSetting(instance)], middle + (texts + last));
    var behind := BehindVersion(layout, instance);
    WellMadeConcat([VersionSetting(instance)], behind);
    WellMadeConcat(NamedSettings(instance), [VersionSetting(instance)] + behind);
    WellMadeConcat([APP_ENV], NamedSettings(instance) + ([VersionSetting(instance)] + behind));
    WellMadeConcat([(API_KEYS, LAUNCHER + secret)], BehindKey(layout, instance));
    WellMadeConcat(FirstSettings(instance), [(API_KEYS, LAUNCHER + secret)] + BehindKey(layout, instance));
  }

  // ------------------------------------------------------------ what is found

  /** The value found under a name in the file of an instance. */
  function Found(layout: Layout, instance: Instance, secret: string, key: string): Option<string> {
    Get(ParseEnvContent(layout.q, Serialize(layout, instance, secret)), key)
  }

  lemma IsFound(layout: Layout, instance: Instance, secret: string, key: string, value: string)
    requires Fits(layout) && Sound(instance) && '\n' !in secret && DistinctNames(Settings(layout, instance, secret))
    requires Has(Settings(layout, instance, secret), key, value) && Held(value)
    ensures Found(layout, instance, secret, key) == Some(value)
  {
    hide Sound, AllCalm, Documented, Held, Settings, DistinctNames, ParseEnvContent, Render, Get, Named, OneLineEach;
    var table := Settings(layout, instance, secret);
    FileIsWellMade(layout, instance, secret);
    var i :| 0 <= i < |table| && table[i] == (key, value);
    SettingIsFound(layout.q, table, i);
  }

  lemma WordsAreHeld()
    ensures Held("true") && Held("false") && Held("bridge") && Held("none")
  {}

  /** The port and the limits of an entry are found as numbers: sessions and lifetimes have a least value. */
  lemma NumbersAreFound(layout: Layout, instance: Instance, secret: string)
    requires Fits(layout) && Sound(instance) && '\n' !in secret && DistinctNames(Settings(layout, instance, secret))
    ensures Found(layout, instance, secret, "GATEWAY_PORT") == Some(Itoa(instance.port))
    ensures Found(layout, instance, secret, "MAX_CONCURRENT_EXECUTIONS") == Some(Itoa(instance.maxConcurrent))
    ensures Found(layout, instance, secret, "MAX_ACTIVE_SESSIONS")
         == Some(Itoa(if instance.maxConcurrent < 2 then 20 else 10 * instance.maxConcurrent))
    ensures Found(layout, instance, secret, "SESSION_TIMEOUT_SECONDS") == Some(Itoa(instance.sessionTimeout))
    ensures Found(layout, instance, secret, "MAX_SESSION_LIFETIME_SECONDS")
         == Some(Itoa(if instance.sessionTimeout < 60 * 60 then 60 * 60 else instance.sessionTimeout))
  {
    hide Sound, Fits, DistinctNames, Found, Held, Itoa, Settings, BehindKey, BehindVersion, MiddleSettings, LastSettings;
    var numbers := NumberSettings(instance);
    forall i | 0 <= i < |numbers|
      ensures Found(layout, instance, secret, numbers[i].0) == Some(numbers[i].1)
    {
      NumbersAreItoa(instance, i);
      HasAt(numbers, i);
      InMiddle(layout, instance, numbers[i].0, numbers[i].1);
      InParts(layout, instance, numbers[i].0, numbers[i].1);
      InBehindVersion(layout, instance, numbers[i].0, numbers[i].1);
      InBehindKey(layout, instance, secret, numbers[i].0, numbers[i].1);
      IsFound(layout, instance, secret, numbers[i].0, numbers[i].1);
    }
    assert numbers[0].0 == "GATEWAY_PORT" && numbers[1].0 == "MAX_ACTIVE_SESSIONS" && numbers[2].0 == "MAX_CONCURRENT_EXECUTIONS";
    LifetimeIsFound(layout, instance, secret);
    TimeoutIsFound(layout, instance, secret);
  }

  lemma NumbersAreItoa(instance: Instance, i: nat)
    requires i < |NumberSettings(instance)|
    ensures Held(NumberSettings(instance)[i].1)
  {
    hide Itoa, Held;
    NumberIsWritten(instance.port);
    NumberIsWritten(Max(instance.maxConcurrent * 10, 20));
    NumberIsWritten(instance.maxConcurrent);
  }

  lemma LifetimeIsFound(layout: Layout, instance: Instance, secret: string)
    requires Fits(layout) && Sound(instance) && '\n' !in secret && DistinctNames(Settings(layout, instance, secret))
    ensures Found(layout, instance, secret, "MAX_SESSION_LIFETIME_SECONDS")
         == Some(Itoa(if instance.sessionTimeout < 60 * 60 then 60 * 60 else instance.sessionTimeout))
  {
    hide Sound, Fits, DistinctNames, Found, Held, Itoa, Settings, BehindKey, BehindVersion, MiddleSettings, LastSettings;
    var (key, value) := LifetimeSetting(instance);
    NumberIsWritten(Max(instance.sessionTimeout, 3600));
    HasAt([LifetimeSetting(instance)], 0);
    InMiddle(layout, instance, key, value);
    InParts(layout, instance, key, value);
    InBehindVersion(layout, instance, key, value);
    InBehindKey(layout, instance, secret, key, value);
    IsFound(layout, instance, secret, key, value);
  }

  lemma TimeoutIsFound(layout: Layout, instance: Instance, secret: string)
    requires Fits(layout) && Sound(instance) && '\n' !in secret && DistinctNames(Settings(layout, instance, secret))
    ensures Found(layout, instance, secret, "SESSION_TIMEOUT_SECONDS") == Some(Itoa(instance.sessionTimeout))
  {
    hide Sound, Fits, DistinctNames, Found, Held, Itoa, Settings, BehindKey, BehindVersion, MiddleSettings, LastSettings;
    var (key, value) := TimeoutSetting(instance);
    NumberIsWritten(instance.sessionTimeout);
    HasAt([TimeoutSetting(instance)], 0);
    InLast(layout, instance, key, value);
    InParts(layout, instance, key, value);
    InBehindVersion(layout, instance, key, value);
    InBehindKey(layout, instance, secret, key, value);
    IsFound(layout, instance, secret, key, value);
  }

  /** Network access and package installation are found as they were chosen. */
  lemma ChoicesAreFound(layout: Layout, instance: Instance, secret: string)
    requires Fits(layout) && Sound(instance) && '\n' !in secret && DistinctNames(Settings(layout, instance, secret))
    ensures Found(layout, instance, secret, "ALLOW_PIP_INSTALLS") == Some(if instance.allowPip then "true" else "false")
    ensures Found(layout, instance, secret, "SANDBOX_NETWORK_MODE") == Some(if instance.networkAccess then "bridge" else "none")
  {
    hide Sound, Fits, DistinctNames, Found, Held, Settings, BehindKey, BehindVersion, MiddleSettings, LastSettings;
    WordsAreHeld();
    InFirst(layout, instance, secret, 1);
    IsFound(layout, instance, secret, FirstSettings(instance)[1].0, FirstSettings(instance)[1].1);
    var (key, value) := NetworkSetting(instance);
    HasAt([NetworkSetting(instance)], 0);
    InLast(layout, instance, key, value);
    InParts(layout, instance, key, value);
    InBehindVersion(layout, instance, key, value);
    InBehindKey(layout, instance, secret, key, value);
    IsFound(layout, instance, secret, key, value);
  }

  /** The memory limit and the images of an entry are found, for texts that a line can hold. */
  lemma TextsAreFound(layout: Layout, instance: Instance, secret: string)
    requires Fits(layout) && Sound(instance) && '\n' !in secret && DistinctNames(Settings(layout, instance, secret))
    ensures var gateway := "ghcr.io/phinaldoo/omlorix-code-execution-gateway:" + instance.version;
            Held(gateway) ==> Found(layout, instance, secret, "CODE_EXECUTION_GATEWAY_IMAGE") == Some(gateway)
    ensures var sandbox := "ghcr.io/phinaldoo/omlorix-code-execution-sandbox:" + instance.version;
            Held(sandbox) ==> Found(layout, instance, secret, "SANDBOX_IMAGE") == Some(sandbox)
    ensures Held(instance.memory) ==> Found(layout, instance, secret, "SANDBOX_MEM_LIMIT") == Some(instance.memory)
  {
    hide Sound, Fits, DistinctNames, Found, Held, Settings, BehindKey, BehindVersion, MiddleSettings, LastSettings;
    var named, texts := NamedSettings(instance), SandboxTexts(instance);
    assert named[0].1 == "ghcr.io/phinaldoo/omlorix-code-execution-gateway:" + instance.version;
    assert texts[0].1 == "ghcr.io/phinaldoo/omlorix-code-execution-sandbox:" + instance.version;
    HasAt(named, 0);
    InNamed(layout, instance, named[0].0, named[0].1);
    InBehindKey(layout, instance, secret, named[0].0, named[0].1);
    if Held(named[0].1) {
      IsFound(layout, instance, secret, named[0].0, named[0].1);
    }
    forall i | 0 <= i < |texts| && Held(texts[i].1)
      ensures Found(layout, instance, secret, texts[i].0) == Some(texts[i].1)
    {
      HasAt(texts, i);
      InParts(layout, instance, texts[i].0, texts[i].1);
      InBehindVersion(layout, instance, texts[i].0, texts[i].1);
      InBehindKey(layout, instance, secret, texts[i].0, texts[i].1);
      IsFound(layout, instance, secret, texts[i].0, texts[i].1);
    }
    assert texts[0].0 == "SANDBOX_IMAGE" && texts[1].0 == "SANDBOX_MEM_LIMIT";
  }

  // ------------------------------------------------------------ versions that are accepted

  /** Zero, or digits that do not begin with it. */
  predicate IsPlainNumber(s: string) {
    s == "0" || (s != [] && '1' <= s[0] <= '9' && forall i :: 0 <= i < |s| ==> '0' <= s[i] <= '9')
  }

  predicate IsTail(s: string) {
    s == [] || (|s| > 1 && s[0] == '-' && forall i :: 1 <= i < |s| ==>
      'a' <= s[i] <= 'z' || 'A' <= s[i] <= 'Z' || '0' <= s[i] <= '9' || s[i] == '.' || s[i] == '-')
  }

  lemma PlainExactly(s: string)
    ensures IsNumber(s) <==> IsPlainNumber(s)
    ensures IsNumber(s) ==> '.' !in s && '-' !in s && s != []
  {
    if IsNumber(s) && s[0] == '0' {
      assert s == "0";
    }
  }

  lemma TailExactly(patch: string, tail: string)
    requires IsPlainNumber(patch) && IsTail(tail)
    ensures IsLastPart(patch + tail)
  {
    hide IsNumber, IsPlainNumber;
    PlainExactly(patch);
    if tail == [] {
      assert patch + tail == patch;
      NoCut(patch, '-');
    } else {
      CutAt(patch, '-', tail[1..]);
      assert patch + tail == patch + (['-'] + tail[1..]);
      assert forall i :: 0 <= i < |tail| - 1 ==> tail[1..][i] == tail[i + 1];
    }
  }

  lemma NoCut(s: string, c: char)
    requires c !in s
    ensures Cut(s, c) == None
  {
    hide Find;
    assert s[..|s|] == s;
    FindIs(s, c, |s|);
  }

  /** Three such numbers with dots between them and an optional tail are a version. */
  lemma PartsAreVersion(major: string, minor: string, patch: string, tail: string)
    requires IsPlainNumber(major) && IsPlainNumber(minor) && IsPlainNumber(patch) && IsTail(tail)
    ensures SemanticVersion(major + (['.'] + (minor + (['.'] + (patch + tail)))))
  {
    hide IsNumber, IsPlainNumber, IsLastPart, IsTail, Cut;
    PlainExactly(major);
    PlainExactly(minor);
    TailExactly(patch, tail);
    CutAt(major, '.', minor + (['.'] + (patch + tail)));
    CutAt(minor, '.', patch + tail);
  }

  lemma LastHasParts(s: string) returns (patch: string, tail: string)
    requires IsLastPart(s)
    ensures IsPlainNumber(patch) && IsTail(tail) && s == patch + tail
  {
    hide IsNumber, IsPlainNumber, Cut;
    CutParts(s, '-');
    match Cut(s, '-')
    case None =>
      patch, tail := s, [];
      PlainExactly(patch);
      assert patch + tail == s;
    case Some((number, prerelease)) =>
      patch, tail := number, ['-'] + prerelease;
      PlainExactly(patch);
      assert forall i :: 1 <= i < |tail| ==> tail[i] == prerelease[i - 1];
  }

  /** Every version that is accepted is made that way. */
  lemma VersionHasParts(s: string) returns (major: string, minor: string, patch: string, tail: string)
    requires SemanticVersion(s)
    ensures IsPlainNumber(major) && IsPlainNumber(minor) && IsPlainNumber(patch) && IsTail(tail)
    ensures s == major + (['.'] + (minor + (['.'] + (patch + tail))))
  {
    hide IsNumber, IsPlainNumber, IsLastPart, IsTail, Cut;
    var rest := Cut(s, '.').value.1;
    major, minor := Cut(s, '.').value.0, Cut(rest, '.').value.0;
    CutParts(s, '.');
    CutParts(rest, '.');
    PlainExactly(major);
    PlainExactly(minor);
    patch, tail := LastHasParts(Cut(rest, '.').value.1);
  }
}
