/** Derived topology settings and the canonical environment file of electron/server-manager.js. */
module EnvTopology {
  import opened JsStrings
  import opened TextLines
  import opened Dotenv
  import JsonStrings

  const USE_BUNDLED_DB := Js("OMLORIX_USE_BUNDLED_DB")
  const USE_PGBOUNCER := Js("OMLORIX_USE_PGBOUNCER")
  const USE_BUNDLED_REDIS := Js("OMLORIX_USE_BUNDLED_REDIS")
  const USE_BUNDLED_STORAGE := Js("OMLORIX_USE_BUNDLED_STORAGE")
  const DATABASE_URL := Js("DATABASE_URL")
  const DATABASE_HOST_OVERRIDE := Js("DATABASE_HOST_OVERRIDE")
  const DATABASE_PORT_OVERRIDE := Js("DATABASE_PORT_OVERRIDE")
  const MIGRATION_HOST_OVERRIDE := Js("DATABASE_MIGRATION_HOST_OVERRIDE")
  const MIGRATION_PORT_OVERRIDE := Js("DATABASE_MIGRATION_PORT_OVERRIDE")
  const STORAGE_PROVIDER := Js("FILE_STORAGE_PROVIDER")
  const REDIS_ENABLED := Js("REDIS_ENABLED")
  const REDIS_PASSWORD := Js("REDIS_PASSWORD")
  const REDIS_URL := Js("REDIS_URL")

  const PROXY_PREFIX := Js("OMLORIX_LAUNCHER_PROXY_")
  const PROXY_ENABLED := PROXY_PREFIX + Js("ENABLED")
  const PROXY_AUTOSTART := PROXY_PREFIX + Js("AUTOSTART")
  const PROXY_BIND := PROXY_PREFIX + Js("BIND")
  const PROXY_PUBLIC_HOSTNAME := PROXY_PREFIX + Js("PUBLIC_HOSTNAME")
  const PROXY_HTTP_PORT := PROXY_PREFIX + Js("HTTP_PORT")
  const PROXY_HTTPS_ENABLED := PROXY_PREFIX + Js("HTTPS_ENABLED")
  const PROXY_HTTPS_PORT := PROXY_PREFIX + Js("HTTPS_PORT")
  const PROXY_REDIRECT_HTTP_TO_HTTPS := PROXY_PREFIX + Js("REDIRECT_HTTP_TO_HTTPS")
  const PROXY_TLS_CERT_PATH := PROXY_PREFIX + Js("TLS_CERT_PATH")
  const PROXY_TLS_KEY_PATH := PROXY_PREFIX + Js("TLS_KEY_PATH")
  const PROXY_TLS_CA_PATH := PROXY_PREFIX + Js("TLS_CA_PATH")
  const PROXY_TLS_KEY_PASSPHRASE := PROXY_PREFIX + Js("TLS_KEY_PASSPHRASE")
  const GITHUB_TOKEN := Js("OMLORIX_GITHUB_TOKEN")

  const MANAGED_PROXY_KEYS: set<JsString> := {
    PROXY_ENABLED, PROXY_AUTOSTART, PROXY_BIND,
    PROXY_PUBLIC_HOSTNAME, PROXY_HTTP_PORT, PROXY_HTTPS_ENABLED,
    PROXY_HTTPS_PORT, PROXY_REDIRECT_HTTP_TO_HTTPS, PROXY_TLS_CERT_PATH,
    PROXY_TLS_KEY_PATH, PROXY_TLS_CA_PATH, PROXY_TLS_KEY_PASSPHRASE
  }

  const RETIRED_KEYS: set<JsString> := {GITHUB_TOKEN}

  const FALSE := Js("false")
  const POSTGRES := Js("postgres")
  const PGBOUNCER := Js("pgbouncer")
  const POSTGRES_PORT := Js("5432")
  const S3 := Js("s3")
  const REDIS_URL_START := Js("redis://:")
  const REDIS_URL_END := Js("@redis:6379/0")
  const ONE := Js("1")
  const TRUE := Js("true")
  const YES := Js("yes")
  const ON := Js("on")

  const REMOVED_KEYS: set<JsString> := MANAGED_PROXY_KEYS + RETIRED_KEYS

  function Value(env: Env, key: JsString): JsString {
    if key in env then env[key] else []
  }

  function LowerCase(s: JsString): (r: JsString)
    ensures |r| == |s|
  {
    seq(|s|, i requires 0 <= i < |s| => LowerAscii(s[i]))
  }

  predicate EnvTruthy(value: JsString) {
    LowerCase(Trim(value)) in {ONE, TRUE, YES, ON}
  }

  // ------------------------------------------------------------ percent encoding

  function UpperHexDigit(n: int): CodeUnit
    requires 0 <= n < 16
  {
    if n < 10 then (0x30 + n) as CodeUnit else (0x37 + n) as CodeUnit
  }

  function PercentByte(b: int): JsString
    requires 0 <= b < 0x100
  {
    [0x25, UpperHexDigit(b / 0x10), UpperHexDigit(b % 0x10)]
  }

  /** The UTF-8 bytes of one scalar value, percent-encoded. */
  function PercentScalar(n: int): JsString
    requires 0 <= n < 0x11_0000
  {
    if n < 0x80 then PercentByte(n)
    else if n < 0x800 then PercentByte(0xC0 + n / 0x40) + PercentByte(0x80 + n % 0x40)
    else if n < 0x1_0000 then
      PercentByte(0xE0 + n / 0x1000) + PercentByte(0x80 + n / 0x40 % 0x40) + PercentByte(0x80 + n % 0x40)
    else
      PercentByte(0xF0 + n / 0x4_0000) + PercentByte(0x80 + n / 0x1000 % 0x40)
      + PercentByte(0x80 + n / 0x40 % 0x40) + PercentByte(0x80 + n % 0x40)
  }

  predicate Unreserved(c: CodeUnit) {
    IsLetter(c) || IsDigit(c) || c == HYPHEN || c == UNDERSCORE || c == DOT || c == 0x7E
  }

  /** `encodeUrlComponent`: None where encodeURIComponent throws, on a lone surrogate. */
  function EncodeUrlComponent(s: JsString): Option<JsString>
    decreases |s|
  {
    if s == [] then Some([])
    else if Unreserved(s[0]) then JsonStrings.Prepend(s[0], EncodeUrlComponent(s[1..]))
    else if |s| > 1 && JsonStrings.IsHighSurrogate(s[0]) && JsonStrings.IsLowSurrogate(s[1]) then
      var n := 0x1_0000 + (s[0] as int - 0xD800) * 0x400 + (s[1] as int - 0xDC00);
      match EncodeUrlComponent(s[2..])
      case None => None
      case Some(rest) => Some(PercentScalar(n) + rest)
    else if JsonStrings.IsHighSurrogate(s[0]) || JsonStrings.IsLowSurrogate(s[0]) then None
    else
      match EncodeUrlComponent(s[1..])
      case None => None
      case Some(rest) => Some(PercentScalar(s[0] as int) + rest)
  }

  function LocalRedisUrl(password: JsString): Option<JsString> {
    match EncodeUrlComponent(password)
    case None => None
    case Some(encoded) => Some(REDIS_URL_START + encoded + REDIS_URL_END)
  }

  // ------------------------------------------------------------ topology

  predicate RedisIsEnabled(env: Env) {
    var value := Trim(Value(env, REDIS_ENABLED));
    if value == [] then true else EnvTruthy(value)
  }

  function DatabaseUpdates(env: Env): Entries {
    if !EnvTruthy(Value(env, USE_BUNDLED_DB)) then [(USE_PGBOUNCER, FALSE)]
    else [
      (DATABASE_URL, []),
      (DATABASE_HOST_OVERRIDE,
       if EnvTruthy(Value(env, USE_PGBOUNCER)) then PGBOUNCER else POSTGRES),
      (DATABASE_PORT_OVERRIDE, POSTGRES_PORT),
      (MIGRATION_HOST_OVERRIDE, POSTGRES),
      (MIGRATION_PORT_OVERRIDE, POSTGRES_PORT)
    ]
  }

  function RedisOffUpdates(env: Env): Entries {
    if RedisIsEnabled(env) then [] else [(USE_BUNDLED_REDIS, FALSE)]
  }

  function StorageUpdates(env: Env): Entries {
    if EnvTruthy(Value(env, USE_BUNDLED_STORAGE)) then [(STORAGE_PROVIDER, S3)] else []
  }

  /** None when the password cannot be encoded. */
  function RedisUrlUpdates(env: Env): Option<Entries> {
    var password := Value(env, REDIS_PASSWORD);
    if RedisIsEnabled(env) && EnvTruthy(Value(env, USE_BUNDLED_REDIS)) && password != [] then
      match LocalRedisUrl(password)
      case None => None
      case Some(url) => Some([(REDIS_URL, url)])
    else Some([])
  }

  /** `topologyInvariantUpdates`, with its entries in insertion order. */
  function TopologyInvariantUpdates(env: Env): Option<Entries> {
    match RedisUrlUpdates(env)
    case None => None
    case Some(url) => Some(DatabaseUpdates(env) + RedisOffUpdates(env) + StorageUpdates(env) + url)
  }

  // ------------------------------------------------------------ the file

  /** The text that is written for `raw`, unless deriving it throws. */
  function CanonicalText(raw: JsString): Option<JsString> {
    var environmentOnly := RemoveEnvKeys(raw, REMOVED_KEYS);
    match TopologyInvariantUpdates(ParseEnv(environmentOnly))
    case None => None
    case Some(updates) => Some(TrimEnd(UpdateEnv(environmentOnly, updates)) + [LF])
  }

  class EnvFile {
    var content: JsString

    constructor (initial: JsString)
      ensures content == initial
    {
      content := initial;
    }

    /**
     The last step of every launcher-managed write. `accepts` is the check on
     the security secrets, `diskWorks` whether the atomic replacement succeeds.
     */
    method WriteEnvContent(nextRaw: JsString, accepts: Env -> bool, diskWorks: bool) returns (ok: bool)
      modifies this
      ensures ok <==> diskWorks && CanonicalText(nextRaw).Some? && accepts(ParseEnv(CanonicalText(nextRaw).value))
      ensures ok ==> CanonicalText(nextRaw) == Some(content)
      ensures !ok ==> content == old(content)
    {
      hide RemoveEnvKeys, TopologyInvariantUpdates, ParseEnv, UpdateEnv, TrimEnd;
      var environmentOnly := RemoveEnvKeys(nextRaw, REMOVED_KEYS);
      var environment := ParseEnvContent(environmentOnly);
      var updates := TopologyInvariantUpdates(environment);
      if updates.None? {
        return false;
      }
      var updated := UpdateEnvContent(environmentOnly, updates.value);
      var canonical := TrimEnd(updated) + [LF];
      var written := ParseEnvContent(canonical);
      if !accepts(written) || !diskWorks {
        return false;
      }
      content := canonical;
      return true;
    }
  }
}
