/** Importing a configuration file leaves the launcher's own settings alone. */
module EnvImport {
  import opened JsStrings
  import opened TextLines
  import opened Dotenv
  import opened DotenvProofs
  import opened DotenvEditing
  import opened EnvTopology
  import opened EnvKeys

  const INSTALLATION_ID := Js("OMLORIX_INSTALLATION_ID")
  const ALLOW_PROJECT_ADOPTION := Js("OMLORIX_ALLOW_PROJECT_ADOPTION")
  const UPDATE_CHANNEL := Js("OMLORIX_UPDATE_CHANNEL")
  const BACKEND_IMAGE_REPOSITORY := Js("OMLORIX_BACKEND_IMAGE_REPOSITORY")
  const FRONTEND_IMAGE_REPOSITORY := Js("OMLORIX_FRONTEND_IMAGE_REPOSITORY")
  const FILE_SCANNER_COMMAND := Js("FILE_SCANNER_COMMAND")
  const TRUST_PROXY_HEADERS := Js("FRONTEND_TRUST_PROXY_HEADERS")
  const TRUSTED_UPSTREAMS := Js("FRONTEND_TRUSTED_UPSTREAMS")
  const HTTP_HOST_BIND := Js("FRONTEND_HTTP_HOST_BIND")
  const PROXY_SECRET := PROXY_PREFIX + Js("SECRET")
  const CADDY_HTTP_HOST_PORT := Js("CADDY_HTTP_HOST_PORT")
  const CADDY_HTTPS_HOST_PORT := Js("CADDY_HTTPS_HOST_PORT")
  const HIGHEST_VERSION_USED := Js("OMLORIX_HIGHEST_VERSION_USED")
  const LOOPBACK := Js("127.0.0.1")

  /** The hidden settings that belong to the launcher alone. */
  const KEPT_KEYS: set<JsString> := {
    INSTALLATION_ID, ALLOW_PROJECT_ADOPTION, UPDATE_CHANNEL, BACKEND_IMAGE_REPOSITORY, FRONTEND_IMAGE_REPOSITORY,
    FILE_SCANNER_COMMAND, TRUSTED_UPSTREAMS, PROXY_SECRET, CADDY_HTTP_HOST_PORT, CADDY_HTTPS_HOST_PORT
  }

  /** The hidden settings that are derived, or removed from the file. */
  const EXCEPTED_KEYS: set<JsString> :=
    {TRUST_PROXY_HEADERS, MIGRATION_HOST_OVERRIDE, MIGRATION_PORT_OVERRIDE} + REMOVED_KEYS

  const HIDDEN_KEYS: set<JsString> := KEPT_KEYS + EXCEPTED_KEYS

  function Visible(entries: Entries): (r: Entries)
    decreases |entries|
  {
    if entries == [] then []
    else (if entries[0].0 in HIDDEN_KEYS then [] else [entries[0]]) + Visible(entries[1..])
  }

  /**
   Settings decided by the launcher. Whether an external proxy is trusted is
   read from a hidden key, so it always comes from the live environment.
   */
  function LauncherOwned(live: Env, proxyEnabled: bool): Entries {
    var trusted := proxyEnabled || Trim(Value(live, TRUSTED_UPSTREAMS)) != [];
    [(TRUST_PROXY_HEADERS, if trusted then TRUE else FALSE)]
    + (if proxyEnabled then [(HTTP_HOST_BIND, LOOPBACK)] else [])
  }

  /** A reviewed import: its values, its text, and the hidden entries of the live environment. */
  datatype Import = Import(values: Entries, raw: JsString, protectedEntries: Entries, proxyEnabled: bool)

  /** The text an import starts from: the file itself, or the imported text without the launcher's settings. */
  function ImportStart(live: JsString, request: Import, replaceMissing: bool): JsString {
    if replaceMissing then RemoveEnvKeys(request.raw, HIDDEN_KEYS + {HIGHEST_VERSION_USED}) else live
  }

  /** What is written into it: the launcher's own settings, or the imported values. */
  function ImportEdits(request: Import, replaceMissing: bool): Entries {
    if replaceMissing then request.protectedEntries else Visible(request.values)
  }

  function ImportedRaw(live: JsString, request: Import, replaceMissing: bool): JsString {
    UpdateEnv(ImportStart(live, request, replaceMissing), ImportEdits(request, replaceMissing))
  }

  function NextRaw(live: JsString, request: Import, replaceMissing: bool): JsString {
    UpdateEnv(ImportedRaw(live, request, replaceMissing), LauncherOwned(ParseEnv(live), request.proxyEnabled)) + [LF]
  }

  /** What a preview stores: entries of the parsed file, and of the live environment. */
  ghost predicate WellFormedImport(live: JsString, request: Import) {
    && DistinctKeys(request.values) && IdentifierKeys(ToMap(request.values))
    && DistinctKeys(request.protectedEntries)
    && ToMap(request.protectedEntries) == Restrict(ParseEnv(live), HIDDEN_KEYS)
  }

  method ApplyEnvImport(file: EnvFile, request: Import, replaceMissing: bool, accepts: Env -> bool, diskWorks: bool)
    returns (ok: bool)
    modifies file
    ensures var next := NextRaw(old(file.content), request, replaceMissing);
            if TrimEnd(next) == TrimEnd(old(file.content)) then ok && file.content == old(file.content)
            else
              && (ok <==> diskWorks && CanonicalText(next).Some? && accepts(ParseEnv(CanonicalText(next).value)))
              && if ok then CanonicalText(next) == Some(file.content) else file.content == old(file.content)
  {
    var live := file.content;
    var next := NextRaw(live, request, replaceMissing);
    if TrimEnd(next) == TrimEnd(live) {
      return true;
    }
    ok := file.WriteEnvContent(next, accepts, diskWorks);
  }

  // ------------------------------------------------------------ names

  lemma KeptIsUntouched(k: JsString)
    requires k in KEPT_KEYS
    ensures k !in DERIVED_KEYS && k !in REMOVED_KEYS && k != TRUST_PROXY_HEADERS && k != HTTP_HOST_BIND && k != PROTO
    ensures k !in EXCEPTED_KEYS
  {
    KeptNames(k);
    assert MIGRATION_HOST_OVERRIDE in DERIVED_KEYS && MIGRATION_PORT_OVERRIDE in DERIVED_KEYS;
  }

  lemma KeptNames(k: JsString)
    requires k in KEPT_KEYS
    ensures k !in DERIVED_KEYS && k !in REMOVED_KEYS && k != TRUST_PROXY_HEADERS && k != HTTP_HOST_BIND && k != PROTO
  {
    hide Js;
    KeptIsNotDerived(k);
    KeptIsNotRemoved(k);
    FrontendNames(k);
    KeptIsLong(k);
    assert |PROTO| == 9;
  }

  lemma KeptIsLong(k: JsString)
    requires k in KEPT_KEYS
    ensures |k| > 9
  {}

  lemma FrontendNames(k: JsString)
    ensures k in KEPT_KEYS ==> k != TRUST_PROXY_HEADERS && k != HTTP_HOST_BIND
  {
    assert k in KEPT_KEYS && k[0] as int == 'F' as int ==> |k| == 20 || |k| == 26;
    assert |TRUST_PROXY_HEADERS| == 28 && |HTTP_HOST_BIND| == 23;
    assert TRUST_PROXY_HEADERS[0] as int == 'F' as int && HTTP_HOST_BIND[0] as int == 'F' as int;
  }

  lemma KeptIsNotDerived(k: JsString)
    ensures k in KEPT_KEYS ==> k !in DERIVED_KEYS
  {
    assert k in KEPT_KEYS ==> k[0] as int in {'O' as int, 'F' as int, 'C' as int};
    assert k in DERIVED_KEYS ==> k[0] as int in {'O' as int, 'D' as int, 'F' as int, 'R' as int};
    assert k in KEPT_KEYS && k[0] as int == 'F' as int ==> |k| == 20 || |k| == 26;
    assert k in KEPT_KEYS && k[0] as int == 'O' as int ==> |k| == 22 || k[8] as int != 'U' as int;
  }

  lemma KeptIsNotRemoved(k: JsString)
    ensures k in KEPT_KEYS ==> k !in REMOVED_KEYS
  {
    assert k in REMOVED_KEYS ==> k[0] as int == 'O' as int && (k[8] as int == 'G' as int || k[8] as int == 'L' as int);
    assert k in REMOVED_KEYS && k[8] as int == 'L' as int ==> |k| != 29;
    assert k in KEPT_KEYS && k[0] as int == 'O' as int && k[8] as int == 'L' as int ==> |k| == 29;
    assert k in KEPT_KEYS && k[0] as int == 'O' as int ==> k[8] as int != 'G' as int;
  }

  lemma LauncherKeysAreIdentifiers()
    ensures IsIdentifier(TRUST_PROXY_HEADERS) && IsIdentifier(HTTP_HOST_BIND)
  {}
}
