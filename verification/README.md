# Omlorix launcher verification

Omlorix is a self-hosted chat server. This project models the parts of its launcher, of its
command line and of its backend infrastructure in which an ordering mistake, a lost write or a
misread line does damage, and proves what those parts are for.

- **Log redaction** (`LogRedactor`, `RedactorProofs`). Secrets are removed from text that arrives in
  chunks. The incremental machine is compared with a one-shot redaction for every chunking. The
  output is a sequence of tokens, so a secret that spells the marker is not confused with it.
- **The environment file** (`JsStrings`, `TextLines`, `JsonStrings`, `JsonEscapes`, `Dotenv`, `DotenvProofs`,
  `DotenvValues`, `DotenvEditing`, `EnvReading`, `EnvLines`, `EnvStrays`, `EnvTopology`, `EnvKeys`,
  `EnvWritten`, `EnvSteady`, `EnvCanonical`, `EnvFixedPoints`, `UrlComponents`, `TopologyMeaning`, `EnvImport`,
  `EnvImportProofs`, `EnvImportLines`, `EnvImportResults`, `EnvLimits`). The parser, the printer, the
  in-place editor, the canonical write and the configuration import, on JavaScript strings of
  UTF-16 code units, including JSON strings as in section 7 of RFC 8259. Every split of a text
  removes one carriage return in front of each line feed; `EnvStrays`, `EnvWritten` and
  `EnvImportProofs` say for any text which values this brings to light.
- **Protocols as step machines.** The shared asynchronous Redis client (`AsyncRedisClient`,
  `AsyncRedisProofs`), the timed Redis lock (`RedisLease`, `RedisLeaseProofs`), the single-flight
  launcher check (`LauncherUpdate`, `LauncherUpdateProofs`), the server update (`ServerUpdate`), the
  restore and its container fence (`ServerRestore`, `ServerRestoreResults`, `ServerRestoreRun`), the
  Code Execution instances with their two stores (`GoDotenv`, `GoDotenvProofs`, `GoDotenvReading`,
  `CodeExecutionEnv`, `CodeExecutionSettings`, `CodeExecution`, `CodeExecutionProofs`,
  `CodeExecutionResults`), the chained instance registry of the launcher (`InstanceRegistry`,
  `InstanceRegistryProofs`) and the manager of automatic updates (`UpdateScheduler`,
  `UpdateSchedulerProofs`).
- **Order, schedule and transformation.** Version comparison against section 11 of Semantic
  Versioning 2.0.0 (`Versions`, `SemVer`, `SemVerOrder`, `VersionHistory`), log durations
  (`LogDuration`), the next scheduled run (`ScheduledUpdates`) and asset bundling (`CacheBuster`,
  `CacheBusterProofs`, `CacheBusterResults`).

Where the source updates state in place, a class or a method with a loop carries that form and is
proved equal to a specification function; the lemmas are about that function and say what it comes to
without referring to its parts. In a step machine every action that is not due leaves the state alone,
so each theorem quantifies over all schedules.

## Assumptions

- A Docker command that succeeds has had its effect. What a failed one leaves behind is arbitrary.
- An atomic file write happens wholly or not at all. Every write, read and command may fail.
- The stretch of code between two awaits runs without interruption. Nothing is assumed about the
  order in which awaiting calls resume, beyond the promise chains that the code builds itself.
- Integers are unbounded, except where the code bounds them (the 64-bit limits of durations).
- The clock of workers and of Redis runs at one rate and does not go back. A worker counts the life of
  a lease from the moment it sent the request that it last saw succeed, and draws a new owner for
  every term, as the workers of the backend do.
- The shared operation lock is held for the whole of an operation.
- The check on the security secrets in the environment write, the port probes, the release lookups,
  the readiness probes and the recovery report of the restore command are inputs.
- `strconv.Quote` and `strconv.Unquote` are a pair of functions. What is used of them is stated as
  `GoDotenv.Documented`: a quote, escapes or plain characters without a bare quote or line feed, a
  quote; and unquoting gives back what was quoted.
- The settings that are the same for every Code Execution instance are a parameter,
  `CodeExecutionEnv.Fits`: each has a name of its own and a value without line feeds.

## What is not as its documentation suggests

- Chunking is invisible only if no secret occurs inside another one other than at its end;
  `RedactorProofs.ChunkingInvisible` shows that this condition is exact.
- A value with U+2028 or U+2029 is written to the environment file but is not read back, and the key
  `__proto__` never is; `DotenvEditing.EditThenParse` shows that nothing else is lost.
- An import in replace mode drops a launcher setting whose value holds U+2028 or U+2029
  (`EnvImportProofs.CleanImportKeepsLauncherSettings`, `EnvLimits.ReplacingDropsSeparator`).
- An import can introduce or override a launcher setting with a line that carries more than one
  carriage return at its end: it is no assignment when the launcher's settings are taken out, and is
  one when the file is read (`EnvLimits.StrayReturnIntroducesSetting`, `EnvLimits.StrayReturnOverridesSetting`).
  `EnvImportProofs.ImportKeepsLauncherSettings` says exactly when the settings are kept, and
  `EnvImportLines.AbsentStaysAbsent` and `EnvImportLines.PresentStaysPresent` say it of the imported
  text's own lines.
- In the same way a line with two carriage returns adds a value in an edit of nothing, and defeats the
  removal of retired keys for one write (`EnvLimits.EditUncovers`, `EnvLimits.StrayReturnBreaksEdit`,
  `EnvLimits.StrayReturnKeepsRemovedKey`). `EnvStrays.EditExactly` and `EnvWritten.RemovedKeysStayOut`
  are the exact statements for any text.
- Writing the written file again changes it when a line still ends with a carriage return
  (`EnvCanonical.CanonicalIsFixedPoint`); `EnvFixedPoints.FixedPointsExactly` describes the texts that
  stay.
- The API key of a Code Execution instance does not survive a rewrite of its file when it ends with
  white space, or holds a line feed, without holding anything that makes the writer quote it. A key
  in single quotes that ends with U+00A0 is one (`CodeExecutionProofs.SingleQuotedKeyIsLost`).
- A line feed in an entry of the Code Execution registry, which is not checked when it is read, can
  start a line that assigns another key or version (`CodeExecutionEnv.BroughtKeyIsRead`). It is part
  of the conditions of `CodeExecutionProofs.ApiKeyIsKept` and `CodeExecutionProofs.NilIsLatest`.
- Version comparison cuts a prerelease at its second hyphen; `SemVer.AgreesExactlyWithoutHyphen` says
  where the standard is met.
- Saving an instance keeps the ports of the launcher's registry distinct only if its id occurs once
  (`InstanceRegistryProofs.SaveKeepsPortsExactly`, `InstanceRegistryProofs.PortsStayDistinctExactly`).
- The Redis lock excludes over all delays if and only if its calls use one ttl
  (`RedisLeaseProofs.ExclusionExactly`). A refresh with a smaller ttl than an earlier request breaks it,
  and so does a growing ttl when an old refresh arrives behind a newer one
  (`RedisLeaseProofs.SmallerTtlBreaks`, `RedisLeaseProofs.GrowingTtlBreaks`).
- The rollback of a Code Execution update does not restore a registry in which entries of different
  contents share the ID, since it overwrites them all (`CodeExecutionProofs.FailureRestores`,
  `CodeExecutionProofs.RollbackOverwritesTwin`).
- Without a Redis client both lock functions report success
  (`RedisLeaseProofs.UnavailableRedisExcludesNobody`).

## Model

| member | source | states |
|---|---|---|
| LogRedactor.LongestMatch | electron/server-manager.js:964-973 | the alternation of the sorted secrets takes, at each place, a secret that no other matching secret exceeds in length |
| LogRedactor.Redactor.Consume | electron/server-manager.js:977-1007 | the closure's match loop and retention search yield the scan of the pending text and leave the retained suffix pending |
| LogRedactor.Redactor.LongestRetained | electron/server-manager.js:993-1001 | the downward search finds the longest suffix of the pending text that starts some secret |
| LogRedactor.Redactor.Push | electron/server-manager.js:1010-1013 | one chunk turns the pending text and the output into those of the incremental specification |
| LogRedactor.Redactor.Flush | electron/server-manager.js:1014-1016 | everything still pending is emitted and nothing stays behind |
| LogRedactor.NoSecrets | electron/server-manager.js:966-971 | the pass-through object for an empty list and the general machine give the same output |
| RedactorProofs.PushAllIsRedact | electron/server-manager.js:963-1018 | when no secret occurs early inside another, all pushes and the flush together equal the one-shot redaction of the whole text |
| RedactorProofs.ChunkingInvisible | electron/server-manager.js:963-1018 | every chunking of every text gives the one-shot redaction, if and only if no secret occurs inside another before its end |
| RedactorProofs.ChunkingInvisibleWhenUnrelated | electron/server-manager.js:963-1018 | in particular for secrets none of which occurs inside another |
| RedactorProofs.ChunkingVisibleExample | electron/server-manager.js:963-1018 | with the secrets abcde and bc, the chunks abc and de are redacted differently from abcde |
| RedactorProofs.StreamIsSafe | electron/server-manager.js:977-1007 | for any secrets and any chunks, no run of literal output between two marks contains a secret |
| RedactorProofs.StreamSpellsText | electron/server-manager.js:963-1018 | for any secrets and any chunks, the output is the text with some secret in place of every mark: nothing else is lost, added or moved |
| RedactorProofs.HeldBackIsLongest | electron/server-manager.js:992-1006 | what a push holds back is a proper prefix of a secret, and no longer suffix of the unmatched text is one |
| JsonStrings.ParseStringify | electron/server-manager.js:1650-1653 | parsing the JSON literal of any string, lone surrogates included, gives that string back |
| JsonStrings.EscapeTerminators | electron/server-manager.js:1718-1725 | a JSON literal holds no line feed or carriage return, and U+2028 or U+2029 only where the string does |
| JsonEscapes.LettersExactly | electron/server-manager.js:1650-1653 | each of the eight two-unit escapes stands for its unit |
| JsonEscapes.UnicodeExactly | electron/server-manager.js:1650-1653 | `u` and four hexadecimal digits of either case stand for the unit with that number |
| JsonEscapes.OtherEscapesFail | electron/server-manager.js:1650-1653 | a backslash in front of anything else, or of too few digits, is an error |
| JsonEscapes.PlainExactly | electron/server-manager.js:1650-1653 | other units stand for themselves; control units, a missing closing quote and anything behind it are errors |
| Dotenv.FindInlineCommentIndex | electron/server-manager.js:1588-1614 | the scan with its quote and escape flags returns the index that the recursive definition gives, or -1 |
| DotenvProofs.ParseAssignmentExact | electron/server-manager.js:1616-1628 | a line matches the assignment pattern if and only if it is the text of a well-formed assignment, and the match is that assignment |
| DotenvProofs.ParseAssignmentOf | electron/server-manager.js:1616-1628 | the concatenation of a prefix, a key, a separator and a value is split into exactly these parts, unless the value breaks the line |
| DotenvValues.UnquoteSerialized | electron/server-manager.js:1638-1675 | whatever value was printed, with or without a kept comment behind it, is read back unchanged |
| EnvReading.BareReads | electron/server-manager.js:1638-1675 | a hand-written value that begins with no quote is taken as it is |
| EnvReading.SingleQuotedReads | electron/server-manager.js:1656-1668 | one in single quotes is what stands before the quote that closes, or all of it |
| EnvReading.BrokenQuotesRead | electron/server-manager.js:1646-1674 | one in double quotes that is no JSON string is cut out in the same way, tried again with its quotes escaped, and otherwise stripped of escapes |
| EnvReading.ClosingExactly | electron/server-manager.js:1630-1667 | the quote that closes is the first one with an even number of backslashes in front of it |
| EnvReading.EscapeCons | electron/server-manager.js:1671 | escaping puts a backslash in front of each double quote |
| EnvReading.DropCons | electron/server-manager.js:1673 | an escaped unit loses its backslash, and every other unit stays |
| DotenvValues.CommentBehindValue | electron/server-manager.js:1588-1614 | the comment kept behind a printed value is found exactly there, whatever quotes and hashes the value holds |
| DotenvValues.SerializedTerminator | electron/server-manager.js:1718-1725 | the printed form of a value breaks its line if and only if the value holds U+2028 or U+2029 |
| Dotenv.ParseEnvContent | electron/server-manager.js:1677-1685 | the loop over the lines builds the environment of the recursive definition, later assignments overriding earlier ones |
| Dotenv.RewriteLines | electron/server-manager.js:1727-1738 | the pass over the lines rewrites the lines of updated keys only and collects the keys it has seen |
| Dotenv.UpdateEnvContent | electron/server-manager.js:1727-1752 | rewriting, appending and collapsing give the text of the editing specification |
| DotenvEditing.EditedLinesParse | electron/server-manager.js:1727-1752 | the exact environment after an edit: other keys keep their values, each updated key has its new one or is gone when no line can carry it |
| DotenvEditing.EditThenParse | electron/server-manager.js:1677-1752 | parsing the edited text equals the old environment overridden by the updates, if and only if every value and key is storable |
| EnvStrays.EditExactly | electron/server-manager.js:1727-1752 | on any text, every key has the value the edit asks for, unless a line that assigned nothing is the last to assign it once a stray carriage return is gone; then it has that line's value |
| EnvStrays.EditCleanText | electron/server-manager.js:1727-1752 | an edit of a text in which trimming would bring nothing to light leaves such a text, with exactly the edited values |
| TextLines.CollapseJoin | electron/server-manager.js:1751 | collapsing runs of line feeds drops empty lines and alters no other |
| TextLines.TrimEndJoin | electron/server-manager.js:3010-3013 | trimming the end of a text drops its blank lines and trims the line before them |
| EnvKeys.TopologyShape | electron/server-manager.js:583-611 | the derived updates have distinct keys from a fixed list and values that a line can carry |
| EnvKeys.TopologyIsStable | electron/server-manager.js:583-611 | deriving again from an environment that holds the derived values gives the same updates |
| EnvKeys.EncodedIsAscii | electron/server-manager.js:1566-1573 | the percent-encoded password is ASCII, so the Redis URL never breaks its line |
| UrlComponents.DecodeEncode | electron/server-manager.js:1566-1573 | percent-decoding the encoded password, by a decoder of its own, gives the password back |
| UrlComponents.EncodesExactly | electron/server-manager.js:1566-1573 | encoding fails if and only if the password holds a lone surrogate |
| UrlComponents.EncodedIsSafe | electron/server-manager.js:1566-1573 | the encoded password holds no character that a URL could take for a delimiter |
| TopologyMeaning.TruthyExactly | electron/server-manager.js:559-561 | a value is truthy if and only if one of four words, in any case, is all it holds besides white space at its ends |
| TopologyMeaning.WrittenRoutes | electron/server-manager.js:583-611 | the value of every setting of a written file in terms of the text it was written for, with the values spelled out; writing fails exactly when the bundled Redis needs a password that cannot be encoded |
| TopologyMeaning.WrittenTopology | electron/server-manager.js:583-611 | on the settings of the written file itself: the bundled database is reached through the pooler exactly when that is on, no URL bypasses it, and what is switched off or bundled is routed so |
| EnvTopology.EnvFile.WriteEnvContent | electron/server-manager.js:3005-3020 | the file becomes the canonical text, or keeps its old content when deriving, the policy check or the disk fails |
| EnvWritten.RemoveExactly | electron/server-manager.js:1754-1761 | on any text, a removal leaves every other key its value, unless a line that assigned nothing comes to light |
| EnvWritten.WrittenElsewhere | electron/server-manager.js:3005-3016 | on any text, a key that is not derived is written with the value of the kept lines, two carriage returns stripped from each, one from the last, and the last one left trimmed if no line is added |
| EnvWritten.WrittenDerived | electron/server-manager.js:3005-3016 | on any text, a derived key is written with the derived value, unless an edited line that assigned nothing comes to light behind it |
| EnvWritten.RemovedKeysStayOut | electron/server-manager.js:3005-3016 | on any text, the written file has no retired or managed-proxy key if and only if no line left by the removal assigns one after that stripping and trimming |
| EnvCanonical.CanonicalIsDerived | electron/server-manager.js:3005-3016 | if that stripping turns no line left into an assignment, what is written satisfies every update derived from itself, has no retired or managed-proxy key and keeps all other values |
| EnvCanonical.CanonicalIsFixedPoint | electron/server-manager.js:3005-3016 | under the same condition, writing the written text again yields the identical text if and only if no written line still ends with a carriage return, as when no line did before |
| EnvFixedPoints.FixedPointsExactly | electron/server-manager.js:3005-3016 | the texts that a write leaves as they are, exactly: lines joined by bare line feeds, collapsed and trimmed, none with a removed key, and every derived key assigned in the form of the editor with the value derived from the text |
| EnvCanonical.FixedPointHasNoRemovedKey | electron/server-manager.js:3005-3016 | any text that a write leaves as it is has no retired or managed-proxy key |
| EnvLimits.EditUncovers | electron/server-manager.js:1727-1752 | an edit of nothing adds a key to any text if and only if a line, one carriage return stripped, assigns it |
| EnvLimits.StrayReturnBreaksEdit | electron/server-manager.js:1727-1752 | an instance: any assignment line with two carriage returns at its end, anywhere in any text, is such a line |
| EnvLimits.StrayReturnKeepsRemovedKey | electron/server-manager.js:3005-3016 | an instance: any assignment of a removed key with two carriage returns at its end, anywhere in any text, survives the canonical write, which then is no fixed point |
| EnvImport.ApplyEnvImport | electron/server-manager.js:3994-4048 | the live file becomes the canonical text of the merged or replaced content, or stays when nothing changed, and an error is raised exactly when deriving, the policy check or the disk fails |
| EnvImportProofs.NextRawParses | electron/server-manager.js:4004-4035 | on any texts, the exact value of every key in the imported and in the next text, in merge mode and in replace mode: the one asked for, or the one that a split brings to light |
| EnvImportProofs.ImportedValue | electron/server-manager.js:4004-4047 | on any texts, the exact value of a launcher-owned hidden key in the file that is written |
| EnvImportProofs.ImportKeepsLauncherSettings | electron/server-manager.js:69-100 | on any texts, a launcher-owned hidden key keeps its presence and value if and only if the value that four further splits bring to light is the old one, or nothing comes to light, a line can carry the value and the text does not introduce the key |
| EnvImportProofs.CleanImportKeepsLauncherSettings | electron/server-manager.js:4004-4047 | where no line hides the key behind white space at its end, it is kept in merge mode always and in replace mode if and only if a line can carry its value |
| EnvImportResults.CleanImportWrites | electron/server-manager.js:4004-4048 | for texts in which no line hides an assignment: the value of every setting of the next and of the written file, in merge and in replace mode |
| EnvImportLines.AbsentStaysAbsent | electron/server-manager.js:4025-4047 | in replace mode, on any text, a key that the live file lacks stays absent if and only if no line of the imported text, five carriage returns stripped (from the last line three, or four if settings are put back behind it), assigns it, nor the last one left once trimmed |
| EnvImportLines.PresentStaysPresent | electron/server-manager.js:4025-4047 | in replace mode, on any text, a key whose live value a line can carry keeps it if and only if neither a line of the imported text that comes to light behind a rewritten one, nor the last one left once trimmed, gives it another value |
| EnvLimits.StrayReturnIntroducesSetting | electron/server-manager.js:4025-4047 | a line with two to six carriage returns at its end, anywhere in an imported text, gives a value to a launcher-owned key that the live file lacks |
| EnvLimits.StrayReturnOverridesSetting | electron/server-manager.js:4025-4047 | two such lines, the second with one carriage return more, replace the live value of a launcher-owned key by the second one's |
| EnvLimits.ReplacingDropsSeparator | electron/server-manager.js:4025-4047 | a live file whose launcher-owned key holds U+2028 as a JSON escape loses it to any import in replace mode that hides no line of the key |
| AsyncRedisClient.Registry.Install | backend/app/redis_client.py:90-95 | the locked section installs the probe's client only into an empty slot of the epoch it connected in, and selects what is shared afterwards |
| AsyncRedisClient.Registry.Detach | backend/app/redis_client.py:152-157 | the locked section empties the slot, advances the epoch and hands out the client |
| AsyncRedisProofs.StepKeepsInvariant | backend/app/redis_client.py:74-159 | each step of any getter or closer keeps every open client in one place |
| AsyncRedisProofs.EveryClientHasOnePlace | backend/app/redis_client.py:74-159 | over all interleavings, cancellations and failures, every client ever created is in exactly one of the slot, one call in flight, or being closed or closed |
| AsyncRedisProofs.OnlySharedClientStaysOpen | backend/app/redis_client.py:97-105 | once no call is in flight, a client is open if and only if it is the shared one |
| AsyncRedisProofs.ClosedProbeNeverInstalls | backend/app/redis_client.py:148-159 | a probe that read its epoch before a close never has its client in the slot after it, whatever follows |
| AsyncRedisProofs.ReturnedWasShared | backend/app/redis_client.py:74-130 | over all interleavings, a client that a call returns has been the shared one |
| AsyncRedisProofs.EveryCallEnds | backend/app/redis_client.py:74-159 | in any state a call can go on to its end in at most seven steps of its own, and raises only if it was cancelled before |
| AsyncRedisProofs.GetterReads | backend/app/redis_client.py:82-85 | a getter returns the shared client at once, and otherwise connects under the current epoch |
| AsyncRedisProofs.ProbeInstalls | backend/app/redis_client.py:87-105 | a probe that succeeds shares its client if and only if nothing is shared and no closer came in between; otherwise its client is closed and what is shared is returned |
| AsyncRedisProofs.ProbeFails | backend/app/redis_client.py:106-130 | a failed or cancelled probe has its client closed, falls back on what is shared by then, or raises |
| AsyncRedisProofs.ClientIsClosed | backend/app/redis_client.py:97-130 | what must be closed ends closed, with the result that its task had settled on |
| AsyncRedisProofs.CloserDetaches | backend/app/redis_client.py:148-159 | a closer leaves nothing shared, under a later epoch, and closes what was |
| RedisLease.LockKey.TryAcquire | backend/app/redis_client.py:195-203 | the key is set with its expiry only when Redis holds none, and success is reported exactly then |
| RedisLease.LockKey.Refresh | backend/app/redis_client.py:206-234 | the expiry moves only while the owner still holds the key |
| RedisLease.LockKey.Release | backend/app/redis_client.py:237-248 | the key is deleted only while the owner still holds it |
| RedisLeaseProofs.StepKeepsInvariant | backend/app/redis_client.py:195-248 | each step of the clock, request, delayed or repeated delivery and seen reply keeps every counting success backed by the key, for ttls that cannot cut a lease short |
| RedisLeaseProofs.NeverTwoTrusters | backend/app/redis_client.py:195-248 | with a ttl in every call: while Redis is available and no refresh can let the key expire before a lease of its owner, no two owners ever trust the lock at the same time |
| RedisLeaseProofs.OneTtlIsCompatible | backend/app/redis_client.py:206-232 | the condition holds when every owner uses one ttl |
| RedisLeaseProofs.ExclusionExactly | backend/app/redis_client.py:195-248 | for calls with given ttls, every schedule with Redis available excludes, if and only if the ttls are all the same |
| RedisLeaseProofs.SmallerTtlBreaks | backend/app/redis_client.py:206-232 | a refresh with any smaller ttl, its reply unseen, lets two owners trust the lock |
| RedisLeaseProofs.GrowingTtlBreaks | backend/app/redis_client.py:206-232 | so does a growing ttl, when the older refresh arrives last |
| RedisLeaseProofs.LateRequestSparesOthers | backend/app/redis_client.py:206-248 | corollary of the two scripts: no request of one owner, however late, changes a key that another owner holds |
| RedisLeaseProofs.DeliveryExactly | backend/app/redis_client.py:195-248 | who holds the lock at every later instant, after any delivered request |
| RedisLeaseProofs.WorkerExactly | backend/app/redis_client.py:195-248 | what each call sends, and that a seen success is trusted for exactly its ttl from when it was sent |
| RedisLeaseProofs.LockIsHandedOver | backend/app/redis_client.py:195-248 | a release that arrives lets the next worker acquire and trust the lock, and ends the trust of the one before |
| RedisLeaseProofs.UnavailableRedisExcludesNobody | backend/app/redis_client.py:198-200 | without a client two owners can trust the lock at once |
| LauncherUpdateProofs.ConfigKeyIsInjective | electron/launcher-auto-updater.js:207-217 | equal configuration keys mean the same channel, metadata file and feed, so skipping the feed call is sound |
| LauncherUpdate.LauncherAutoUpdateService.EnterCheck | electron/launcher-auto-updater.js:244-281 | the cached result, sharing, waiting, the cached failure or a new check are chosen in the order of the code, and only a new check changes the service |
| LauncherUpdate.LauncherAutoUpdateService.Configure | electron/launcher-auto-updater.js:195-236 | a refused release changes nothing; an accepted one configures the updater |
| LauncherUpdateProofs.SingleFlight | electron/launcher-auto-updater.js:246-320 | over every interleaving, two checks that have not settled are the same check |
| LauncherUpdateProofs.UpdaterServesItsCheck | electron/launcher-auto-updater.js:195-290 | while a check runs, the updater's metadata file, feed and prerelease switch are its own, and a stable check never reads prerelease metadata |
| LauncherUpdateProofs.PromiseOutlivesCheck | electron/launcher-auto-updater.js:282-319 | over every interleaving, a check under way is the one that the service remembers |
| LauncherUpdateProofs.OutcomeIsOfAskedChannel | electron/launcher-auto-updater.js:240-320 | every result and every error, cached or shared, is of the channel that the call asked for |
| LauncherUpdateProofs.NoPromiseIsLeftBehind | electron/launcher-auto-updater.js:314-319 | when all calls have ended, no check is under way and no promise is remembered |
| LauncherUpdateProofs.MetadataExactly | electron/launcher-auto-updater.js:33-44 | which metadata file each channel uses for each advertisement |
| LauncherUpdateProofs.DecidesExactly | electron/launcher-auto-updater.js:244-281 | the exact condition for each of reuse, sharing, waiting, a repeated failure and a new check |
| LauncherUpdateProofs.OutcomesAreRemembered | electron/launcher-auto-updater.js:284-313 | an answer is remembered with its time and forgets the failure of its channel, a failure is remembered with its time, and nothing else changes either |
| LauncherUpdateProofs.ChecksExactly | electron/launcher-auto-updater.js:195-313 | a check with an accepted release configures the updater and settles with its answer or error on its channel |
| LauncherUpdateProofs.EntersExactly | electron/launcher-auto-updater.js:244-282 | an entering call ends, shares, waits or owns a new check, as decided, and no other call is touched |
| LauncherUpdateProofs.ResumesExactly | electron/launcher-auto-updater.js:252-319 | once a check has settled, its owner and those who share it end with its outcome, the owner forgets the promise, and those who waited start over |
| LauncherUpdateProofs.OwnerEndsWithAnswer | electron/launcher-auto-updater.js:282-319 | from any state in which a call owns a fresh check, four steps end it with the answer of the updater on its channel |
| ServerUpdate.Installation.TryUpdate | electron/server-manager.js:6842-6887 | the forward steps stop at the first failure with the flags, the selection and the commands of the specification |
| ServerUpdate.Installation.Update | electron/server-manager.js:6836-6963 | the whole run has the selection and the commands of the specification, for every pattern of failures |
| ServerUpdate.MigratesOffline | electron/server-manager.js:6850-6873 | corollary of the step order: a migration starts only on the target, right behind a successful drain and reset |
| ServerUpdate.NoReturnAfterMigration | electron/server-manager.js:6862-6919 | once a migration was attempted, every command is on the target, which stays selected, and a failure ends with a drain |
| ServerUpdate.RollbackRestores | electron/server-manager.js:6920-6956 | an earlier failure with working rollback writes selects the previous version and channel, and restarts it exactly behind a successful drain and pull |
| ServerUpdate.SameTargetStartsNothing | electron/server-manager.js:6920 | a failed update to the selected version starts nothing before the migrations |
| ServerUpdate.SuccessIsComplete | electron/server-manager.js:6842-6887 | success is reported if and only if every step succeeded; then the target is selected and the commands are exactly pull, drain, reset, migrations and, last, the start of all services, once and on the target |
| ServerUpdate.ForwardThenBack | electron/server-manager.js:6836-6963 | the whole log of a run: the forward steps in order up to the first failure, then nothing, one drain, or the rollback up to its first failure, and exactly when each |
| ServerUpdate.StartsBehindMigrations | electron/server-manager.js:6857-6879 | all services are started on the target only behind successful migrations, and never when these were attempted and failed |
| ServerUpdate.SelectionOfRun | electron/server-manager.js:6840-6936 | the version and the channel selected after a run, for every pattern of failures |
| ServerUpdate.FailedPullTouchesNothing | electron/server-manager.js:6842-6846 | corollary of the step order: a failure up to the pull stops, drains and starts nothing |
| ServerUpdate.NeverBackAcrossMigration | electron/server-manager.js:6836-6963 | over any later runs, nothing selected only before an attempted migration is ever started again |
| ServerRestore.FindApplicationContainers | electron/server-manager.js:707-740 | the loop with its seen set lists the IDs of the specification, or fails on the first unreadable row |
| ServerRestore.CollectFinds | electron/server-manager.js:714-738 | when the inventory is accepted, every row was readable and every row to be stopped is listed |
| ServerRestore.CollectOnlyFinds | electron/server-manager.js:712-739 | no ID is listed twice, and none that no row asks for |
| ServerRestore.FenceIsComplete | electron/server-manager.js:7298-7315 | after the listed containers are stopped, no active container is an application or one-off container |
| ServerRestoreResults.ListsExactly | electron/server-manager.js:707-740 | the listing succeeds if and only if there is nothing to list or every row tells what must be stopped, and it names exactly those containers |
| ServerRestoreResults.ContainerIdExactly | electron/server-manager.js:731-734 | an ID is accepted if and only if it has 12 to 64 units, all of them hexadecimal digits |
| ServerRestoreResults.StopsExactly | electron/server-manager.js:714-739 | a container that the rows describe is stopped if and only if it may write, so the infrastructure keeps running |
| ServerRestoreResults.LabelTextExactly | electron/server-manager.js:673-704 | the one-off flag read from any printed list of labels, and exactly when it can be read |
| ServerRestoreResults.LabelObjectExactly | electron/server-manager.js:673-704 | the same for labels in object form |
| ServerRestoreRun.Launcher.StopApplication | electron/server-manager.js:7382-7396 | the graceful stop and the fence report success only as in the specification |
| ServerRestoreRun.Launcher.Restore | electron/server-manager.js:7342-7517 | the whole run has the commands, the flags and the report of the specification |
| ServerRestoreRun.RestoresInQuiet | electron/server-manager.js:7382-7428 | the restore command runs only when no active container is an application or one-off container |
| ServerRestoreRun.RestartsOnlyWhenSafe | electron/server-manager.js:7460-7490 | after a failure the services are restarted if and only if their stop had begun, data was not replaced, and the restore had not started or reported a safe restart |
| ServerRestoreRun.ReportIsTruthful | electron/server-manager.js:7433-7517 | each report if and only if its cause: restored exactly when the data was replaced and the services were started and became healthy, a startup failure exactly when it was replaced and they did not |
| ServerRestoreRun.CommandsOfRestore | electron/server-manager.js:7382-7444 | each command is run if and only if the commands before it have done what it needs; the start exactly behind a successful restore command |
| ServerRestoreRun.RestorePlays | electron/server-manager.js:7382-7490 | the commands run in one order, each with its outcome and in the world that the one before it left, up to the world that is left |
| GoDotenv.ReadEnv | cmd/omlorix-server-cli/main.go:1919-1944 | the loop over the lines builds the environment of the recursive definition |
| GoDotenvReading.AssignmentLines | cmd/omlorix-server-cli/main.go:1930-1943 | the name in front of the first equals sign, without the exporting word, is given the value behind it |
| GoDotenvReading.OtherLines | cmd/omlorix-server-cli/main.go:1932-1940 | blank lines, comments and lines without an equals sign assign nothing |
| GoDotenvReading.BareComments | cmd/omlorix-server-cli/main.go:2044-2075 | outside quotes a number sign begins a comment if and only if a space or a tab is in front of it |
| GoDotenvReading.SingleQuotedStays | cmd/omlorix-server-cli/main.go:2059-2067 | between single quotes nothing begins a comment |
| GoDotenvReading.UnquotesExactly | cmd/omlorix-server-cli/main.go:2078-2094 | what is between double quotes is unquoted, or cut out if that fails, and what is between single quotes is cut out |
| GoDotenvProofs.SettingReadsBack | cmd/omlorix-server-cli/main.go:1930-2104 | a setting of a rendered file is read back if and only if it is empty, quoted, or free of line feeds and of white space at its ends, unless a later bare value breaks its line with another assignment of it |
| GoDotenvProofs.ApiKeyRoundTrip | cmd/omlorix-server-cli/main.go:1930-2104 | the secret read from a rendered file is the one written, if and only if it is quoted or is free of line feeds and of white space at its end, unless a later bare value brings another key |
| CodeExecutionEnv.SecretReadsBack | cmd/omlorix-server-cli/code_execution.go:765-856 | the secret read from an instance's file is the one written, if and only if a line can hold it and no line feed in the id, the version or the memory starts a line with another key |
| CodeExecutionEnv.VersionReadsBack | cmd/omlorix-server-cli/code_execution.go:765-856 | the version read from an instance's file is the entry's, under the corresponding condition |
| CodeExecutionEnv.BroughtKeyIsRead | cmd/omlorix-server-cli/code_execution.go:765-856 | a memory text whose second line assigns a key decides the key that is read |
| CodeExecutionSettings.NumbersAreFound | cmd/omlorix-server-cli/code_execution.go:765-856 | the port and the limits of an entry that breaks no line are found in its file as decimal numbers, sessions and lifetimes with their least values |
| CodeExecutionSettings.ChoicesAreFound | cmd/omlorix-server-cli/code_execution.go:765-856 | network access and package installation are found as they were chosen |
| CodeExecutionSettings.TextsAreFound | cmd/omlorix-server-cli/code_execution.go:765-856 | the images and the memory limit are found, if a line can hold them |
| CodeExecutionSettings.NumberIsWritten | cmd/omlorix-server-cli/code_execution.go:765-856 | a number is written so that reading its digits gives it back |
| CodeExecutionSettings.VersionHasParts | cmd/omlorix-server-cli/code_execution.go:959 | a version is accepted only if it consists of three numbers without leading zeros and an optional tail |
| CodeExecutionSettings.PartsAreVersion | cmd/omlorix-server-cli/code_execution.go:959 | and every such text is accepted |
| CodeExecution.ReplaceInPlace | cmd/omlorix-server-cli/code_execution.go:631-635 | the loop over the slice replaces exactly the entries with the ID |
| CodeExecution.NextCodeExecutionPort | cmd/omlorix-server-cli/code_execution.go:961-968 | the loop finds the port of the specification |
| CodeExecution.NextPortIsLeast | cmd/omlorix-server-cli/code_execution.go:961-968 | the chosen port is the least one in the range that is unused and free, and there is none if the search fails |
| CodeExecution.Disk.RestoreEnv | cmd/omlorix-server-cli/code_execution.go:1167-1172 | the original file is back, or the error says that it could not be restored |
| CodeExecution.Disk.RestoreUpdateState | cmd/omlorix-server-cli/code_execution.go:669-687 | the environment is restored before the registry, and a failure in between is reported |
| CodeExecution.Disk.Update | cmd/omlorix-server-cli/code_execution.go:593-665 | both stores and the result are those of the specification for every pattern of failures |
| CodeExecutionProofs.NilIsLatest | cmd/omlorix-server-cli/code_execution.go:593-641 | a nil result leaves the registry at the latest version; if it was not there before, the version read from the file is the latest one if and only if no broken line behind it assigns another |
| CodeExecutionProofs.FailureRestores | cmd/omlorix-server-cli/code_execution.go:636-687 | every error but a failed restoration leaves the original bytes, and the original registry too if and only if it is no rollback of an ID that entries of different contents share |
| CodeExecutionProofs.RollbackOverwritesTwin | cmd/omlorix-server-cli/code_execution.go:669-687 | an instance: of two entries with one ID the rollback overwrites the second with the first |
| CodeExecutionProofs.OthersAreUntouched | cmd/omlorix-server-cli/code_execution.go:593-687 | whatever fails, other instances keep their entries, their places and their files |
| CodeExecutionProofs.ApiKeyIsKept | cmd/omlorix-server-cli/code_execution.go:616-627 | the API key is the same afterwards if and only if the file was not written, or a later step failed and it was put back, or the key survives being written and no broken line of the entry assigns another |
| CodeExecutionProofs.SingleQuotedKeyIsLost | cmd/omlorix-server-cli/code_execution.go:593-641 | a key in single quotes that ends with a blank other than a space or a tab is read before a successful update and lost by it |
| CodeExecutionProofs.OperationsKeepInvariant | cmd/omlorix-server-cli/code_execution.go:295-747 | over any creations, edits, deletions and updates with any failures, IDs and ports stay distinct and every instance keeps a file |
| CodeExecutionProofs.StoresAgree | cmd/omlorix-server-cli/code_execution.go:295-687 | for an entry that breaks no line, the version read from the file comes to differ from the registry's only when an operation on it reports a failed restoration, and no operation makes the entry break a line |
| CodeExecutionResults.UpdateResults | cmd/omlorix-server-cli/code_execution.go:593-687 | each result of an update if and only if the steps that it reports were reached and failed or succeeded |
| CodeExecutionResults.UpdateStores | cmd/omlorix-server-cli/code_execution.go:593-687 | the entry and the file that each result leaves |
| CodeExecutionResults.CreateResults | cmd/omlorix-server-cli/code_execution.go:295-380 | when a creation is refused, which changes nothing, fails or succeeds |
| CodeExecutionResults.CreateStores | cmd/omlorix-server-cli/code_execution.go:295-380 | the entry, with its port and defaults, that is added behind the others, and its file; a failure leaves neither |
| CodeExecutionResults.EditResults | cmd/omlorix-server-cli/code_execution.go:396-473 | when an edit is refused, when it fails and when it succeeds |
| CodeExecutionResults.EditStores | cmd/omlorix-server-cli/code_execution.go:396-473 | the changed entry and its file, with the secret of before, or the stores as they were |
| CodeExecutionResults.EditedFields | cmd/omlorix-server-cli/code_execution.go:402-447 | every given field is taken over and every other one is kept |
| CodeExecutionResults.DeleteResults | cmd/omlorix-server-cli/code_execution.go:741-763 | when a deletion is refused, fails or succeeds, and what it leaves |
| CodeExecutionResults.WithoutConcat | cmd/omlorix-server-cli/code_execution.go:1187-1195 | removing an ID keeps the other entries in their order |
| Versions.ComparePrereleaseIdentifiers | electron/version-utils.js:25-51 | the indexed loop with its early returns gives the comparison of the identifier lists |
| Versions.Compare | electron/version-utils.js:53-66 | the loop over the parts and the prerelease rules give the specified comparison |
| Versions.VersionOrder | electron/version-utils.js:5-66 | on all strings the comparison is antisymmetric in sign, total and transitive, and level only when both steps are |
| SemVer.ParseText | electron/version-utils.js:5-19 | a standard version is parsed into its numbers and its prerelease up to the first hyphen in it |
| SemVer.AgreesWithSemVer | electron/version-utils.js:25-66 | between versions without a hyphen in the prerelease the comparison is the precedence of the standard |
| SemVer.AgreesExactlyWithoutHyphen | electron/version-utils.js:7 | a version is compared as the standard demands with all hyphen-free versions if and only if its own prerelease has no hyphen |
| SemVerOrder.PrecedenceExactly | electron/version-utils.js:25-66 | the precedence of the standard, written with comparison functions, is the order in section 11 of the standard, written with first differences |
| SemVerOrder.ComparesByStandard | electron/version-utils.js:25-66 | so the comparison of versions without a hyphen in the prerelease is negative, zero or positive exactly in that order |
| SemVerOrder.NormalizesExactly | electron/version-utils.js:1-3 | a name loses exactly the first of the three tag words that it starts with, in any case |
| SemVerOrder.MissingPartsAreZero | electron/version-utils.js:5-14 | a version of one number is level with the one that has two zeros behind it |
| VersionHistory.HighestDominates | electron/server-manager.js:1047-1053 | the result is one of the two versions in normal form and is at least both |
| VersionHistory.ConcreteHasParts | electron/server-manager.js:1032-1036 | every version that is tracked consists of three numbers and an optional suffix |
| VersionHistory.PartsAreConcrete | electron/server-manager.js:1032-1036 | and every such text is tracked |
| VersionHistory.HistoryIsMonotone | electron/server-manager.js:2661-2670 | under any interleaving and failures the stored version never decreases and dominates every version recorded |
| VersionHistory.UpdatesExactly | electron/server-manager.js:2661-2670 | updates wait in their order; one that fails changes nothing and lets the next one begin |
| VersionHistory.QueueIsCarriedOut | electron/server-manager.js:2661-2670 | all queued updates can be carried out one after another, with their joint effect in call order |
| LogDuration.ValidLogRelativeDuration | electron/server-manager.js:867-901 | the matching loop accepts exactly zero and the non-empty concatenations of components whose truncated sum fits, behind an optional sign |
| LogDuration.ComponentsAreUnique | electron/server-manager.js:872 | a text is divided into components in at most one way |
| LogDuration.SumOfMore | electron/server-manager.js:893-898 | a partial sum beyond the limit cannot come back, so the early exit rejects nothing valid |
| LogDuration.UnitsExactly | electron/server-manager.js:872-882 | how the units are spelled, and their ratios |
| LogDuration.ValueExactly | electron/server-manager.js:889-896 | the value of a component is its decimal number times its unit, cut off to whole nanoseconds |
| LogDuration.SignsExactly | electron/server-manager.js:868-884 | a minus sign allows one nanosecond more than a plus sign or none |
| ScheduledUpdates.FindNextRun | electron/scheduled-updates.js:137-152 | the loop over two weeks returns what the search defines |
| ScheduledUpdates.NextRunIsLeast | electron/scheduled-updates.js:137-152 | for an enabled schedule the search succeeds and returns the least instant later than now on an allowed day at the set time |
| ScheduledUpdates.DaysExactly | electron/scheduled-updates.js:127-131 | which days each schedule allows, an empty selection meaning all |
| UpdateScheduler.ScheduledUpdateManager.Schedule | electron/scheduled-updates.js:277-309 | the timer, the next run and the saved status are those of the specification |
| UpdateScheduler.ScheduledUpdateManager.OnTimer | electron/scheduled-updates.js:321-336 | a wake-up arms, reschedules or begins a run as specified |
| UpdateScheduler.ScheduledUpdateManager.RunUpdate | electron/scheduled-updates.js:461-473 | the checks before a run and its recorded status are those of the specification |
| UpdateSchedulerProofs.WindowsAreAttemptedInOrder | electron/scheduled-updates.js:277-356 | over any timers, manual runs, changed settings, failed writes and restarts, the attempted windows are strictly increasing |
| UpdateSchedulerProofs.WindowsOfLauncherAreInOrder | electron/scheduled-updates.js:277-356 | the same from any store that a new process finds on disk |
| UpdateSchedulerProofs.AttemptsExactly | electron/scheduled-updates.js:321-356 | a firing timer attempts its window if and only if it is due, not the last one attempted, and nothing is in its way; the run is then under way with its key in memory and on disk |
| UpdateSchedulerProofs.PassedOverIsReplaced | electron/scheduled-updates.js:321-336 | a due window that is not attempted is replaced by the least later one, in each of the cases |
| UpdateSchedulerProofs.EarlyTimerIsSetAgain | electron/scheduled-updates.js:321-328 | a timer that fires before its window is set again |
| UpdateSchedulerProofs.ReadExactly | electron/scheduled-updates.js:108-125 | a store is read as it is, except that with updates off a next run or a block is forgotten |
| UpdateSchedulerProofs.OtherEventsExactly | electron/scheduled-updates.js:225-433 | what a manual run, the end of a run, saved settings and a restart leave |
| UpdateSchedulerProofs.ScheduleExactly | electron/scheduled-updates.js:277-319 | scheduling finds the least later instant of the settings, saves it and sets the timer for it |
| UpdateSchedulerProofs.WindowIsAwaited | electron/scheduled-updates.js:277-356 | while the store can be read and written, an enabled manager that is neither blocked nor busy always waits for a window of its settings |
| CacheBuster.BuildDirectory.CollapseBundleReferences | script/cache_buster.py:605-643 | the loop over the listed pages splices each one, or stops, as specified |
| CacheBuster.BuildDirectory.BundleOne | script/cache_buster.py:655-680 | pages and files after one bundle are those of the specification |
| CacheBusterProofs.TagLoads | script/cache_buster.py:596-602 | a line is the tag of an asset if and only if it loads exactly that asset |
| CacheBusterProofs.BundlingKeepsMeaning | script/cache_buster.py:646-680 | with pairwise disjoint bundles, every page that carries the split tags once or names no file loads the same text in the same order and keeps its markup |
| CacheBusterProofs.UnrelatedPagesStay | script/cache_buster.py:616-620 | a page that names no file of any bundle is not changed |
| CacheBusterResults.CollapsesExactly | script/cache_buster.py:605-643 | a page is left alone, rewritten or refused, exactly, in terms of what its lines load, and the rewritten page line by line |
| CacheBusterResults.BundlesExactly | script/cache_buster.py:655-680 | bundling stops if and only if a listed page is refused, or split sources are shown and one is missing or listed twice; otherwise every page and every file is determined |
| CacheBusterResults.OutputIsLoaded | script/cache_buster.py:655-680 | a listed page that carries the split tags once loads the output once and no other source, the output holds the joined sources and no other source is left |
| CacheBusterResults.PagesLoadOutputs | script/cache_buster.py:646-680 | the same after all bundles, in terms of the original build |
| InstanceRegistry.RegistryFile.Apply | electron/code-execution-manager.js:604-984 | each mutation leaves the registry and settles its promise as specified |
| InstanceRegistryProofs.UpdatesAreSequential | electron/code-execution-manager.js:422-430 | under every interleaving the settled calls are the first ones in call order, with the registry and results of running them one after another |
| InstanceRegistryProofs.EveryCallSettles | electron/code-execution-manager.js:427-429 | a rejected call neither blocks nor loses a later one: the chain can always run to its end |
| InstanceRegistryProofs.SaveKeepsPortsExactly | electron/code-execution-manager.js:652-684 | an accepted save keeps the ports distinct if and only if the id occurs once |
| InstanceRegistryProofs.PortsStayDistinct | electron/code-execution-manager.js:609-984 | every reachable registry has distinct gateway ports when the first one has distinct ports and ids and new ids are fresh |
| InstanceRegistryProofs.PortsStayDistinctExactly | electron/code-execution-manager.js:609-984 | from distinct ports, every schedule with fresh new ids keeps the ports distinct if and only if the initial ids are distinct |
| InstanceRegistryProofs.CreateExactly | electron/code-execution-manager.js:604-650 | a creation succeeds if and only if its port is unused and every step works, and adds its instance behind the others |
| InstanceRegistryProofs.SaveExactly | electron/code-execution-manager.js:652-700 | when a save succeeds, and that it gives every entry of the ID, and no other, the wanted settings |
| InstanceRegistryProofs.RemoveExactly | electron/code-execution-manager.js:955-984 | when a removal takes effect and when it succeeds |
| InstanceRegistryProofs.WithoutConcat | electron/code-execution-manager.js:969-975 | removing an ID keeps the other entries in their order |

## Left out

- EnvCanonical.CanonicalIsDerived: when stripping does turn a line into an assignment, the derived values are those of the text in between; `EnvWritten.WrittenDerived` and `EnvWritten.WrittenElsewhere` give every value.
- EnvCanonical.CanonicalIsFixedPoint: under the same condition; `EnvFixedPoints.FixedPointsExactly` is for any text.
- EnvImportLines.PresentStaysPresent: for values that a line can carry; the other values are part of `EnvImportProofs.ImportKeepsLauncherSettings`.
- DotenvEditing.EditThenParse: for texts in which no line keeps a carriage return after splitting; `EnvStrays.EditExactly` is for any text.
- EnvImport.ApplyEnvImport: the review of an import, its validation errors and the split that removes retired keys when the file is chosen.
- CodeExecutionEnv.Serialize: the names and values of the settings that no instance changes.
- CodeExecution.Disk.Update: the check of the ID in front of every command, so that statements hold for any ID.
- CodeExecutionProofs.NilIsLatest: when the registry is at the latest version already the code does not look at the environment file, so nothing new is said about it.
- ServerRestore.FindApplicationContainers: the IDs are not put in order, which has no effect on what is stopped.
- CacheBusterProofs.UnrelatedPagesStay: a page that names a bundled file in another form than the one-line tag counts as plain markup: it is not changed, but the file it names is gone.
- CacheBuster.BuildDirectory.BundleOne: pages are read as lists of lines; the encoding, the splitting into lines and the removal of empty directories are not modelled.
- ScheduledUpdates.FindNextRun: settings are taken as normalized; sanitizing of times and weekday lists is not modelled.
- UpdateScheduler.ScheduledUpdateManager.OnTimer: scheduling is one step; a write of the store by the command line between two steps of the launcher, and a store that cannot be read at any other time than a restart, are not modelled.
- Versions.Compare: the loss of precision of very long numbers in JavaScript; build metadata is not part of `SemVer.Text`.
- ServerUpdate.Installation.Update: the preparations and the backup in front of the run, whose failure changes nothing.
- LogRedactor.Redactor.Push: how the list of secrets is collected from the environment.
- InstanceRegistry.RegistryFile.Apply: the contents of the instance directories, which for the command line are part of `CodeExecution`, and the refusal of a second operation on a busy instance.
- AsyncRedisClient.Registry.Install: the switch that turns Redis off, with which no client is ever created.
- Setup, the environment editor and its field-by-field copies, the proxy listener, status merging and readiness counts, which one reading settles.
- Fetching of releases, process spawning, windows, menus, translations and Electron messaging.
- Breaking of stale operation locks by age, daylight saving and time zones.
- Random secrets, hashes and certificates.
- Rewriting of HTML attributes and hashed file names in the cache buster.
