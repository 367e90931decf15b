# Dokploy: verified models of its self-contained protocols and algorithms

Each module models one source file of the repository and proves what that file is for. Loops, buffers
and objects that the source updates in place are methods, arrays and classes here; their contracts tie them to
specification functions, and the lemmas beside them prove what those functions mean.

| files | what they model |
|---|---|
| `Bytes`, `ZipFormat`, `ZipLayout`, `ZipWriter`, `ZipReader`, `ZipRoundTrip` | the byte-level archive writer of the GitHub connector's fixtures, the production reader of one named entry, and a reader of the whole archive after the PKWARE .ZIP File Format Specification (sections 4.3.7, 4.3.12 and 4.3.16) |
| `GreedyWrap` | the line breaking of the social-preview generator, under an arbitrary text width |
| `TelemetryPrivacy` | URL stripping and the verdict on pages that must not be recorded |
| `SessionReplay`, `SessionReplayPage` | the start/suppress protocol of session replay in every interleaving, and one page load that drives it |
| `TraefikWait` | the two polling loops that wait for a Traefik recreate, with their outcomes and their time bound |
| `Text`, `EnvText`, `VaultImport`, `EnvAutocomplete` | reading and editing environment text, importing vault references into it, and completing its keys |
| `AuthSecretMigration` | the all-or-nothing re-encryption under a new auth secret |
| `DeploymentJobs` | bounded pagination against any server, and the rows built from events and runs |
| `ContainerMonitor` | the re-entrancy guard and the per-service deduplication of the metrics collector |
| `ImageClassifier` | classifying an image reference into a database family |

What the code calls but does not define is a parameter: zlib and the UTF-8 codec (`ZipWriter.Platform`, with the
laws of a lossless zlib only where they are needed), the text width, `toLowerCase` and `URLSearchParams`
(`TelemetryPrivacy.Browser`, no laws), the answers and the clock of the Traefik wait (`TraefikWait.Script`), the
cipher (`AuthSecretMigration.Cipher`: decryption undoes encryption and, for rotations in a row, other keys do not), database failures, the
events server, `Date` parsing and JSON parsing.

Where the code and what is said about it disagree, the code is modelled and the exact condition proved:

- `stripUrl` is documented to drop credentials, which are taken here as RFC 3986 has them: in the authority of a URL
  reference, after `//`. Under a scheme it drops them up to the first `@`; without one, as in `//user:pw@host/x`, it
  drops none. It is complete exactly when there are no credentials, or the URL has a scheme and one `@` in its authority
  (`TelemetryPrivacy.StripIsCompleteForOneAt`, with `CredentialsSurvive` as the input).
- Session replay is documented to stop on pages that carry credentials. While a recorder runs, the location is
  sensitive exactly when the hash changed since the last load or route change and its new value names a credential
  (`SessionReplayPage.NoRecordingOnSensitivePages`): a hash change fires no `routeChangeStart`, and from every safe
  page a run records on (`HashChangeEscapes`).
- Setting an environment value is a map update, and setting it twice changes no more than once, exactly for keys a
  line can define and one-line values (`EnvText.SetEnvIsMapUpdate`, `EnvText.SetEnvTwice`). A user can type other keys,
  such as `#X` and `A=B` (`EnvText.TypedKeys`). With one-line references an import is the map update exactly when a line
  can define every selected key (`VaultImport.ImportIsUpdateForWellFormedKeys`); what it means for any keys is stated too
  (`VaultImport.ImportWithAnyKeys`).
- `wrap` uses the fewest lines exactly when its first word fits; otherwise it starts with a blank line
  (`GreedyWrap.WrapIsOptimalUnlessLed`).

Verify the project with `dafny verify dfyconfig.toml`.

## Model

| member | source | states |
|---|---|---|
| Bytes.WriteUInt16LE | apps/dokploy/__test__/gha-connect/zip-fixture.ts:30-32 | a 16-bit field is written low byte first, nothing else changes, and a value out of range throws and writes nothing |
| Bytes.WriteUInt32LE | apps/dokploy/__test__/gha-connect/zip-fixture.ts:33-35 | the same for a 32-bit field |
| Bytes.Read16Written | packages/server/src/services/gha-connect/zip.ts:41 | reading a 16-bit field at any position of any buffer gives back the value written there |
| Bytes.Read32Written | packages/server/src/services/gha-connect/zip.ts:42-43 | the same for a 32-bit field |
| ZipWriter.WriteLocalHeader | apps/dokploy/__test__/gha-connect/zip-fixture.ts:28-36 | the 30 bytes of section 4.3.7, exactly when every value fits its field; otherwise a write throws |
| ZipWriter.WriteCentralHeader | apps/dokploy/__test__/gha-connect/zip-fixture.ts:38-48 | the 46 bytes of section 4.3.12 with the offset of the local header, exactly when the offset fits |
| ZipWriter.WriteEndRecord | apps/dokploy/__test__/gha-connect/zip-fixture.ts:53-58 | the 22 bytes of section 4.3.16, exactly when count, size and offset fit |
| ZipWriter.WriteEntries | apps/dokploy/__test__/gha-connect/zip-fixture.ts:16-51 | the loop lays out the local area and the directory, and its running offset is the length of the local area |
| ZipWriter.BuildZip | apps/dokploy/__test__/gha-connect/zip-fixture.ts:15-60 | the result is the archive of the resolved entries, and a write throws exactly when some number does not fit |
| ZipRoundTrip.ArchiveHoldsFiles | apps/dokploy/__test__/gha-connect/zip-fixture.ts:20-50 | byte for byte, in both headers of file i: flags, method, crc and size are the overrides where given and the defaults where not; behind them the name and the stored or deflated content |
| ZipRoundTrip.ArchiveConstants | apps/dokploy/__test__/gha-connect/zip-fixture.ts:28-48 | the rest of both headers: version 20, no date, no extra field, no comment, no attributes |
| ZipRoundTrip.ArchiveEnd | apps/dokploy/__test__/gha-connect/zip-fixture.ts:53-58 | the end record at the end: both counts, size and place of the directory, no comment |
| ZipFormat.LocalRecordHeld | apps/dokploy/__test__/gha-connect/zip-fixture.ts:37-50 | the local records tile the local area: each lies at its offset and ends where the next begins |
| ZipFormat.ArchiveLayout | apps/dokploy/__test__/gha-connect/zip-fixture.ts:50-59 | in the whole archive every local and every directory record lies where the offsets say, without gap or overlap |
| ZipReader.LocateEnd | packages/server/src/services/gha-connect/zip.ts:31-39 | the scan finds the last end signature within reach, every read inside the buffer |
| ZipReader.WalkDirectory | packages/server/src/services/gha-connect/zip.ts:53-112 | the walk answers from the first record of that name, or from the first damaged one before it |
| ZipReader.ReadZipEntry | packages/server/src/services/gha-connect/zip.ts:23-112 | the reader computes its specification on any bytes, with every read inside the buffer |
| ZipReader.ReadIsSound | packages/server/src/services/gha-connect/zip.ts:3-11 | any bytes are answered if and only if the last end record declares a directory in range and no zip64, the first of its records of that name is neither encrypted nor zip64, directory and local header agree on the name, and the stored range, inflated if need be, has the declared size within the limit and the declared checksum; that content is the answer |
| ZipRoundTrip.ReadArchive | packages/server/src/services/gha-connect/zip.ts:23-112 | on every written archive the reader's answer, or refusal, is the one read off the entry list, for every name and limit |
| ZipRoundTrip.ReadHeld | packages/server/src/services/gha-connect/zip.ts:41-110 | the same for any archive given by its bytes: whatever extra fields and comments its records carry and wherever they lie, zip64 values and a directory out of range refused |
| ZipRoundTrip.ExtrasDoNotMatter | packages/server/src/services/gha-connect/zip.ts:63-67 | extra fields and comments change no answer: it is the one for the archive of the same entries without them |
| ZipRoundTrip.OneEntryHeld | packages/server/src/services/gha-connect/zip.ts:63-90 | an archive of one entry with any extra fields and comments is such an archive, unless its comment fakes an end record |
| ZipRoundTrip.ExtraFieldIsSkipped | packages/server/src/services/gha-connect/zip.ts:89-94 | a stored file is read past the extra field of its local header |
| ZipRoundTrip.FakeEndHidesEntries | packages/server/src/services/gha-connect/zip.ts:31-39 | an archive comment that ends in an empty end record hides every entry |
| ZipRoundTrip.ReadBack | apps/dokploy/__test__/gha-connect/zip-fixture.ts:8-11 | writing files and reading a name gives the first file's data exactly when each override it gives is absent or true and it is within the limit, the limit of zero included |
| ZipRoundTrip.LiesAreRefused | packages/server/src/services/gha-connect/zip.ts:70-108 | which refusal each lie gets: odd flags, a wrong checksum, a wrong, too large or reserved size, a body that inflates past the limit |
| ZipRoundTrip.ReadMissing | packages/server/src/services/gha-connect/zip.ts:111 | a name no file has is reported missing |
| ZipRoundTrip.ParseArchive | apps/dokploy/__test__/gha-connect/zip-fixture.ts:15-60 | a reader of the whole archive recovers every entry in order, with each field and its stored bytes, overridden or not |
| ZipRoundTrip.ParseHeld | apps/dokploy/__test__/gha-connect/zip-fixture.ts:15-60 | the same for any archive given by its bytes, extra fields and comments included |
| ZipRoundTrip.ArchiveInjective | apps/dokploy/__test__/gha-connect/zip-fixture.ts:15-60 | two entry lists with the same archive are equal |
| GreedyWrap.Wrap | scripts/generate-og-image.py:49-61 | the loop on strings is greedy breaking on words, with a blank line in front exactly when the first word is too wide |
| GreedyWrap.GreedyLines | scripts/generate-og-image.py:51-61 | the lines hold the words in order, each fits or is one word, and none could have taken the next word |
| GreedyWrap.LinesOnWidths | scripts/generate-og-image.py:54-57 | in widths: a line of several words is no wider than allowed, and with the next word it would be |
| GreedyWrap.LeadOnWidths | scripts/generate-og-image.py:54-57 | the blank line comes first exactly when the first word is wider than allowed |
| GreedyWrap.WordsAreFound | scripts/generate-og-image.py:52 | however words are spaced with blanks, tabs and line ends, splitting finds exactly them |
| GreedyWrap.PySpacesOneByOne | scripts/generate-og-image.py:52-53 | the characters that split and strip, one by one |
| GreedyWrap.StaysAhead | scripts/generate-og-image.py:51-61 | greedy never falls behind another breaking that started its line no later |
| GreedyWrap.GreedyIsOptimal | scripts/generate-og-image.py:51-61 | no breaking of the words into acceptable lines has fewer lines |
| GreedyWrap.WrapIsOptimalUnlessLed | scripts/generate-og-image.py:49-61 | the returned list is shortest possible if and only if the first word fits, or there is none |
| GreedyWrap.WrapKeepsText | scripts/generate-og-image.py:51-61 | the lines joined by spaces are the words joined by spaces |
| GreedyWrap.WordsOfLine | scripts/generate-og-image.py:52 | splitting joined words finds the same words |
| TelemetryPrivacy.StripShape | apps/dokploy/lib/telemetry-privacy.ts:7-11 | the stripped URL has no query and no hash, and keeps its scheme |
| TelemetryPrivacy.RawPathIsPath | apps/dokploy/lib/telemetry-privacy.ts:50-56 | the path that the verdict looks at is what precedes query and hash, after the authority when there is a scheme |
| TelemetryPrivacy.RawPathIsReferencePath | apps/dokploy/lib/telemetry-privacy.ts:45-56 | that is the path of the URL reference if and only if the URL is not scheme-relative |
| TelemetryPrivacy.StripKeepsPath | apps/dokploy/lib/telemetry-privacy.ts:7-11 | stripping never moves the path, with or without credentials |
| TelemetryPrivacy.StripKeepsPathVerdict | apps/dokploy/lib/telemetry-privacy.ts:49-75 | a stripped URL is sensitive exactly when the path of the original is a sensitive one, and then so is the original |
| TelemetryPrivacy.VerdictOnParts | apps/dokploy/lib/telemetry-privacy.ts:20-75 | a URL of the app, relative or absolute, is sensitive exactly when its path is one of the six names, alone or with a slash behind it, or its query or hash names one of the eleven parameters |
| TelemetryPrivacy.ListedRoutes | apps/dokploy/lib/telemetry-privacy.ts:20-29 | each of the six names, with slashes or anything else behind a slash, is sensitive |
| TelemetryPrivacy.RoutesForInstance | apps/dokploy/lib/telemetry-privacy.ts:59-66 | `/accept-invitation/abc123` is sensitive and `/registered` is not |
| TelemetryPrivacy.StripCutsAuthority | apps/dokploy/lib/telemetry-privacy.ts:9-10 | under a scheme stripping removes what the authority holds up to its first `@`, and only that; without a scheme it removes nothing of it |
| TelemetryPrivacy.SchemeIsWord | apps/dokploy/lib/telemetry-privacy.ts:10 | a scheme is a letter and letters, digits, `+`, `.` or `-`, with `://` behind them, and nothing else is one |
| TelemetryPrivacy.StripTakesOut | apps/dokploy/lib/telemetry-privacy.ts:7-11 | one credentials part, query and hash go; scheme, host and path stay |
| TelemetryPrivacy.StripIsCompleteForOneAt | apps/dokploy/lib/telemetry-privacy.ts:6-11 | no credentials are left if and only if there were none, or the URL has a scheme and its authority one `@` |
| TelemetryPrivacy.StripIsIdempotentForOneAt | apps/dokploy/lib/telemetry-privacy.ts:6-11 | stripping again changes nothing if and only if there is no scheme or at most one `@` in the authority |
| TelemetryPrivacy.SchemeRelativeKeepsCredentials | apps/dokploy/lib/telemetry-privacy.ts:10 | every scheme-relative URL keeps its credentials |
| TelemetryPrivacy.CredentialsSurvive | apps/dokploy/lib/telemetry-privacy.ts:10 | the failing input: `//user:pw@host/x` comes back unchanged |
| TelemetryPrivacy.OriginDoesNotMatter | apps/dokploy/lib/telemetry-privacy.ts:45-50 | a router URL and the absolute URL it leads to get the same verdict |
| SessionReplay.Module.StartSessionReplay | apps/dokploy/lib/session-replay.ts:78-83 | a start does nothing once started or suppressed or on a sensitive location; otherwise one request is sent |
| SessionReplay.Module.SuppressSessionReplay | apps/dokploy/lib/session-replay.ts:96-103 | every recorder's stop function is called, whatever comes of each call, and the list is empty |
| SessionReplay.Module.SettleTask | apps/dokploy/lib/session-replay.ts:35-93 | the code after each await, for every way the awaited promise settles |
| SessionReplay.StepKeepsInv | apps/dokploy/lib/session-replay.ts:29-103 | every step keeps the books balanced: imports begun are pending, failed, dropped or ran; recorders that ran run or were stopped |
| SessionReplay.RunIsSafe | apps/dokploy/lib/session-replay.ts:29-103 | in every interleaving: at most two requests, each SDK started at most once, and once suppressed nothing runs and each stop was called exactly once |
| SessionReplay.SuppressedForGood | apps/dokploy/lib/session-replay.ts:95-103 | after a suppression nothing is imported, started or stopped again, whatever still settles |
| SessionReplay.SuppressedBeforeStart | apps/dokploy/lib/session-replay.ts:79 | a page suppressed before its start asks for nothing, ever |
| SessionReplay.ArrivesTooLate | apps/dokploy/lib/session-replay.ts:50-53 | a module that arrives after the suppression is dropped before its start function is called |
| SessionReplay.ArrivesInTime | apps/dokploy/lib/session-replay.ts:50-54 | one that arrives before starts its recorder, or fails when its start function throws |
| SessionReplay.SafePageImports | apps/dokploy/lib/session-replay.ts:72-90 | on a safe page, in every run without a suppression in which the server answers, by the first or the second request: after seven settled awaits exactly the SDKs of an enabled answer were imported, and run once nothing is pending or failed |
| SessionReplay.NotOkIsNotRead | apps/dokploy/lib/session-replay.ts:33-38 | a response that is rejected or not ok is a failure, whatever its body would say |
| SessionReplay.BadBodyIsFailure | apps/dokploy/lib/session-replay.ts:39-42 | so is one whose body cannot be read |
| SessionReplay.AfterFailure | apps/dokploy/lib/session-replay.ts:84-88 | a failed first request leads to the delay and a second one, a failed second one to nothing |
| SessionReplay.OkIsRead | apps/dokploy/lib/session-replay.ts:38-90 | an ok response is read, and its SDKs imported exactly when it is enabled and nothing suppressed |
| SessionReplayPage.Component.constructor | apps/dokploy/components/shared/session-replay.tsx:17-18 | the mount effect starts replay for the loaded location |
| SessionReplayPage.Component.OnRouteChangeStart | apps/dokploy/components/shared/session-replay.tsx:19-21 | a route change to a sensitive URL suppresses replay |
| SessionReplayPage.NoRecordingOnSensitivePages | apps/dokploy/components/shared/session-replay.tsx:11-15 | over any run of a page, while a recorder runs the location is sensitive if and only if the hash changed since the last load or route change and its new value names a credential |
| SessionReplayPage.HashChangeEscapes | apps/dokploy/components/shared/session-replay.tsx:17-24 | from any safe page, a run exists where a hash change makes the location sensitive and the recorder runs on |
| TraefikWait.PollStatus | apps/dokploy/utils/wait-for-traefik-setup.ts:79-104 | the status loop ends at the first decisive answer, the tenth unknown answer in a row, or the deadline, whichever is first |
| TraefikWait.ProbeHealth | apps/dokploy/utils/wait-for-traefik-setup.ts:106-115 | the health loop ends at the first healthy probe begun before the deadline, or at the deadline |
| TraefikWait.RunOfTen | apps/dokploy/utils/wait-for-traefik-setup.ts:96-99 | the counter reaches ten exactly when the last ten answers were unknown: any other or lost answer resets it |
| TraefikWait.WaitForTraefikSetup | apps/dokploy/utils/wait-for-traefik-setup.ts:63-116 | each outcome occurs if and only if its trace specification holds, for any clock readings; no probe precedes a done answer; every sleep is accounted for; and when the clock tells the time, the wait returns by start + max(initialDelay, timeout + requestTimeout + max(statusInterval, healthInterval)) after at most ceil(timeout / statusInterval) polls |
| TraefikWait.WaitInRealTime | apps/dokploy/utils/wait-for-traefik-setup.ts:63-116 | with positive intervals and any requests at all, the wait in real time ends, within that bound and that many polls |
| TraefikWait.OutcomesExclude | apps/dokploy/utils/wait-for-traefik-setup.ts:6-11 | no trace admits two outcomes |
| TraefikWait.AppliedMeansAnswered | apps/dokploy/utils/wait-for-traefik-setup.ts:92-112 | applied takes a poll that resolved as done and a probe that resolved as healthy, both within their timeout |
| TraefikWait.FailedMeansAnswered | apps/dokploy/utils/wait-for-traefik-setup.ts:86-91 | failed takes a poll that resolved as failed within its timeout |
| TraefikWait.NineUnknownsGoOn | apps/dokploy/utils/wait-for-traefik-setup.ts:31 | nine unknown answers, then a done one and a healthy probe in time: applied |
| TraefikWait.TenUnknownsGiveUp | apps/dokploy/utils/wait-for-traefik-setup.ts:31 | ten unknown answers asked in time: unconfirmed |
| TraefikWait.DeadlineIsExact | apps/dokploy/utils/wait-for-traefik-setup.ts:74-79 | at the first reading plus the timeout nothing is asked any more, just before it is |
| TraefikWait.WithTimeout | apps/dokploy/utils/wait-for-traefik-setup.ts:33-39 | a request takes at most its timeout, and answers exactly when it resolves within it |
| TraefikWait.TimedWaitEnds | apps/dokploy/utils/wait-for-traefik-setup.ts:21-24 | with positive intervals both loops end, even when every request hangs |
| TraefikWait.RealClockExists | apps/dokploy/utils/wait-for-traefik-setup.ts:17-24 | for any requests, options and start there is a clock that tells the time |
| TraefikWait.PollCount | apps/dokploy/utils/wait-for-traefik-setup.ts:79-101 | a poll begun before the deadline is at most the ceil(timeout / statusInterval)-th |
| TraefikWait.FirstErrorLineIsFirst | apps/dokploy/utils/wait-for-traefik-setup.ts:42-48 | no line is shown exactly for a blank message; a shown line is at most 300 characters and starts the first visible text |
| TraefikWait.FirstErrorLineIsWhole | apps/dokploy/utils/wait-for-traefik-setup.ts:42-48 | the shown line is the first line that is not blank, trimmed, to its end or to 300 characters; only blank lines precede it |
| Text.SplitJoin | apps/dokploy/components/shared/vault-import-dialog.tsx:53-66 | splitting joined lines gives the lines back |
| Text.JoinSplit | apps/dokploy/components/shared/vault-import-dialog.tsx:53-66 | joining split lines gives the text back |
| Text.SpacesOneByOne | apps/dokploy/components/shared/vault-import-dialog.tsx:45 | the characters that `trim` removes, one by one |
| EnvText.ParseEnvKeys | apps/dokploy/components/shared/vault-import-dialog.tsx:42-50 | the loop collects exactly the keys of the text's meaning, the map from each key to its first defining line |
| EnvText.BlanksDoNotMatter | apps/dokploy/components/shared/vault-import-dialog.tsx:44-48 | blanks, tabs and carriage returns around a key and its `=` do not change the key a line defines |
| EnvText.CarriageReturn | apps/dokploy/components/shared/vault-import-dialog.tsx:44-48 | nor does the carriage return of a Windows line |
| EnvText.PaddedComment | apps/dokploy/components/shared/vault-import-dialog.tsx:46 | a comment behind blanks defines nothing |
| EnvText.SetEnvValue | apps/dokploy/components/shared/vault-import-dialog.tsx:52-70 | the method computes the specified text: the first defining line rewritten, or one line appended |
| EnvText.AssignmentDefines | apps/dokploy/components/shared/vault-import-dialog.tsx:54-63 | a written line defines its key if and only if the key is trimmed, has no `=` and starts no comment |
| EnvText.RewritesExactlyKnownKeys | apps/dokploy/components/shared/vault-import-dialog.tsx:55-64 | the rewrite path is taken exactly when the key is among the parsed keys |
| EnvText.SetEnvLines | apps/dokploy/components/shared/vault-import-dialog.tsx:64-69 | for one-line input one line is replaced in place, or one added at the end; every other line stays, in order |
| EnvText.SetEnvIsMapUpdate | apps/dokploy/components/shared/vault-import-dialog.tsx:52-70 | a write updates the meaning at that key and nowhere else, if and only if a line can define the key and the value is one line |
| EnvText.SetEnvMeansWritten | apps/dokploy/components/shared/vault-import-dialog.tsx:52-70 | what a write means for any key of one line: an update, or an appended line that defines what it happens to define, unless that was defined before |
| EnvText.CommentedKeyMeansNothing | apps/dokploy/components/shared/vault-import-dialog.tsx:54-70 | for a key that starts with `#` the write is not the map update and changes no meaning |
| EnvText.SplitKeyMeansItsFront | apps/dokploy/components/shared/vault-import-dialog.tsx:54-70 | for a key such as `A=B` the write is not the map update: it defines `A`, unless the text did |
| EnvText.TypedKeys | apps/dokploy/components/shared/vault-import-dialog.tsx:52-70 | the failing inputs `#X` and `A=B` in an empty environment |
| EnvText.SetEnvTwice | apps/dokploy/components/shared/vault-import-dialog.tsx:52-70 | writing the same pair twice equals writing it once if and only if a line can define the key and the value is one line |
| VaultImport.HandleImport | apps/dokploy/components/shared/vault-import-dialog.tsx:163-170 | the loop is the fold of single writes over the selected rows |
| VaultImport.ImportMeaning | apps/dokploy/components/shared/vault-import-dialog.tsx:163-170 | text surgery refines the map update: the imported text means the updated map |
| VaultImport.ImportIsMapUpdate | apps/dokploy/components/shared/vault-import-dialog.tsx:163-170 | the keys are the old ones and the selected ones; a selected key means its last selected row, every other key what it meant before |
| VaultImport.ImportIsUpdateForWellFormedKeys | apps/dokploy/components/shared/vault-import-dialog.tsx:163-170 | with one-line references and any typed keys, the import is the map update if and only if a line can define every selected key |
| VaultImport.ImportMeansWritten | apps/dokploy/components/shared/vault-import-dialog.tsx:163-170 | for any typed keys the import means the fold of what its single writes mean |
| VaultImport.ImportWithAnyKeys | apps/dokploy/components/shared/vault-import-dialog.tsx:163-170 | for any typed keys: a selected key is defined exactly when a line can define it, by the line with the vault reference of its last selected row; what was defined and not selected keeps its meaning |
| EnvText.MeaningIsWellFormed | apps/dokploy/components/shared/vault-import-dialog.tsx:42-50 | every parsed key is one that a line can define |
| VaultImport.NormalizedIsIdentifier | apps/dokploy/components/shared/vault-import-dialog.tsx:34-40 | every default key is an identifier, for any secret name |
| VaultImport.NormalizeTwice | apps/dokploy/components/shared/vault-import-dialog.tsx:34-40 | normalising a default key again changes nothing |
| VaultImport.NormalizeSaysTheName | apps/dokploy/components/shared/vault-import-dialog.tsx:34-40 | a default key has the letters and digits of the name, in order and in upper case; a name without any becomes `SECRET` |
| VaultImport.WordAlone | apps/dokploy/components/shared/vault-import-dialog.tsx:35-38 | a word of letters and digits is itself in upper case |
| VaultImport.SeparatorIsUnderscore | apps/dokploy/components/shared/vault-import-dialog.tsx:36 | whatever stands between two words becomes one underscore |
| VaultImport.EdgesFallAway | apps/dokploy/components/shared/vault-import-dialog.tsx:37 | what stands before the first word or behind the last one falls away |
| VaultImport.NamesForInstance | apps/dokploy/components/shared/vault-import-dialog.tsx:34-40 | `my-.db` gives `MY_DB`, `/1pass/` gives `_1PASS`, `--` gives `SECRET` |
| VaultImport.IdentifierIsWellFormed | apps/dokploy/components/shared/vault-import-dialog.tsx:39-47 | every identifier is a key that a line can define |
| EnvAutocomplete.OffersIdentifierKeys | apps/dokploy/components/shared/env-autocomplete.ts:19-25 | autocompletion offers exactly the identifier-shaped keys that the import dialog sees |
| EnvAutocomplete.KeysOfLine | apps/dokploy/components/shared/env-autocomplete.ts:19-25 | a single line offers the key it defines, if that is an identifier; an absent text offers nothing |
| EnvAutocomplete.KeysInOrder | apps/dokploy/components/shared/env-autocomplete.ts:21-25 | the keys of two texts joined by a newline are those of the first, then those of the second |
| EnvAutocomplete.DefaultImportIsOffered | apps/dokploy/components/shared/env-autocomplete.ts:19-25 | a secret imported under its default key is offered afterwards, whatever keys the other selected rows have |
| AuthSecretMigration.ReEncrypt | apps/dokploy/scripts/migrate-auth-secret.ts:57-64 | the result is a ciphertext of the same text under the new key, or a failure when the old key does not read it |
| AuthSecretMigration.EncryptedClients | apps/dokploy/scripts/migrate-auth-secret.ts:69-78 | the filter keeps exactly the clients whose secret depends on the auth secret |
| AuthSecretMigration.MigrateClients | apps/dokploy/scripts/migrate-auth-secret.ts:89-106 | the first loop carries every selected client over and touches no other, unless a secret is unreadable or an update fails |
| AuthSecretMigration.MigrateRecords | apps/dokploy/scripts/migrate-auth-secret.ts:117-138 | the second loop carries both secrets of every record over, unless one is unreadable or an update fails |
| AuthSecretMigration.MigrateAuthSecret | apps/dokploy/scripts/migrate-auth-secret.ts:66-139 | all or nothing: it commits if and only if every secret is readable and no operation fails; then, table by table, every secret decrypts under the new key to what it did under the old, null, empty and legacy ones keep their bytes, and every replay response is null |
| AuthSecretMigration.RotationsCompose | apps/dokploy/scripts/migrate-auth-secret.ts:66-139 | two rotations in a row carry every secret as one would, so that rotating back restores its text, if and only if every client with an encrypted secret still has one after the first |
| AuthSecretMigration.RotationsAlwaysCompose | apps/dokploy/scripts/migrate-auth-secret.ts:66-139 | with a cipher whose ciphertexts are never empty and never look legacy, rotations always compose |
| AuthSecretMigration.LegacyCiphertextStaysBehind | apps/dokploy/scripts/migrate-auth-secret.ts:74-78 | a lawful cipher with one ciphertext that looks legacy: the second rotation leaves that secret behind |
| DeploymentJobs.FetchInngestEvents | apps/api/src/service.ts:60-102 | against any server: at most five requests, each with the cursor of the answer before, and the first 500 events received |
| DeploymentJobs.PagesFollow | apps/api/src/service.ts:94-99 | against a server that pages a log by tokens, request i continues after the first 100 i events: cursor before nextCursor before the internal id of the last event |
| DeploymentJobs.PagedFetch | apps/api/src/service.ts:60-102 | against any such server the fetch returns exactly the first 500 events, or all of them |
| DeploymentJobs.HonestFetch | apps/api/src/service.ts:60-102 | the same for a server whose tokens are the internal ids of its events |
| DeploymentJobs.BuildDeploymentRowsFromRuns | apps/api/src/service.ts:142-206 | the method returns the sorted rows of the matching events, which show exactly their runs |
| DeploymentJobs.ListingShowsExactly | apps/api/src/service.ts:142-206 | field by field: every run of a matching event is shown with its id, the state its status spells, its start, finish and reason; every matching event without runs as pending; and nothing else |
| DeploymentJobs.AllRowsTell | apps/api/src/service.ts:154-203 | one row per run and one queued row per event without runs: each is there, each row tells of an event, and the count is the sum of max(1, runs) |
| DeploymentJobs.RowAt | apps/api/src/service.ts:154-203 | row by row: behind the rows of the events before it, an event has one row for each run, in order, or its queued row |
| DeploymentJobs.RowsFinishRight | apps/api/src/service.ts:181-200 | only rows of a terminal state carry a finish time, only failed ones a reason |
| DeploymentJobs.SortedPermutes | apps/api/src/service.ts:205 | sorting keeps every row, with its multiplicity |
| DeploymentJobs.SortedIsNewestFirst | apps/api/src/service.ts:205 | with valid times, the rows come newest first |
| DeploymentJobs.SortedIsStable | apps/api/src/service.ts:205 | rows of the same time keep the order of their events and runs |
| DeploymentJobs.ListingConservesJobs | apps/api/src/service.ts:142-206 | the listing is a permutation of the rows, newest first, of the right count |
| DeploymentJobs.FetchDeploymentJobs | apps/api/src/service.ts:209-239 | no jobs without a key, an error without a URL, otherwise the sorted rows of the first 50 matching events fetched |
| ContainerMonitor.ShouldMonitorContainer | apps/monitoring/containers/config.go:31-52 | exclusion wins; then an empty include list admits all, another one what it names |
| ContainerMonitor.MonitoredInWords | apps/monitoring/containers/config.go:31-52 | the same in substrings, without the loops |
| ContainerMonitor.ServiceNameIsTaskPrefix | apps/monitoring/containers/config.go:54-68 | replicas of a swarm service share their key, whatever the task suffix; a name without a dot is its own key |
| ContainerMonitor.CollectLines | apps/monitoring/containers/monitor.go:113-147 | the loop with its map saves exactly the lines that are the earliest of their service |
| ContainerMonitor.CollectMetrics | apps/monitoring/containers/monitor.go:97-147 | a failing command or empty output saves nothing |
| ContainerMonitor.SavedPositions | apps/monitoring/containers/monitor.go:129-145 | a line is saved if and only if it is the earliest of its service |
| ContainerMonitor.SavedLines | apps/monitoring/containers/monitor.go:114-140 | in lines and names: a line is saved exactly when it names a monitored container and no earlier line does for the same service |
| ContainerMonitor.ReplicasAreSavedOnce | apps/monitoring/containers/monitor.go:129-135 | two replicas of a monitored service are stored once |
| ContainerMonitor.OneSavePerService | apps/monitoring/containers/monitor.go:113-147 | no service is saved twice, and a service is saved exactly when it has a parsable monitored line |
| ContainerMonitor.StepKeepsInv | apps/monitoring/containers/monitor.go:81-95 | every step of every goroutine keeps: the mutex has one holder, one goroutine is active, and the flag says so |
| ContainerMonitor.CollectionsNeverOverlap | apps/monitoring/containers/monitor.go:81-95 | under any schedule no two callers are past the guard, the flag is never left set, and a caller is admitted exactly when nobody is active |
| ContainerMonitor.OnlyAdmittedCallersMoveTheFlag | apps/monitoring/containers/monitor.go:82-95 | under any schedule the flag goes up exactly when a caller is admitted and down exactly when it is done |
| ContainerMonitor.SkippedCallerChangesNothing | apps/monitoring/containers/monitor.go:82-87 | under any schedule a caller that is only ever skipped changes nothing: flag and all other callers end where a schedule without it leads |
| ImageClassifier.MatchPatterns | apps/dokploy/lib/backup-coverage.ts:52-58 | testing the last segment and the whole reference finds the first kind that occurs anywhere in the reference |
| ImageClassifier.ClassifyDbImage | apps/dokploy/lib/backup-coverage.ts:36-59 | an absent or empty image has no kind; any other the kind of its stripped reference |
| ImageClassifier.TableByWords | apps/dokploy/lib/backup-coverage.ts:19-29 | the table, word by word and in order |
| ImageClassifier.KindsForInstance | apps/dokploy/lib/backup-coverage.ts:19-29 | `postgres` is postgres, `percona-server-mongodb` is mongo, `nginx` is nothing |
| ImageClassifier.TagDoesNotMatter | apps/dokploy/lib/backup-coverage.ts:40-47 | a tag on an untagged reference does not change what is matched |
| ImageClassifier.DigestDoesNotMatter | apps/dokploy/lib/backup-coverage.ts:42 | a digest does not change what is matched |
| ImageClassifier.HostAndPortSurvive | apps/dokploy/lib/backup-coverage.ts:40-47 | a `host:port/` prefix is no tag: the whole reference is matched |
| ImageClassifier.CaseDoesNotMatter | apps/dokploy/lib/backup-coverage.ts:48 | references equal up to case are of the same kind |

## Left out

- Deflate, CRC-32, UTF-8, the cipher, JSON, `Date` and `URLSearchParams` are parameters; only lossless zlib and decryption of encryption are required, and only where a law is used.
- Strings are sequences of Dafny characters: lone surrogates, and lengths in UTF-16 units, are not modelled; `toLowerCase` and `toUpperCase` act on ASCII letters in `ImageClassifier`, `DeploymentJobs` and `VaultImport`.
- The size limit of Node buffers: an archive is as long as its entries make it.
- GreedyWrap.GreedyIsOptimal: assumes that whatever fits still fits with words taken off either end, which holds for additive text widths but not for every conceivable kerning.
- TelemetryPrivacy.StripIsCompleteForOneAt: browsers also read credentials in `https:///user:pw@host/x` and, without a base of the same scheme, in `https:/user:pw@host/x`; these slash-tolerant forms have no authority in RFC 3986, and `stripUrl` leaves them as they are.
- SessionReplay: a start function that throws counts as no recorder running, even if its recorder had begun; a stop function that is called counts as a recorder stopped; a third-party recorder that keeps running after its stop function, or after it throws, is outside the model.
- SessionReplayPage: the component is mounted once per page load and its listener is registered from the mount on, as the application does.
- TraefikWait.WaitInRealTime: sleeps take exactly their stated time and code between awaits takes none; an answer at the very moment of its timeout counts as an answer.
- AuthSecretMigration.MigrateAuthSecret: the database's own transaction guarantee is modelled as one assignment at commit, and no other writer runs beside the script, which reads its rows before the transaction begins; the check that both secrets are given and differ is not modelled.
- The branch after the transaction of the migration that reports a positive count of failed records: each failure is thrown on, so the branch is not reached; the model has no such counter and one exit for a failure.
- SessionReplayPage: a router URL that begins with two slashes is resolved as a path of the app, not as another host.
- DeploymentJobs.SortedIsNewestFirst: with an unparsable start time the comparison yields NaN and the order is up to the engine; the model then uses a stable insertion that treats NaN as equal.
- DeploymentJobs: the runs of the events are fetched one after another; the source fetches them at once and stores them by event id, which gives the same map.
- ContainerMonitor: memory, network and CPU figures, the ticker, and the metrics tables.
- `stripUrlsInText`, `scrubUrlProperties` and the rest of the Backup Center helpers: short pure functions that would only add easy members.
- The length of the retry delay of session replay, and the words of the reader's refusals.
- React rendering, the schedules and API servers' queue wiring, and the SQL of the monitoring database.
