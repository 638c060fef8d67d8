# scan-bridge and scan-processor, verified

A Dafny model of the parts of a paperless scan bridge that carry its promises, with proofs of
those promises. `dafny verify dfyconfig.toml` checks all of it.

## What is modelled

**The firmware mirror.** The bridge keeps a local cache of panel firmware: directories named
after a tag and a digest of the release's own checksums, a state file for restarts, and one
published release. `CacheProtocol` describes the directory as a state machine whose steps are
single file-system calls; `CacheSafety` proves what every run of it keeps, seen by readers
between any two calls and by a process killed after any of them. `FirmwareMirror` is the object
itself: its methods change the fields and the disk call by call, every call that can fail may
fail at any point unless the mirror is `reliable` (`faulty` remembers it), and each call is entered into a ghost run of the
protocol, so the theorems about runs are theorems about `Refresh` (`CacheRuns` is the bridge).
A run goes over several processes: ending one and starting the next is an action too.
`CacheExceptions` holds short runs that show the exceptions to be real. `Firmware` fills in the
functions the protocol is abstract in. `UpstreamReleases` says what upstream offers, once as the
code looks it up and once over the list of assets and the answers of the network, and that the two
agree. `Releases`, `Checksums` and `ManifestDoc` are the
generation name, the checksum parser and the manifest rewrite; `Throttle` and `RefreshLoop` the
API-call floor and the background loop.

**The document pipeline.** `PipelineSpec` says, as a function of what the external tools answer
for each page, which pages survive and which documents come out. `Pipeline` is the imperative
code: two loops over the pages, OCR passes that append to a shared list of warnings, assembly,
and a context that may expire at any command. `PageWarnings`, `Ocr` and `PipelineTheorems` hold
the attribution of warnings, the reading of OCR data and the theorems. `PipelineOutcomes` says the
whole outcome once more over the tools' answers alone.

**The wire.** `PageLeg` carries scanned pages to the processor, `Delivery` carries documents
back into files, both over the part streams, writers and disk of `Wire`, where connections and
writes may fail. `EndToEnd` joins the pipeline to the files.

**Tags.** `Tags` is the merge of default and caller tags. `Text` holds strings, decimal numbers
and sorting.

## Hypotheses

- SHA-256 is any function to 64 lower-case hexadecimal digits. `Dir` keeps 12 of them, so the
  safety theorems assume that no two releases seen in the run with different checksums share a
  directory name (`NoCollisions`); `Firmware.NoHashCollisionNoDirCollision` reduces that to the
  hash prefixes. `Firmware.Lawful` says that the functions the mirror calls are the package's
  own; `Firmware.LibraryExists` shows that such a set exists for every hash and JSON decoder.
- JSON is a function from bytes to an optional value. The wire theorems assume of the one message
  that is sent that its text decodes to it and, cut off, to nothing else (`Wire.Carries`);
  `Wire.CodecExists` shows that this can be met for any message.
- Nothing outside tampers with the cache, where a theorem says so (`Undisturbed`); other
  theorems allow it and exclude the damaged directories (`Suspect`).
- External tools, the network, the clock and random names are parameters.

## Where code and comments disagree

The model follows the code.

- The comment above `warningsFor` says that per_page documents also carry warnings without a
  page prefix; the code keeps only those with the prefix.
- The comments on timeouts promise a timeout status for expiry. An expired single-pass OCR
  carries both the OCR and the timeout sentinel (`Pipeline.OcrFixed`), and the status table of
  the processor tests the OCR one first.
- The comment on `Refresh` promises a single call when the tag is unchanged; the code also
  fetches the checksum file and compares it.
- `checksumsUnchanged` compares the number of files and their sums by name. For a state file
  whose file list is not as long as its record of sums this is weaker than equality
  (`Firmware.UnchangedCanDiffer`); `Firmware.UnchangedMeansIncluded` gives the exact condition.
- `readProcessResponse` accepts a stream that breaks off after the last declared document,
  because any error then counts as the end; `Delivery.Acceptable` shows it.

## Model

| member | source | states |
|---|---|---|
| `CacheProtocol.SoundStep` | components/scan-bridge/internal/firmware/firmware.go:956-1038 | Every single file-system call of a refresh, a prune, a state write or a restore keeps the cache invariant: files under a generation name belong to a downloaded, checked, renderable release of that name, and the current generation and its predecessor are complete |
| `CacheSafety.AlwaysSound` | components/scan-bridge/internal/firmware/firmware.go:817-1045 | The invariant holds after every call of every run, so a reader or a crash between any two calls meets it |
| `CacheSafety.ServedFilesAreChecked` | components/scan-bridge/internal/firmware/firmware.go:896-950 | At every step each file under a non-staging directory D has the digest that a downloaded and checked release r with r.Dir() == D lists for it |
| `CacheSafety.CurrentAbsentOnlyInTheWindow` | components/scan-bridge/internal/firmware/firmware.go:980-1001 | The directory of the current release is missing exactly between the two renames of an in-place replacement, or after both the publish rename and the restore failed; whenever it is there, all of its files match |
| `CacheSafety.ReadersNeverSeeOtherBytes` | components/scan-bridge/internal/firmware/firmware.go:407-428 | A reader that took the published pointer and opens the file any number of steps later gets bytes with the digest that release records, never another one's |
| `CacheSafety.PublishedFilesStay` | components/scan-bridge/internal/firmware/firmware.go:1026-1038 | After any mix of successful, failed, repairing and rolled-back refreshes, over any number of processes, a once-current release is complete on disk until two further different generations are served; no process may publish without having adopted anything |
| `CacheSafety.OneProcessIsNeverBlind` | components/scan-bridge/internal/firmware/firmware.go:849-852 | Once a process serves something, each of its publications knows the release it replaces |
| `CacheSafety.PublishedFilesStayIff` | components/scan-bridge/internal/firmware/firmware.go:849-852 | For any run with any restarts, after its clean-up: a release that was current is still complete on disk if and only if its directory is among the last two the publications leave known, where a publication by a process that adopted nothing since its start leaves only its own directory known and every other adds one when it changes it |
| `CacheSafety.PublishedManifestWasRendered` | components/scan-bridge/internal/firmware/firmware.go:937-950 | The manifest in place for the current release is one that was rendered, for the same files, before it was published |
| `CacheSafety.CrashSafety` | components/scan-bridge/internal/firmware/firmware.go:1010-1024 | Killed at any point within one publication, with any restarts before, a restart adopts exactly the old release or exactly the new one, if and only if the recorded generation is not set aside or lost at that moment |
| `CacheSafety.GenerationChangeIsCrashSafe` | components/scan-bridge/internal/firmware/firmware.go:901-1045 | A refresh that brings in a different generation, from a recorded release that is in place, may be cut after any of its calls: the restart always adopts the old or the new release, whatever other generations were lost before |
| `CacheSafety.RestartWithinOneChange` | components/scan-bridge/internal/firmware/firmware.go:1010-1024 | Over any number of refreshes and processes a restart finds its recorded release until the generation has changed twice since |
| `CacheSafety.RestartFindsRecordIff` | components/scan-bridge/internal/firmware/firmware.go:1010-1024 | After pruning, a restart finds its recorded release if and only if state.json names the served generation or the one it replaced |
| `CacheSafety.UnrecordedRunsRestartIff` | components/scan-bridge/internal/firmware/firmware.go:1010-1024 | For processes whose state file can never be written, after the clean-up: a restart finds the old record if and only if its directory is among the last two the publications leave known |
| `CacheSafety.SetAsideLosesRestartIff` | components/scan-bridge/internal/firmware/firmware.go:980-988 | Setting a directory aside makes a restart at that moment come up empty if and only if it is the recorded one |
| `CacheSafety.NewCacheIsSound` | components/scan-bridge/internal/firmware/firmware.go:314-316 | The empty cache directory a first start creates is inside the invariant |
| `CacheProtocol.RebootedIsSound` | components/scan-bridge/internal/firmware/firmware.go:335-342 | A crash at any point leaves a directory from which the next process starts inside the invariant |
| `CacheExceptions.TwoUnrecordedChangesLoseTheRecord` | components/scan-bridge/internal/firmware/firmware.go:1010-1024 | A sound run without collisions of two publications whose state is not written, with the clean-up after them, that leaves a record naming an evicted generation: the next start has nothing to serve |
| `CacheExceptions.InterruptedRepairLosesTheRecord` | components/scan-bridge/internal/firmware/firmware.go:980-989 | A sound run of an in-place repair cut between its two renames, after which the next start has nothing to serve |
| `CacheExceptions.BlindPublicationEvicts` | components/scan-bridge/internal/firmware/firmware.go:849-852 | A sound run in which the state of the served release was never written, so that the next process has nothing to adopt, publishes and evicts that release at the first change of generation |
| `CacheRuns.RefreshedActs` | components/scan-bridge/internal/firmware/firmware.go:817-1045 | The calls one Refresh adds to a run have the shape crash safety needs: at most its own destination is set aside, and only clean-up and recording follow the publication |
| `CacheRuns.RefreshIsCrashSafe` | components/scan-bridge/internal/firmware/firmware.go:901-1045 | Crash safety for the calls the Refresh method itself makes: after each of them a restart adopts the old release or the one then published |
| `FirmwareMirror.Mirror.constructor` | components/scan-bridge/internal/firmware/firmware.go:287-318 | New starts with nothing published on the directory left by the processes before it, which it continues as one run |
| `FirmwareMirror.Mirror.TriggerRefresh` | components/scan-bridge/internal/firmware/firmware.go:649-656 | The slot is full afterwards; the answer says whether it was empty |
| `FirmwareMirror.Mirror.VerifyCached` | components/scan-bridge/internal/firmware/firmware.go:596-621 | A clean verdict means every listed file is in place with its recorded digest; a refusal means one is not |
| `FirmwareMirror.Mirror.RemoveTree` | components/scan-bridge/internal/firmware/firmware.go:1254-1259 | Removal touches only its own directory and may stop anywhere |
| `FirmwareMirror.Mirror.PruneStaging` | components/scan-bridge/internal/firmware/firmware.go:1241-1252 | Generations are untouched; a staging directory survives only if its removal failed |
| `FirmwareMirror.Mirror.Prune` | components/scan-bridge/internal/firmware/firmware.go:1219-1231 | The two named generations are untouched; anything else survives only if its removal failed |
| `FirmwareMirror.Mirror.WriteState` | components/scan-bridge/internal/firmware/firmware.go:1188-1202 | state.json is either the new record or exactly what it was, whichever call fails |
| `FirmwareMirror.Mirror.Download` | components/scan-bridge/internal/firmware/firmware.go:1128-1166 | Succeeds exactly when the body arrives, is within the size limit and has the wanted digest, unless a call or transfer fails; then the whole body is in the staged file; failure leaves everything outside staging alone |
| `FirmwareMirror.Mirror.FillStaging` | components/scan-bridge/internal/firmware/firmware.go:917-926 | Succeeds exactly when every listed file can be obtained, unless a call or transfer fails; then exactly the listed files are staged, each the body of its asset with its listed digest |
| `FirmwareMirror.Mirror.Exchange` | components/scan-bridge/internal/firmware/firmware.go:980-1006 | Success replaces the destination and nothing else; a failed publish with a working restore leaves all generations as they were; a failed restore loses the destination only |
| `FirmwareMirror.Mirror.SwapIn` | components/scan-bridge/internal/firmware/firmware.go:976-1010 | The same with the parking slot cleared before and discarded after |
| `FirmwareMirror.Mirror.PublishAndPrune` | components/scan-bridge/internal/firmware/firmware.go:1020-1038 | The release is published whether or not it can be recorded; an in-place replacement evicts nothing, any other keeps the published and the replaced generation |
| `FirmwareMirror.Mirror.MirrorRelease` | components/scan-bridge/internal/firmware/firmware.go:903-1044 | From making the staging directory to removing it: when what is offered is refused the disk is exactly as it was; a failing call changes no generation but in the documented swap failures; a success leaves a complete checked copy of what was offered |
| `FirmwareMirror.Mirror.ChecksumsUnchanged` | components/scan-bridge/internal/firmware/firmware.go:568-586 | True exactly when the upstream listing is as long as the cached file list and agrees name by name |
| `FirmwareMirror.Mirror.IsUpToDate` | components/scan-bridge/internal/firmware/firmware.go:854-884 | The short-circuit is taken if and only if the tag is the cached one, the cache verifies and upstream lists the same checksums, unless a read fails |
| `FirmwareMirror.Mirror.MirrorLatest` | components/scan-bridge/internal/firmware/firmware.go:886-1045 | From the checksum listing on: publishes if and only if the listing parses, names the manifest and everything it lists can be downloaded, matches and renders, unless a call or transfer fails; a failure never touches the published release |
| `FirmwareMirror.Mirror.Refresh` | components/scan-bridge/internal/firmware/firmware.go:817-1045 | Throttled exactly inside the floor and then without effect; every other call records its attempt, and the attempts made are those the floor admits of the calls so far. Said over the assets of the latest release and what the network answers for their URLs: unless a call or transfer fails (on a reliable mirror none does) the outcome is settled. Without a usable tag nothing happens; a cached release with the latest tag, intact and still listed is unchanged; otherwise the release is mirrored, recorded and tidied up exactly when SHA256SUMS lists the manifest and every listed file can be had with its digest and the manifest renders, and else refused for what it lacks. A refused offer leaves the disk exactly as it was; any failure leaves the published release and, outside the documented swap failures, every generation; success publishes exactly the bodies fetched for the listed names and keeps the generation it replaced |
| `FirmwareMirror.MirrorKeepsTheFloor` | components/scan-bridge/internal/firmware/firmware.go:817-833 | Whatever its refreshes did, any window of length w holds at most w / minInterval + 1 attempts of a mirror |
| `FirmwareMirror.MirrorIsSound` | components/scan-bridge/internal/firmware/firmware.go:817-1045 | From a sound beginning, whatever the methods of a mirror have done, its state is inside the cache invariant |
| `FirmwareMirror.MirrorKeepsPublishedFiles` | components/scan-bridge/internal/firmware/firmware.go:1026-1038 | A release current at an earlier point of the mirror's run is still complete on its disk until two further different generations are served |
| `FirmwareMirror.Mirror.Load` | components/scan-bridge/internal/firmware/firmware.go:335-380 | Whatever is on disk, a release is adopted if and only if its tag and names are valid, its manifest is listed and all its files match, unless a call fails; no staging leftover stays and no generation changes |
| `Firmware.AdoptedIff` | components/scan-bridge/internal/firmware/firmware.go:335-380 | What is adopted, down to the characters: the recorded release, if its tag and file names are valid, "manifest.json" is listed, sums are recorded and every listed file is in the directory named after tag and checksums with a hash equal to its sum but for letter case |
| `FirmwareMirror.Mirror.Open` | components/scan-bridge/internal/firmware/firmware.go:407-428 | A file of the published release with that release, or "not cached" exactly when nothing is published or the name is not listed |
| `FirmwareMirror.Mirror.OpenAt` | components/scan-bridge/internal/firmware/firmware.go:440-466 | A file of any generation on disk; "not cached" exactly for an invalid name or a missing file |
| `Firmware.LawfulIsUsable` | components/scan-bridge/internal/firmware/firmware.go:1265-1327 | The package's own name checks, directory names and checksum parser give the mirror all it relies on |
| `UpstreamReleases.CollectUrls` | components/scan-bridge/internal/firmware/firmware.go:843-846 | The loop fills the map from asset names to URLs |
| `UpstreamReleases.UrlsAreLinks` | components/scan-bridge/internal/firmware/firmware.go:843-846 | A name is in the map if and only if some asset has it, and then with the URL of the last such asset |
| `UpstreamReleases.OffersIff` | components/scan-bridge/internal/firmware/firmware.go:886-942 | What the code finds through its map of URLs is a release it can mirror if and only if, over the list of assets, SHA256SUMS brings a listing of at most 64 KiB that names manifest.json, each listed name brings a body of at most 16 MiB with its digest, and the manifest renders |
| `UpstreamReleases.UpToDateIff` | components/scan-bridge/internal/firmware/firmware.go:854-884 | The short-circuit test holds if and only if the tag is the latest, every listed file is in place with its recorded digest, and the listing that the last asset named SHA256SUMS brings has as many names, each with the recorded sum |
| `UpstreamReleases.LackIsRefused` | components/scan-bridge/internal/firmware/firmware.go:886-942 | Each reason for refusing a release is true of the list of assets and what they bring: no such asset, no listing, no manifest in it, a listed file that cannot be had, a manifest that does not render |
| `FirmwareMirror.MirroringIsSettled` | components/scan-bridge/internal/firmware/firmware.go:854-1045 | Together: which of unchanged, mirrored or refused an attempt must come to follows from the assets and the answers |
| `Firmware.WholeReleaseIff` | components/scan-bridge/internal/firmware/firmware.go:886-942 | With the package's own functions: the listing is one that parses, with the names sorted, every body hashes to its listed digest, and the manifest is renderable for the listed names |
| `Firmware.UnchangedMeansIncluded` | components/scan-bridge/internal/firmware/firmware.go:568-586 | For any cached release, "unchanged" means the upstream sums are part of the recorded ones, and equal to them exactly when the file list is as long as the record |
| `Firmware.UnchangedCanDiffer` | components/scan-bridge/internal/firmware/firmware.go:568-586 | A release with a recorded sum that it does not list as a file: it can be adopted, and compares as unchanged with a listing that differs from its record |
| `Firmware.ShortCircuitIsExact` | components/scan-bridge/internal/firmware/firmware.go:568-586 | For a release the mirror built, "unchanged" holds if and only if the upstream checksum map equals the recorded one |
| `Firmware.UnchangedListingSameGeneration` | components/scan-bridge/internal/firmware/firmware.go:568-586 | An unchanged listing under an unchanged tag makes the same files in the same order and the same directory name |
| `Firmware.CachedFileHashesAlike` | components/scan-bridge/internal/firmware/firmware.go:596-621 | A body with the digest recorded for a verified cached file hashes like that file |
| `Firmware.SkippedDownloadWouldMatch` | components/scan-bridge/internal/firmware/firmware.go:854-884 | The skipped download would have had the same directory name, the same files and, file by file, the same hash as the verified cache |
| `Firmware.NoHashCollisionNoDirCollision` | components/scan-bridge/internal/firmware/firmware.go:214-226 | If 12 hash digits separate the listings of some releases, their directories are distinct |
| `Firmware.PublishedUrlResolves` | components/scan-bridge/internal/firmware/firmware.go:485-562 | Every ota.path in a manifest served for release r is accepted by OpenAt and returns bytes hashing to what r records, until two further different generations are published |
| `Firmware.MirrorResolvesPublishedUrls` | components/scan-bridge/internal/firmware/firmware.go:440-466 | The same on the disk of a mirror, for a release that was current at any earlier point of its run, in this process or another |
| `Firmware.CurrentManifestRenders` | components/scan-bridge/internal/firmware/firmware.go:937-950 | Whenever the current release is in place its manifest is there and renders |
| `Firmware.ServeManifest` | components/scan-bridge/internal/firmware/firmware.go:485-502 | The manifest of the published release with every build redirected into its generation, or the exact reason there is none |
| `Releases.DirName` | components/scan-bridge/internal/firmware/firmware.go:214-226 | The name does not depend on the order in which the map yields its keys |
| `Releases.DirIsTagAndHash` | components/scan-bridge/internal/firmware/firmware.go:214-226 | The name is the tag, a hyphen and the first twelve digits of the hash of the listing |
| `Releases.ListingLines` | components/scan-bridge/internal/firmware/firmware.go:219-224 | The hashed text is one line "name:digest" for each name, in ascending order |
| `Text.LessIff` | components/scan-bridge/internal/firmware/firmware.go:219-219 | The order of the names is that of their first difference, with a proper beginning first |
| `Releases.CanonicalTextInjective` | components/scan-bridge/internal/firmware/firmware.go:219-224 | Different checksum maps hash different texts |
| `Releases.EqualDirEqualTag` | components/scan-bridge/internal/firmware/firmware.go:214-226 | Equal directory names mean equal tags and equal hash prefixes |
| `Releases.DirIsValidTag` | components/scan-bridge/internal/firmware/firmware.go:1321-1327 | A generation name passes the check OpenAt applies to it |
| `Releases.ValidTagIff` | components/scan-bridge/internal/firmware/firmware.go:1321-1327 | A tag is usable if and only if it is not empty, does not begin with a dot, holds no separator and is not the name of the state file |
| `Releases.ValidAssetNameIff` | components/scan-bridge/internal/firmware/firmware.go:1309-1315 | A file name is usable if and only if it is not empty, does not begin with a dot and holds no separator |
| `Checksums.ParseChecksums` | components/scan-bridge/internal/firmware/firmware.go:1265-1304 | The loop computes the specified parse, with the names sorted, whatever order the map yields them in |
| `Checksums.ParseOfPrinted` | components/scan-bridge/internal/firmware/firmware.go:1265-1304 | Printing any non-empty checksum map, in any order and digit case, in text or binary mode, with or without "./" and with blank lines between, parses back to that map |
| `Checksums.ParseSound` | components/scan-bridge/internal/firmware/firmware.go:1271-1298 | An accepted file has one well-formed line per entry and nothing else but blank lines; no name occurs twice |
| `Checksums.ReadEntryIff` | components/scan-bridge/internal/firmware/firmware.go:1276-1292 | A line is an entry if and only if it is 64 hexadecimal digits, a space and a rest that is a usable name once white space, one "*" and one "./" are taken off; the sum is kept in lower case |
| `ManifestDoc.RenderManifest` | components/scan-bridge/internal/firmware/firmware.go:516-563 | Succeeds exactly when every build can be redirected; then every ota.path names a carried file of the generation and nothing else in the tree has changed; otherwise the first bad build is reported |
| `ManifestDoc.RenderableIff` | components/scan-bridge/internal/firmware/firmware.go:516-556 | A document can be rendered if and only if it is an object with a non-empty list of builds, each an object with an ota object whose path is a non-empty string without "://" that ends in the name of a carried file |
| `ManifestDoc.BaseIff` | components/scan-bridge/internal/firmware/firmware.go:549-549 | The name taken from a path is its last segment, trailing slashes aside |
| `ManifestDoc.UrlNamesItsFile` | components/scan-bridge/internal/firmware/firmware.go:541-555 | The base of a published path is the file name again, and it never looks like an absolute URL |
| `ManifestDoc.RedirectedTarget` | components/scan-bridge/internal/firmware/firmware.go:530-556 | A build of a rendered manifest still names the carried file its path ended in, now as /firmware/generation/name |
| `ManifestDoc.RenderIdempotent` | components/scan-bridge/internal/firmware/firmware.go:516-563 | Rendering a rendered manifest again succeeds and changes nothing |
| `Throttle.RetryDelay` | components/scan-bridge/internal/firmware/firmware.go:802-810 | A retry delay is never zero |
| `Throttle.FloorEnds` | components/scan-bridge/internal/firmware/firmware.go:625-639 | The floor is over if and only if there is none, nothing has been attempted, or one interval has passed since; what remains counts down to that instant |
| `Throttle.RetryIsDue` | components/scan-bridge/internal/firmware/firmware.go:802-810 | A failed attempt is due again at the end of the floor if that is still running when it ends, else one interval later, or one second later when there is no interval |
| `Throttle.OneMoreAttempt` | components/scan-bridge/internal/firmware/firmware.go:625-639 | One more call adds an attempt exactly when the floor, counted from the recorded one, has expired |
| `Throttle.AttemptsAreSpaced` | components/scan-bridge/internal/firmware/firmware.go:817-833 | Attempts that pass the floor are at least one interval apart, whatever their outcome |
| `Throttle.AttemptsInAWindow` | components/scan-bridge/internal/firmware/firmware.go:817-833 | Any window of length w holds at most w / minInterval + 1 attempts |
| `RefreshLoop.Run` | components/scan-bridge/internal/firmware/firmware.go:668-769 | The loop with its local failure count, armed flag and trigger slot follows the transition system that the rows below speak of |
| `RefreshLoop.FailureIsRetried` | components/scan-bridge/internal/firmware/firmware.go:748-768 | A tick or press whose attempt fails has three retries, the timer what its series has left. Within the budget a timer is armed afterwards, due within the longest wait; a newly armed one is due exactly at the end of the floor, or one interval (or second) after an attempt that outlasted it, and the floor does not refuse it. Past the budget no timer is armed |
| `RefreshLoop.StartupFailureIsRetried` | components/scan-bridge/internal/firmware/firmware.go:706-709 | The same for the attempt at startup |
| `RefreshLoop.NoFailureIsForgotten` | components/scan-bridge/internal/firmware/firmware.go:693-768 | After any run, a series of one to three failures has its retry armed |
| `RefreshLoop.SuccessEndsTheSeries` | components/scan-bridge/internal/firmware/firmware.go:753-768 | A successful attempt gives the whole budget back and arms nothing |
| `RefreshLoop.HeldWakeUpIsDeferred` | components/scan-bridge/internal/firmware/firmware.go:748-751 | A wake-up inside the floor arms the timer for the instant the floor ends, unless one is armed, and costs no retry |
| `RefreshLoop.ArmedAndQueuedStay` | components/scan-bridge/internal/firmware/firmware.go:681-688 | An armed timer keeps its deadline until it fires; the trigger slot is emptied only by the wake-up it causes |
| `RefreshLoop.NoWakeUpIsLost` | components/scan-bridge/internal/firmware/firmware.go:668-769 | After any run, once the loop has taken a tick, press or timer firing and started no attempt since, the floor is running and the timer is armed, due no later than lastAttempt + minInterval, whatever else is queued; a press or tick that still waits has been taken so or is in the trigger slot |
| `RefreshLoop.TakenMeansNotAttempted` | components/scan-bridge/internal/firmware/firmware.go:748-753 | A wake-up counts as taken and waiting exactly when it made no call of Refresh; a press only fills the slot |
| `RefreshLoop.OwedIsServedWhenTheFloorEnds` | components/scan-bridge/internal/firmware/firmware.go:748-751 | Any wake-up after the floor attempts at once; one inside it leaves a timer due no later than the end of the floor, even if another was armed before |
| `RefreshLoop.RetrySeriesIsBounded` | components/scan-bridge/internal/firmware/firmware.go:698-768 | At most maxRetries + 1 consecutive failures in a series, and after the last no timer is armed |
| `RefreshLoop.LoopComesToRest` | components/scan-bridge/internal/firmware/firmware.go:668-769 | Without further ticks or presses at most maxRetries + 2 timer firings follow, whatever their times and outcomes |
| `RefreshLoop.RunIsNeverThrottled` | components/scan-bridge/internal/firmware/firmware.go:748-753 | No call Run makes is refused by the floor, so each one is an attempt |
| `Pipeline.RunCommand` | components/scan-processor/internal/pipeline/exec_pipeline.go:466-480 | A command cannot succeed once the context has expired, and a failure is a timeout exactly when it has expired by then |
| `Pipeline.FirstPass` | components/scan-processor/internal/pipeline/exec_pipeline.go:148-189 | The survivors and their images, with the warnings of all pages; a page whose command fails late is kept, so the run cannot end as "all blank" |
| `Pipeline.OcrFixed` | components/scan-processor/internal/pipeline/exec_pipeline.go:319-332 | One pass and the confidence its tsv gives, 0 when it cannot be read; a failure is an OCR failure, and a late one also a timeout |
| `Pipeline.OcrAuto` | components/scan-processor/internal/pipeline/exec_pipeline.go:367-421 | At most two commands. It succeeds exactly when the first pass runs, and keeps the second one, with its language and mean, exactly when the first tsv can be read and its words point to a language that is neither German nor English, the pass in it leaves a readable tsv, and its mean is greater; in every other case it keeps the first (0 when that tsv cannot be read). A late failure of either is a timeout |
| `Pipeline.FinishPage` | components/scan-processor/internal/pipeline/exec_pipeline.go:214-244 | Fails exactly when OCR or the conversion fails; a late failure is an error with the timeout among its causes |
| `Pipeline.FinishPages` | components/scan-processor/internal/pipeline/exec_pipeline.go:205-245 | Paths, original indexes and confidences stay parallel to the survivors |
| `Pipeline.FilterWarnings` | components/scan-processor/internal/pipeline/exec_pipeline.go:657-666 | The loop returns the warnings with the page's prefix, in order |
| `Pipeline.ApplyGate` | components/scan-processor/internal/pipeline/exec_pipeline.go:635-645 | Mean and verdict of the given range of confidences, or no change without OCR or outside the range |
| `Pipeline.AssemblePerPage` | components/scan-processor/internal/pipeline/exec_pipeline.go:533-552 | One document per page, in order, each with its own page's warnings and confidence; fails exactly when a page cannot be read |
| `Pipeline.AssembleCombined` | components/scan-processor/internal/pipeline/exec_pipeline.go:554-623 | One document of all pages; several pages in one jpeg or png are refused as unsupported |
| `Pipeline.Process` | components/scan-processor/internal/pipeline/exec_pipeline.go:99-269 | A success delivers exactly the pages whose brightness could not be read or lies below the threshold (all of them unless removal was asked for), as the documents the rows of PipelineOutcomes describe; without expiry it succeeds if and only if SucceedsFromTools says so; if any command fails while the context is expired the result is an error that is a timeout, never documents; at most seven commands per page and one more are run; each kind of failure has its sentinel |
| `PipelineOutcomes.BlankPagesAreRemoved` | components/scan-processor/internal/pipeline/exec_pipeline.go:162-171 | Said over the tools' answers: a page is left out of a successful run if and only if removal was asked for, its brightness was read and is at or above the threshold |
| `PipelineOutcomes.PagesAreTreatedAsAsked` | components/scan-processor/internal/pipeline/exec_pipeline.go:153-245 | Every delivered image is its page, straightened exactly when asked and deskewing worked, then turned by the detected angle exactly when asked, the angle is not 0 and turning worked, then made a searchable PDF in the languages of the kept pass, or converted to the wanted format |
| `PipelineOutcomes.AutoKeepsTheBetterPass` | components/scan-processor/internal/pipeline/exec_pipeline.go:367-421 | For a readable first pass: if its words point elsewhere and the pass in that language leaves a readable tsv, that pass is kept if and only if its mean is greater; in every other case the first is |
| `PipelineOutcomes.PageOcrMeans` | components/scan-processor/internal/pipeline/exec_pipeline.go:194-226 | Which pass a page needs and what confidence it gets, with fixed languages (deu and eng if none are named) or automatic ones |
| `PipelineOutcomes.GuessIsEarliestBest` | components/scan-processor/internal/pipeline/exec_pipeline.go:383-386 | The language guessed from a tsv is the earliest of deu, eng, fra, ita, spa, nld and por with the greatest positive score of its words |
| `PipelineOutcomes.TsvMeanIsTheShare` | components/scan-processor/internal/pipeline/exec_argv.go:150-177 | The mean of a tsv times its number of word rows is the sum of their confidences |
| `PipelineOutcomes.SaidBeforeOcr` | components/scan-processor/internal/pipeline/exec_pipeline.go:153-187 | What is said about a page before OCR: a failed deskewing, a failed blank check or the removal, a failed orientation check or turn, in this order and each under its own condition |
| `PipelineOutcomes.SaidInFixedOcr` | components/scan-processor/internal/pipeline/exec_pipeline.go:319-332 | What OCR with fixed languages says about a page: that its tsv cannot be read, or that it holds no words |
| `PipelineOutcomes.SaidInAutomaticOcr` | components/scan-processor/internal/pipeline/exec_pipeline.go:367-421 | What automatic OCR says about a page, by what became of its two passes |
| `PipelineOutcomes.DocumentsAreLabelled` | components/scan-processor/internal/pipeline/exec_pipeline.go:533-645 | Documents are numbered in order, named after the request id with the extension and content type of the format, count their pages, and carry the mean of their pages' confidences, flagged if and only if it is below the threshold (80 if none is set) |
| `PipelineOutcomes.SucceedsFromTools` | components/scan-processor/internal/pipeline/exec_pipeline.go:99-269 | A run succeeds if and only if the request is well formed, the binaries it needs and its scratch files are there, some page stays, every page that stays has its OCR run and conversion, and the result can be read or, for several pages in one document, be joined, which only PDF and TIFF allow |
| `PipelineTheorems.PagesAreConserved` | components/scan-processor/internal/pipeline/exec_pipeline.go:139-269 | The pages assembled are a strictly increasing subsequence of the input, exactly those not removed as blank; page counts plus removed pages add up to the request; per_page gives one document for each |
| `PipelineTheorems.SucceedsIff` | components/scan-processor/internal/pipeline/exec_pipeline.go:99-269 | With every tool working, a valid request succeeds if and only if some page is not blank and it does not ask for several pages in one jpeg or png |
| `PageWarnings.PrefixIdentifiesPage` | components/scan-processor/internal/pipeline/exec_pipeline.go:657-666 | A page's prefix matches a warning about page j exactly when it is page j |
| `PageWarnings.GatherByPage` | components/scan-processor/internal/pipeline/exec_pipeline.go:148-245 | Collecting early warnings of all pages and OCR warnings of the survivors loses and repeats none |
| `PipelineTheorems.FilterIsExact` | components/scan-processor/internal/pipeline/exec_pipeline.go:657-666 | The prefix filter gives back exactly what was said about a page, once and in order |
| `PipelineTheorems.PageDocumentHasItsWarnings` | components/scan-processor/internal/pipeline/exec_pipeline.go:533-552 | A per_page document has exactly its own page's warnings, once and in order, followed by its own low-confidence message if it is flagged |
| `PipelineTheorems.WarningsArePartitioned` | components/scan-processor/internal/pipeline/exec_pipeline.go:533-552 | The warnings of a run are those of its pages put together; each per_page document has exactly its own page's share, so only those of removed pages are left out, and a combined document has all of them in order; either adds only its own low-confidence message |
| `PipelineTheorems.PerPageGate` | components/scan-processor/internal/pipeline/exec_pipeline.go:635-645 | A per_page document carries its own page's confidence and verdict |
| `PipelineTheorems.GateAgreesAcrossGroupings` | components/scan-processor/internal/pipeline/exec_pipeline.go:635-645 | For the same pages the combined confidence lies between the least and the greatest page's; a flagged whole has a flagged page, and a whole whose pages are all flagged is flagged |
| `PipelineTheorems.AutoNeverWorse` | components/scan-processor/internal/pipeline/exec_pipeline.go:367-421 | The automatic choice reports at least the first pass's confidence, together with the languages whose output earned it, and changes language only for a strictly better pass |
| `Ocr.MeanOf` | components/scan-processor/internal/pipeline/exec_argv.go:193-202 | The loop computes the mean |
| `Ocr.MeanBetween` | components/scan-processor/internal/pipeline/exec_argv.go:193-202 | A mean lies between any bounds of its values |
| `Ocr.ParseTSV` | components/scan-processor/internal/pipeline/exec_argv.go:150-177 | Mean, number and words of exactly the word rows with a confidence that is a number and not negative |
| `Ocr.RowOfColumns` | components/scan-processor/internal/pipeline/exec_argv.go:155-172 | A line of columns counts if and only if it has at least twelve of them, 5 in the first and a number that is not negative in the eleventh; it yields that number and the twelfth |
| `Ocr.RowsOfLines` | components/scan-processor/internal/pipeline/exec_argv.go:152-155 | The header is skipped whatever it says and the rows of the other lines come in their order |
| `Ocr.MeanIsNotNegative` | components/scan-processor/internal/pipeline/exec_argv.go:150-177 | The mean of a tsv is never negative |
| `Ocr.DetectLanguage` | components/scan-processor/internal/pipeline/exec_argv.go:289-311 | The nested counting loop over a score map computes the specified scores and choice |
| `Ocr.DetectedIsEarliestBest` | components/scan-processor/internal/pipeline/exec_argv.go:289-311 | The result is the earliest candidate of greatest positive score, or empty if and only if all scores are zero |
| `Ocr.ScoreOfOneMore` | components/scan-processor/internal/pipeline/exec_argv.go:291-303 | One more word adds to a candidate's score as often as it stands, less the punctuation around it, among that candidate's stop words |
| `Ocr.FieldsOfJoin` | components/scan-processor/internal/pipeline/exec_argv.go:290-291 | Words joined by single spaces are scored as those words |
| `Ocr.TrimSplits` | components/scan-processor/internal/pipeline/exec_argv.go:292-292 | Punctuation is taken off both ends of a word, all of it and nothing else |
| `Delivery.WriteProcessResponse` | components/scan-processor/internal/procapi/handlers.go:397-448 | The connection takes the metadata and one part per document, in order, or a beginning of that cut short; the metadata of a document has its index, page count, name, content type, warnings, confidence and verdict |
| `Delivery.SafeDocumentPath` | components/scan-bridge/internal/procclient/http_client.go:371-383 | A path is given exactly for names without separators other than "", "." and "..", and it is the name joined to the directory |
| `Delivery.ReadDocument` | components/scan-bridge/internal/procclient/http_client.go:316-349 | One part read, its name checked, its bytes written; an error exactly when there is no such part, the name is unsafe, the part breaks off or the disk fails |
| `Delivery.ReadProcessResponse` | components/scan-bridge/internal/procclient/http_client.go:284-363 | Accepted exactly when the metadata decodes, every declared document has its whole part and a safe name and there is no further part (disk failures aside); then the documents and files are those declared; whatever happens, nothing outside the directory's own safe names changes |
| `PageLeg.ReadScanResponse` | components/scan-bridge/internal/dispatch/http_client.go:220-276 | Page parts become page-1, page-2, ... in order; accepted exactly when all are whole and the stream ends properly |
| `PageLeg.ScannedPagesLand` | components/scan-bridge/internal/dispatch/http_client.go:252-276 | The n-th page of an accepted scan stands under page-n in the directory, .tiff for image/tiff and .bin otherwise, with its bytes, and no other file has changed |
| `PageLeg.EncodeProcessRequest` | components/scan-bridge/internal/procclient/http_client.go:179-236 | The settings as control payload and the page files' bytes as parts, in order; fails only when a page cannot be read |
| `PageLeg.DecodeProcessRequest` | components/scan-processor/internal/procapi/handlers.go:344-391 | Accepted exactly when the payload decodes, every part is whole and the stream ends properly; then payload and pages in order |
| `PageLeg.RawPathsAreDistinct` | components/scan-bridge/internal/dispatch/http_client.go:252-266 | No scanned page overwrites another |
| `PageLeg.PagesReachTheProcessor` | components/scan-bridge/internal/procclient/http_client.go:179-236 | From scanner stream to decoded request the pages keep their bytes and order, and whatever else arrives of the request is refused |
| `EndToEnd.SettingsReachThePipeline` | components/scan-processor/internal/procapi/handlers.go:285-295 | Whatever arrives of a request, if it is accepted then the pipeline is asked for what the bridge asked: every setting under its own name, grouping and format by theirs, and the pages in order |
| `EndToEnd.DocumentsAreWellNamed` | components/scan-processor/internal/pipeline/exec_pipeline.go:540-563 | The names a run gives its documents are pairwise distinct |
| `EndToEnd.NameIsSafeIff` | components/scan-bridge/internal/procclient/http_client.go:371-383 | A generated name is accepted by the reader if and only if the request id holds no separator |
| `EndToEnd.NameIsNotARawPage` | components/scan-bridge/internal/api/scan.go:249-260 | With a hexadecimal id no document is named like a raw page-N file |
| `EndToEnd.NameIsARawPageIff` | components/scan-processor/internal/pipeline/exec_pipeline.go:540-563 | Whatever the request id and content type, a document has the name of raw page n if and only if it is a combined tiff, the raw page is a tiff and the request id is "page-n"; a per_page name never is one |
| `EndToEnd.AcceptedIsExact` | components/scan-bridge/internal/procclient/http_client.go:284-363 | Whatever arrives of a response, if it is accepted it is read as the metadata and the bodies that were sent |
| `EndToEnd.CompleteResponseIsAcceptedIff` | components/scan-bridge/internal/procclient/http_client.go:284-363 | A complete response is accepted if and only if the request id holds no separator |
| `EndToEnd.AcceptedDocumentsWereSent` | components/scan-bridge/internal/procclient/http_client.go:308-363 | An accepted response has delivered exactly the documents sent, in order: index, name, content type, page count, warnings, confidence and verdict of each are the pipeline's, its path is the directory, a slash and its name and holds its bytes, and no raw page has changed |
| `EndToEnd.RunsAreDelivered` | components/scan-processor/internal/procapi/handlers.go:397-448 | For every successful run of the pipeline: its response either becomes exactly its documents, field by field and byte by byte, or is refused, and one that arrives to its end is not refused |
| `Tags.Dedup` | components/scan-bridge/internal/tag/merge.go:51-62 | The loop with its set of seen values computes the first occurrences |
| `Tags.RemoveTags` | components/scan-bridge/internal/tag/merge.go:67-80 | The loop with its exclusion set computes what is left |
| `Tags.Merge` | components/scan-bridge/internal/tag/merge.go:27-47 | The strategies in their order of precedence; no caller tags means the defaults as they are |
| `Tags.MergedMembers` | components/scan-bridge/internal/tag/merge.go:27-47 | A tag is in the result if and only if the strategy in force (the caller's override, else the profile's) puts it there: the caller's tags, the defaults without them, or both; without caller tags the defaults stay as they are |
| `Tags.MergedOrder` | components/scan-bridge/internal/tag/merge.go:27-47 | In order: the first occurrences in the caller's list or in the defaults followed by it, or the defaults that remain |
| `Tags.DedupKeepsFirstOccurrences` | components/scan-bridge/internal/tag/merge.go:51-62 | Exactly the positions whose value has not occurred before are kept, in order |
| `Tags.DedupInRounds` | components/scan-bridge/internal/tag/merge.go:51-62 | dedup(dedup(a) + b) == dedup(a + b) |
| `Tags.AddMergesCompose` | components/scan-bridge/internal/tag/merge.go:27-47 | Adding two non-empty caller lists one after the other is adding their concatenation once |
| `Tags.RemoveKeepsTheRest` | components/scan-bridge/internal/tag/merge.go:67-80 | Exactly the defaults outside the caller's list are kept, in order |

## Left out

- HTTP, routing, authentication, health checks, metrics, logging, configuration and profiles: plumbing.
- Status-code tables, the mapping of sentinels to them and the validation of a request's settings: finite tables without state.
- The tools themselves (convert, identify, tesseract, qpdf), their argument lists and the parsing of brightness and orientation output: each command answers per page with a value or a failure; a missing identify binary is one of the failures of the brightness check.
- Multipart boundaries, content types, JSON text and the hash: library code behind parameters.
- Floating point: confidences and thresholds are reals, so nothing is said of NaN, infinities or rounding.
- Bytes that are not valid UTF-8: strings are sequences of code points. Case folding is ASCII, which is exact where one side is hexadecimal; lower-casing OCR text is a parameter.
- The wording of warnings after the page prefix: a parameter of the tools.
- Scratch files of the pipeline: a page image is a value that records how it was made.
- Durability below one file-system call, permission bits and modification times: a failing chmod is modelled as a failure, its effect is not.
- Plain files and links where directories of the cache are expected.
- The size limit on the release document: an over-long one is a failed answer.
- Cancellation of the background loop, and presses that arrive while an attempt is running: they are handled at the next wake-up.
- Clean-up of a scan's directory after a request, including files left by a refused response.
- RefreshLoop.Run: the clock readings of one wake-up up to arming the timer count as one instant.
- CacheSafety.GenerationChangeIsCrashSafe: does not cover an in-place replacement, for which it is false (CacheExceptions.InterruptedRepairLosesTheRecord); CrashSafety and SetAsideLosesRestartIff say exactly when.
- CacheSafety.RestartWithinOneChange: does not cover two further generations without a written state, for which it is false (CacheExceptions.TwoUnrecordedChangesLoseTheRecord); RestartFindsRecordIff and UnrecordedRunsRestartIff say exactly when.
- CacheSafety.PublishedFilesStay: does not cover a publication by a process that adopted nothing, for which it is false (CacheExceptions.BlindPublicationEvicts); PublishedFilesStayIff says exactly when.
- FirmwareMirror.Mirror.Refresh: the mutex that serialises refreshes is the atomicity of the method; readers run between its calls in the protocol, not between its statements.
