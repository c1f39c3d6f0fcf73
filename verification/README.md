# A verified model of the wireless-controller simulator

The simulator runs a set of fake Cisco 9800-CL controllers on one host and can replace its own
binaries from a published release. This project models its stateful and algorithmic parts in Dafny and
proves what they are for. `dafny verify dfyconfig.toml` checks everything.

## How it is organised

| file | what it models |
|---|---|
| `Files.dfy` | a file system changed by renames, any of which may be refused |
| `Cutover.dfy` | one run of the detached update helper, as a pure account of every failure pattern |
| `Helper.dfy` | the helper as it runs: its loops, polls and clock, tied to that account |
| `Version.dfy`, `Checksums.dfy` | release versions and their order; the checksum listing, written and read |
| `Handoff.dfy` | the updater in front of the helper: any number of racing attempts, the busy flag, the timer |
| `Races.dfy` | what that order of actions costs: deletions and helpers that come after the flag is free |
| `Device.dfy`, `Config.dfy` | a site, its built-in access point and its rendered config; the config file |
| `Roster.dfy` | what a change does to one device's access points and clients |
| `Ledger.dfy`, `Simulator.dfy` | the running simulator, one call at a time: its calls told as a book, with the results about whole runs, and its methods, proved to keep that book |
| `Lifecycle.dfy` | the same simulator's calls interleaving at their lock boundaries |
| `Replacements.dfy`, `Leftovers.dfy` | what a config replacement can do amid such calls, and what they leave on the host's interface |
| `Lan.dfy` | finding unused LAN addresses and giving them to devices |
| `AccessLog.dfy`, `Shell.dfy`, `Xml.dfy` | the bounded log, the line editor, the recursive XML printer |
| `Text.dfy`, `Wrappers.dfy` | string-library operations; option and result types |

Loops and objects of the program are loops and classes here, each proved equal to a specification
function; the theorems are lemmas about those functions and about all their runs. Everything outside the
program (which renames and writes fail, what a poll answers, whether an address is taken, what a download
brings) is an arbitrary function or an arbitrary step argument, so each theorem is about every such behaviour.

## The main results

* **Self-update.** For any list of binaries with distinct paths and every pattern of refused renames and
  health answers: after every single rename of the install or of the rollback, each binary's previous bytes are
  whole at its live or at its backup path (`CrashSafe`); "done" means everything was swapped
  (`DoneInstallsEverything`); the failure count is exact (`RecoveryIsExact`); renames are tried only under a stop
  order, health polls only under a start order, which is always the last (`RunSequence`). In front of it, for any interleaving
  of any number of attempts, the busy flag has at most one owner and only verified bytes of a newer release
  are ever left staged for the helper of the attempt that holds it (`FromStart`, `LaunchedIsVerified`). Together: as
  long as its attempt holds the flag, whatever a helper moves to a live path has the digest published for its own
  newer release, in every interleaving (`TakenIsVerified`, `DoneIsVerified`); once its timer has fired that is no longer
  so (`SafeHelperExactly`). An attempt that gives up leaves nothing staged while nobody
  else downloads (`FailureLeavesNothing`).
* **The simulator.** Each call keeps the running servers and the state file in step with the devices and says
  exactly what it leaves when it fails; over any run of calls the stale cached configs are exactly those of devices
  that lost a client in a failed roam and were not changed since (`StaleExactly`, `Serve`), and every named site
  keeps its one default access point (`DefaultsKeptOverRuns`); the state file holds exactly what runs unless a failed
  roam, a factory reset or a replacement that failed halfway came after the last save (`StateFileExactly`).
  Interleaved, with other calls' address changes falling inside a replacement too, no stop channel is ever closed
  twice, and no server leaks while the listed addresses are distinct (`NoServerLeaks`); where every address change
  works, no address is left behind (`OnlyListedRemain`, `InterfaceBalances`).
* **Round trips.** Checksum listing, versions, saved configs and XML documents read back as what was written, the
  documents whatever order each nested map was visited in (`PrintoutsAlike`), and what a reader finds in them is said
  from the values themselves (`PrintoutSays`, `RootsSayMaps`).
* **Each operation's own law.** Beside the function an operation is proved equal to stands a law that does not name
  that function: what a change to a device does to its clients (`AddClientAdds` and its neighbours), which addresses
  are on offer and in what order (`AcceptedExactly`, `AcceptedInOrder`), what a terminal session shows
  (`Conversation`), what the defaults are (`BareClient`, `BareSite`), how lenient version reading is (`ParseLenient`).

## Where the code does less than it or its comments say

Each of these is proved: the exact condition under which the code keeps its promise, or an input or run on which
it does not.

* A rollback can be reported as `rolled_back` although the live file is not as before: a binary that was missing
  at the start but has a stale backup gets the backup. `RollbackHonestExactly` shows this is the only way.
* A failed update run frees the busy flag before deleting its staged files, so it can delete the files a later
  attempt has just verified; and the timer frees the flag although the helper may only be held up in the service
  manager, so that helper can take them. `StaysStagedExactly` gives the condition, `LateDeletionHappens` and
  `StrayHappens` runs, and `LateDeletionExample` a concrete one.
* Such a helper can also run to "done" on files that are not its release's and that nobody has verified:
  `SafeHelperExactly` shows that its timer is what decides, `TimedOutInstallsJunk` gives a run and
  `TimedOutExample` a concrete one.
* `EnsureDefaultAP` says it leaves exactly one default access point; `EnsuresOneExactly` shows it does so if and
  only if at most one was marked.
* `UpdateClient` with a missing target access point reports an error but has lost the client, and the cached
  config is stale: `ErrorsChangeNothingExactly` and `StaleExactly`.
* Saved state does not always come back as it was: a client added with unset fields reloads with them filled in.
  `ReloadsExactly` says which configurations are reproduced.
* A config replacement does not check for duplicate addresses and does not look at calls in progress, not even at one
  that has only passed its duplicate check: `ReplacementKeepsExactly` gives the exact condition when it takes the lock,
  `FinishKeepsOneOwnerExactly` when it writes the list; `CheckedCanDuplicate` and `ReplaceCanDuplicate` are runs.
* The LAN address search does not look at the addresses the devices already list: `DistinctAfterSetup` and
  `SameAddressTwice`.

## Model

| member | source | states |
|---|---|---|
| `Files.Rename` | internal/updater/helper.go:137-147 | A rename succeeds exactly if it is not refused and its source exists, a missing source is reported apart, a failure changes nothing, and no third path is touched |
| `Cutover.BackupMove` | internal/updater/helper.go:137-142 | The backup rename of binary i, failed or not, leaves every binary's old bytes whole; unless it is refused (a missing live file is tolerated) binary i is then halfway and all others as before |
| `Cutover.SwapMove` | internal/updater/helper.go:143-148 | The install rename either completes binary i or leaves it halfway, and no old bytes are lost |
| `Cutover.InstallProgress` | internal/updater/helper.go:134-152 | Where the install loop stops it has swapped exactly the binaries before that point, left the one it stopped at halfway or untouched, and touched none after |
| `Cutover.InstallContinues` | internal/updater/helper.go:134-152 | After every rename of the install loop every binary's old bytes are whole somewhere and no foreign path has changed |
| `Cutover.InstallBackedUp` | internal/updater/helper.go:134-152 | Whatever list is handed to recovery is backed up in full, everything beyond it is untouched, and a complete install swapped all |
| `Cutover.RestoreMove` | internal/updater/helper.go:206-213 | One restore rename reports success exactly if the binary ends up restored, and harms no other |
| `Cutover.RollbackEffect` | internal/updater/helper.go:204-216 | The returned count is exactly the number of listed binaries not restored, and every state passed through is a good one |
| `Cutover.RollbackClean` | internal/updater/helper.go:204-216 | With no rename refused and every backup present, rollback restores all |
| `Cutover.DoneInstallsEverything` | internal/updater/helper.go:116-165 | "done" means the old process stopped, the new one answered, every live path holds the staged bytes and every backup path the previous ones |
| `Cutover.RenamesOnlyOnceStopped` | internal/updater/helper.go:127-152 | A rename is tried if and only if the old process is gone and there is something to install; otherwise no file has changed, and a process that would not stop is reported "failed" |
| `Cutover.CrashSafe` | internal/updater/helper.go:116-216 | In every run, after every rename of install and rollback, each binary's previous bytes are whole at its live or its backup path, and nothing but the binaries' own paths has changed |
| `Cutover.RecoveryIsExact` | internal/updater/helper.go:177-216 | In every recovered run the failure count equals the number of binaries not back; each of those is still at its backup path; the rest are untouched; "rolled_back" holds exactly if none failed and the service answered |
| `Cutover.RollbackHonest` | internal/updater/helper.go:134-200 | Without a stale backup reachable by the install loop, "rolled_back" means every live path is as before the update |
| `Cutover.TrapSprings` | internal/updater/helper.go:137-147 | A missing live binary with a stale backup, all earlier binaries being complete: refusing one rename yields a false "rolled_back" |
| `Cutover.RollbackHonestExactly` | internal/updater/helper.go:134-200 | "rolled_back" is truthful under all failure patterns if and only if there is no such trap; there is none when every live binary exists |
| `Cutover.InstallReaches` | internal/updater/helper.go:134-152 | While no rename is refused and staged files exist the loop advances to any later binary, two renames a binary |
| `Cutover.CleanRunCommits` | internal/updater/helper.go:116-170 | With nothing refused and every staged file present, "done" is reported exactly if both health answers are good |
| `Helper.Machine.RenameFile` | internal/updater/helper.go:137-147 | One rename on the machine is one move of the account, recorded in the history of file states |
| `Helper.Machine.Get` | internal/updater/helper.go:262-267 | A poll is bounded by the client timeout and is "up" exactly for a status 200 within it |
| `Helper.Machine.WaitStopped` | internal/updater/helper.go:255-273 | True exactly at the first poll that is not up; false only after the whole window; over within the window plus one iteration |
| `Helper.Machine.WaitHealthy` | internal/updater/helper.go:289-306 | True exactly at the first poll that is up; false only after the whole window; over within the window plus one iteration |
| `Helper.Machine.RollbackAll` | internal/updater/helper.go:204-216 | The counting loop does what the account of a rollback says, renames, files and count |
| `Helper.Machine.InstallAll` | internal/updater/helper.go:134-152 | The loop's files, its list of binaries to restore and its way of stopping are those of the account; an error names one of the live paths |
| `Helper.Machine.RecoverFailure` | internal/updater/helper.go:177-200 | Stop, roll back, start, poll; the phase is grounded in the failure count and in a last poll answered after the recovery |
| `Helper.Machine.StopAndWait` | internal/updater/helper.go:119-132 | The stop order comes first and nothing but polls for it to have stopped follows |
| `Helper.Machine.StartAndCheck` | internal/updater/helper.go:155-170 | The start order precedes the health polls; "done" ends with an answer and the restart of the console, anything else with the recovery and a start order of its own |
| `Helper.Machine.RunSequence` | internal/updater/helper.go:116-170 | The imperative cut-over reaches exactly the state and phase of the account for the answers its polls gave. Of its recorded actions, polls and renames: the first is the stop order, every rename is tried while the last order was to stop, every health poll while it was to start, the last order is to start, and the console is restarted exactly if the phase is "done". It polls for less than three windows plus 13 s |
| `Helper.Machine.Update` | internal/updater/helper.go:116-200 | The promises of each phase for the real loop, no state on the way losing a binary, the same order of actions, polls and renames, and, with the shipped 40 s timeout, polling over in under 133 s, before the 4-minute timer |
| `Version.ParseVersion` | internal/updater/version.go:37-60 | The nested loops compute the three leading numbers of the dotted core, unreadable or overflowing ones being 0 |
| `Version.CompareVersions` | internal/updater/version.go:20-32 | Returns -1, 0 or 1; its sign is exactly the lexicographic order of the two cores, in both directions |
| `Version.OffersUpdate` | internal/updater/version.go:14-16 | True exactly if the current core is less than the latest |
| `Version.ParsePrinted` | internal/updater/version.go:37-60 | Reading "v"X.Y.Z followed by any suffix that does not start with a digit gives X, Y, Z back, for all numbers up to 2^63-1 |
| `Version.NewerIsStrictOrder` | internal/updater/version.go:14-32 | "Newer" is irreflexive, asymmetric, transitive and negatively transitive on all strings whatever |
| `Version.NewerByNumbers` | internal/updater/version.go:14-60 | Between printed versions "newer" is the order of the numbers: suffixes do not matter and no downgrade is offered |
| `Version.ParseLenient` | internal/updater/version.go:37-60 | Any white space, then at most one v and one V, one to three numbers and any tail that starts with a dash, plus or blank: the numbers given are read, the missing ones are 0 |
| `Version.OverflowIsZero` | internal/updater/version.go:48-57 | A number above 2^63-1 counts as 0 |
| `Version.ParseUnreadable` | internal/updater/version.go:37-60 | A name without a digit is 0.0.0 |
| `Version.LessIsNumeric` | internal/updater/version.go:20-32 | The order of cores is that of the numbers they spell in any base above their parts |
| `Checksums.FetchChecksums` | internal/updater/github.go:110-128 | The scan loop computes the table of the first MiB, or reports a line beyond the scanner's limit, or an empty table |
| `Checksums.LastLineWins` | internal/updater/github.go:110-122 | A name maps to a digest if and only if the last two-field line naming it gives that digest |
| `Checksums.FieldsOfWords` | internal/updater/github.go:113 | Words set apart by any white space, and in any, are exactly the fields |
| `Checksums.ReadAnyLine` | internal/updater/github.go:111-122 | A line of two words gives the second, less one leading star, as the name and the first, in lower case, as the digest |
| `Checksums.SkipsOtherLines` | internal/updater/github.go:114-116 | A line of any other number of words is skipped |
| `Checksums.Generate` | hack/mockrelease/main.go:104-114 | The generator answers with an error exactly if a file cannot be read, naming the first; otherwise with one line per file, in order, with the digest of its contents |
| `Checksums.LinesOfListing` | hack/mockrelease/main.go:104-114 | The generated text splits into exactly its lines |
| `Checksums.ReadLine` | internal/updater/github.go:111-122 | A generated line reads back as its name and digest |
| `Checksums.ReadGenerated` | internal/updater/github.go:110-128 | Reading a generated listing gives exactly the name-to-digest map, for distinct names without white space or leading star, within the size limits |
| `Handoff.FindAsset` | internal/updater/github.go:44-51 | The first asset of the name is found, exactly if there is one |
| `Handoff.AssetOfBinary` | internal/updater/updater.go:258-260 | The asset of each binary is its own name, a dash and the machine's suffix |
| `Handoff.BeginsExactly` | internal/updater/updater.go:193-236 | A run begins if and only if a newer release is offered, the machine is supported and there is room; otherwise the flag is free again |
| `Handoff.OnlyOnAppliance` | internal/updater/updater.go:193-197 | Off the appliance no run of calls takes the flag or touches a file |
| `Handoff.FlagDiscipline` | internal/updater/updater.go:193-218 | Every step of every attempt keeps the flag, takes it when free, gives back its own hold, or does not touch it; a timer always finds the flag up and frees its own attempt's hold |
| `Handoff.ExclusiveKept` | internal/updater/updater.go:193-218 | A step of one of those four kinds keeps "the flag is up exactly while one attempt owns it" |
| `Handoff.DownloadStageOk` | internal/updater/updater.go:342-346 | A download that claims success leaves the staged file with the digest it reports, and the file verified before it intact |
| `Handoff.CheckStageOk` | internal/updater/updater.go:347-357 | A checked file has the digest listed under its asset's name |
| `Handoff.OwnStageOk` | internal/updater/updater.go:240-339 | After its own step an attempt's claims hold: newer release, listing read, verified files published |
| `Handoff.InvKept` | internal/updater/updater.go:193-357 | Every step of every attempt, and a restart of the process, keeps the flag exclusive and every attempt's claims true |
| `Handoff.InvAlongRuns` | internal/updater/updater.go:193-357 | So does every interleaving of any length |
| `Handoff.FromStart` | internal/updater/updater.go:193-357 | From a fresh process, whatever files lie staged, all of this holds in every reachable world |
| `Handoff.LaunchedStays` | internal/updater/updater.go:301-339 | An attempt that has launched its helper keeps its release and listing until the process ends |
| `Handoff.HolderTakesPublished` | internal/updater/helper.go:143-148 | Whatever a helper takes while its attempt holds the flag is absent or published for that attempt's release |
| `Handoff.LiveKept` | internal/updater/helper.go:143-148 | Every step keeps "what helpers moved while their attempts held the flag is published" |
| `Handoff.TakenIsVerified` | internal/updater/updater.go:222-357 | In every reachable world, with any steps of others between the renames, each file a helper moved while its attempt held the flag has the digest listed for that attempt's newer release, and so has a live path that holds it |
| `Races.NoCleanerNoLoss` | internal/updater/updater.go:193-218 | While one attempt owns the flag, no failed run is still deleting and no helper of a timed-out attempt is running, nothing others do changes the staged files |
| `Races.StaysStagedExactly` | internal/updater/updater.go:249-256 | An owner with both files staged is sure to keep them, whatever other attempts and their helpers do, if and only if no failed run has deletions pending and no timed-out attempt's helper is still running |
| `Races.LateDeletion` | internal/updater/updater.go:249-256 | A pending deletion can take a file away from the current owner |
| `Races.StrayTakes` | internal/updater/updater.go:331-338 | A helper that outlives its attempt's timer can move the current owner's staged file away |
| `Races.FailureLeavesNothing` | internal/updater/updater.go:249-256 | Along any run in which nobody else downloads, an attempt that has given up leaves neither file staged |
| `Races.CleanupIsExact` | internal/updater/updater.go:254-255 | Its two deletions take away exactly the two staged files and end it |
| `Races.BrokenDownload` | internal/updater/updater.go:342-346 | A download that breaks off leaves no part of its file, and every other file as it was |
| `Races.FailedAttempt` | internal/updater/updater.go:246-256 | An attempt whose listing cannot be fetched leaves the flag free and both deletions pending |
| `Races.VerifiedAttempt` | internal/updater/updater.go:265-330 | From any world with the flag free, a new attempt can get both its files verified |
| `Races.LateDeletionHappens` | internal/updater/updater.go:249-256 | From the start, a run reaches a verified attempt whose files an earlier run can still delete |
| `Races.TimedOutAttempt` | internal/updater/updater.go:331-338 | An attempt whose process is never stopped ends with the flag free and its helper still running |
| `Races.StrayHappens` | internal/updater/updater.go:331-338 | From the start, a run reaches a verified attempt whose files a timed-out helper can still take |
| `Races.LateDeletionExample` | internal/updater/updater.go:249-256 | That run spelled out for a concrete build, release and listing on the shipped paths |
| `Races.HolderTakesSafely` | internal/updater/updater.go:193-218 | As long as an attempt's timer has not fired, its helper finds only files that are gone or published for its release, however the other attempts go on |
| `Races.CanRelease` | internal/updater/updater.go:193-256 | From any stage, failures alone bring the owner to give the flag back, the others standing still |
| `Races.JunkStaged` | internal/updater/updater.go:331-346 | With the flag free, a new attempt can put any bytes where a timed-out helper looks |
| `Races.SafeHelperExactly` | internal/updater/updater.go:331-338 | A helper is sure to find only its own release's published files, in every continuation, if and only if its attempt's timer has not fired |
| `Races.TimedOutInstallsJunk` | internal/updater/updater.go:331-338 | From the start, a run after which a timed-out attempt's helper can end "done" with bytes at a live path that its listing does not have |
| `Races.TimedOutExample` | internal/updater/updater.go:331-338 | That run for a concrete build, release and listing on the shipped paths |
| `Races.UndisturbedKept` | internal/updater/updater.go:249-256 | When nothing comes between a failed run's release and its deletions and no helper has moved a file yet, every step leaves each owner's downloaded files in place |
| `Races.LaunchedIsVerified` | internal/updater/updater.go:265-357 | With cleanup as one step, in every reachable world before a helper moves its first file, an attempt that launched the helper has both files staged with the digests its own release lists, and that release is newer |
| `Handoff.GeneratedPublishesExactly` | internal/updater/updater.go:348-354 | Generator and verifier composed: of a generated listing the updater accepts a file if and only if that digest was listed under its asset's name |
| `Handoff.ShippedRelease` | internal/updater/updater.go:222-236 | A build 1.0.0 is offered a release 1.0.1 whose generated listing publishes both its binaries |
| `Handoff.BinariesDistinct` | internal/updater/updater.go:306-318 | The six paths handed to the helper are distinct, whatever the two directories, even the same one |
| `Handoff.DoneIsVerified` | internal/updater/updater.go:222-357 | The two halves composed: for an attempt that launched the helper and still holds the flag, "done" on the files then staged leaves only bytes with that release's listed digests at the live paths, and the release is newer, under all rename failures and health answers |
| `AccessLog.Store.constructor` | internal/accesslog/accesslog.go:32-37 | A new store of any size is valid and empty |
| `AccessLog.Store.Add` | internal/accesslog/accesslog.go:41-63 | The store goes on holding the last maxSize entries; every subscriber gets the entry if it has room and otherwise counts one miss; streams stay faithful |
| `AccessLog.Notify` | internal/accesslog/accesslog.go:55-62 | The notification loop offers the entry once to each listener |
| `AccessLog.Channel.Offer` | internal/accesslog/accesslog.go:57-61 | A non-blocking send delivers exactly if fewer than 64 entries are queued; either way the stream stays a subsequence of what was added |
| `AccessLog.Channel.Receive` | internal/accesslog/accesslog.go:78-86 | Receiving takes the oldest entry and leaves the stream as it was |
| `AccessLog.Store.Recent` | internal/accesslog/accesslog.go:66-76 | Returns the last min(n, maxSize) of all entries ever added, oldest first |
| `AccessLog.Store.Subscribe` | internal/accesslog/accesslog.go:80-86 | A new, empty listener goes last; its stream starts here |
| `AccessLog.Store.Unsubscribe` | internal/accesslog/accesslog.go:89-99 | Exactly the given listener goes and is closed; an unknown one changes nothing, so none is closed twice |
| `AccessLog.SubsequenceSize` | internal/accesslog/accesslog.go:55-62 | A subsequence is no longer than the whole, and equal to it if as long |
| `AccessLog.CompleteExactly` | internal/accesslog/accesslog.go:55-62 | A subscriber has everything added since it subscribed if and only if it never missed an entry |
| `Xml.WriteXMLMap` | internal/restconf/handlers.go:66-100 | The recursive printer appends exactly the rendering of the flattened map |
| `Xml.WriteField` | internal/restconf/handlers.go:69-98 | Likewise for one entry, by the type of its value |
| `Xml.WriteTrees` | internal/restconf/handlers.go:70-75 | A list of maps becomes one element per item |
| `Xml.WriteItems` | internal/restconf/handlers.go:80-89 | A mixed list becomes one element per item, nested or text |
| `Xml.ReadRendered` | internal/restconf/handlers.go:66-100 | A reader that insists on properly nested tags (section 3.1 of XML 1.0) recovers the printed elements exactly, at any depth and indentation, for plain names and texts without markup |
| `Xml.ReadPrinted` | internal/restconf/handlers.go:66-100 | The printer's whole output reads back as the flattened map with nothing left over |
| `Xml.FieldRecovered` | internal/restconf/handlers.go:68-98 | Under each key the reader finds exactly that key's elements, a list's in list order |
| `Xml.OrderImmaterial` | internal/restconf/handlers.go:66-100 | Two visits of one map, each map in it visited in an order of its own, flatten to the same elements under every name, in the same order, at every depth |
| `Xml.PrintoutsAlike` | internal/restconf/handlers.go:66-100 | So the two printed documents both read back in full, as the same tree up to the order of differently named siblings at every depth |
| `Xml.CleanAlike` | internal/restconf/handlers.go:66-100 | Whether a map prints as a well-formed document does not depend on the order of its visits |
| `Xml.FlatMapSays` | internal/restconf/handlers.go:66-100 | Told from the values, and not through the flattening: under each key stands what its value asks for, at every depth, and nothing under any other name |
| `Xml.PlainMapClean` | internal/restconf/handlers.go:66-100 | Maps with distinct plain keys and texts without markup, at every depth, print as well-formed documents |
| `Xml.PrintoutSays` | internal/restconf/handlers.go:66-110 | A reader of the printed text finds under each key a leaf as its own text, true as "true" and false as "false", a map as one element that says it, and a list as one element for each item in order |
| `Xml.Layout` | internal/restconf/handlers.go:35-98 | Every tag of a map and every leaf stands on its own line, two spaces deeper for each level |
| `Xml.ToXML` | internal/restconf/handlers.go:35-64 | A list gives one root element per item, a map one, anything else one empty root; for plain maps the text reads back as those roots, of that name and namespace, each saying its map |
| `Xml.RootsRecovered` | internal/restconf/handlers.go:47-55 | A top-level list of n maps reads back as n roots with each item's elements |
| `Xml.ReadRootOpen` | internal/restconf/handlers.go:50-60 | A root's opening tag reads back as its name and namespace |
| `Xml.RootsSayMaps` | internal/restconf/handlers.go:35-64 | The whole document reads back as one root per map, in order, each of the given name and namespace and saying its map |
| `Device.Device.EnsureDefaultAP` | internal/device/device.go:48-72 | The two searches and the insertion do what the specification function says, stopping at the first marked |
| `Device.EnsureIdempotent` | internal/device/device.go:45-72 | Doing it twice is doing it once, for every site |
| `Device.EnsuresOneExactly` | internal/device/device.go:45-83 | It leaves exactly one default access point, named after the site, if and only if at most one was marked |
| `Device.EnsureKeepsAPs` | internal/device/device.go:48-83 | Every access point there was stays, in order, with its clients, SSIDs, address and model; at most one is added, empty and in front, exactly if none was marked or named after the site |
| `Device.MACReadsBack` | internal/device/device.go:86-91 | The derived address is 00:3a:7d: and the low three bytes of the hash, in two hexadecimal digits each |
| `Device.HashVectors` | internal/device/device.go:87-88 | The hash agrees with the published test vectors of FNV-1a |
| `Device.SameMACExactly` | internal/device/device.go:86-91 | Two sites share the derived address if and only if the low 24 bits of their names' hashes agree |
| `Device.Device.InitConfig` | internal/device/device.go:184-249 | The cached config is a rendering of the site's current fields: its VLANs and WLANs are those of its clients, each once, in some order, the WLANs numbered from 1 |
| `Device.Collect` | internal/device/device.go:198-215 | The inner loop extends both tables by one access point's clients |
| `Device.ListVlans` | internal/device/device.go:217-220 | Ranging over the map lists every VLAN once |
| `Device.ListWlans` | internal/device/device.go:221-226 | Ranging over the map lists every SSID once, numbered in that order |
| `Device.VlansByLastClient` | internal/device/device.go:196-206 | A VLAN is listed under a name if and only if it is positive and the last client on it gives that name |
| `Device.SsidsByLastClient` | internal/device/device.go:207-213 | An SSID is listed with a key management if and only if the last client on it gives that, "dot1x" standing for none |
| `Device.LabelReadsBack` | internal/device/device.go:203 | A VLAN's own label is VLAN and its number in four digits or as many as it takes |
| `Config.Config.ApplyDefaults` | internal/config/config.go:110-201 | The nested loops expand exactly the defaults, in every device, access point and client |
| `Config.FillSite` | internal/config/config.go:111-190 | Likewise for one device, with its default access point |
| `Config.FillAP` | internal/config/config.go:132-189 | Likewise for one access point: its clients, and its SSIDs from them, each once, if none were set |
| `Config.SiteIdempotent` | internal/config/config.go:107-190 | Expanding a device's defaults twice is expanding them once |
| `Config.DefaultedIdempotent` | internal/config/config.go:107-201 | So it is for a whole configuration, which is what lets saved files round-trip |
| `Config.LoadedSitesHaveDefault` | internal/config/config.go:129-130 | A loaded site with a hostname has exactly one default access point, named after it, if and only if the file marked at most one |
| `Config.DefaultsFillGaps` | internal/config/config.go:135-176 | Every field of a client that is set is kept and every unset one is filled |
| `Config.BareClient` | internal/config/config.go:135-176 | A client with nothing but an address and an SSID gets exactly the stated values |
| `Config.BareSite` | internal/config/config.go:113-127 | So do a device's own fields and the credentials, field by field |
| `Config.SSIDsOfClients` | internal/config/config.go:178-188 | The SSIDs taken over are exactly those the clients have, each once, in order of first appearance |
| `Config.StateDisk.Save` | internal/config/config.go:86-105 | After every step, so after a crash anywhere, the state file is whole, old or new; failure leaves it as it was |
| `Config.LoadedRoundTrips` | internal/config/config.go:35-110 | Anything loaded, then saved, then loaded again is unchanged |
| `Config.SiteUnchanged` | internal/config/config.go:111-190 | Expanding defaults leaves a device as it is if and only if no field it defaults is unset and its default access point is in place |
| `Config.ReloadsExactly` | internal/config/config.go:35-110 | A saved configuration loads as exactly itself if and only if it leaves nothing to default |
| `Roster.RoamConserves` | internal/simulator/simulator.go:294-335 | A successful roam conserves clients over the whole device: the first with the address goes, the same with its new SSID comes, last in the first access point with the target's name |
| `Roster.RoamKeepsOthers` | internal/simulator/simulator.go:294-335 | Every other client keeps its access point and its place, and nothing but client lists changes |
| `Roster.AddClientAdds` | internal/simulator/simulator.go:254-271 | A client added is last in the first access point of that name; every other client and access point is as before |
| `Roster.RemoveClientRemoves` | internal/simulator/simulator.go:232-251 | Exactly the first client with the address goes, the rest keep their order, and no other access point changes |
| `Roster.APsComeAndGo` | internal/simulator/simulator.go:194-229 | An added access point goes last; a removal takes exactly the first of that name, unless it is the default one |
| `Roster.SetSSIDsSets` | internal/simulator/simulator.go:274-291 | Exactly the first access point of that name gets the SSIDs, and no client changes |
| `Roster.AddRemoveClient` | internal/simulator/simulator.go:232-271 | Removing a client whose address is new to the device undoes adding it |
| `Roster.ErrorsChangeNothingExactly` | internal/simulator/simulator.go:194-335 | A change that reports an error has changed nothing, if and only if it is not a roam of an existing client to a missing target, which loses exactly that client |
| `Roster.DefaultKeptExactly` | internal/simulator/simulator.go:194-335 | Each change keeps the one default access point if and only if it does not add one that is itself marked |
| `Roster.DefaultKeptOverRuns` | internal/simulator/simulator.go:194-335 | So does every run of such changes |
| `Roster.RoamEffect` | internal/simulator/simulator.go:294-335 | A successful roam is the loss of the client followed by its joining the target, which is the same access point as before the loss |
| `Ledger.DistinctKept` | internal/simulator/simulator.go:101-425 | Calls made one at a time never list an address twice, unless a replacement itself does |
| `Ledger.NewSiteFilled` | internal/simulator/simulator.go:101-137 | A device added at runtime has its own unset fields filled and keeps every client and SSID as it came |
| `Ledger.AddRemoveUndo` | internal/simulator/simulator.go:101-191 | Removing a device undoes adding it, and while it is listed adding it again is refused |
| `Ledger.StaleStep` | internal/simulator/simulator.go:101-425 | After a call a device is stale if and only if the call lost its client in a failed roam, or it was stale and was neither changed successfully, removed nor replaced |
| `Ledger.StaleExactly` | internal/simulator/simulator.go:101-425 | Over any run of calls the stale cached configs are exactly those of devices with a failed roam since their last render; every other config stays current |
| `Ledger.DefaultsKept` | internal/simulator/simulator.go:101-425 | Every kind of call keeps one default access point in every named site, unless it brings one already marked |
| `Ledger.DefaultsKeptOverRuns` | internal/simulator/simulator.go:101-425 | So does every run of calls: additions, changes, removals, imports and resets |
| `Ledger.FileStep` | internal/simulator/simulator.go:354-457 | One call saves what runs, parts file and running state, or leaves them as they were against each other |
| `Ledger.LosesOne` | internal/simulator/simulator.go:294-335 | A failed roam leaves one client fewer over the whole simulator, so the file then shows clients that are gone |
| `Ledger.StateFileExactly` | internal/simulator/simulator.go:101-457 | Over any run of calls whose writes work, the state file holds exactly what runs unless a failed roam, a factory reset or a replacement that failed halfway came after the last save; and then, such a replacement aside, it does not |
| `Ledger.RestartReproduces` | internal/config/config.go:35-110 | In that case a restart from the file reproduces what ran if and only if nothing in it is left to default |
| `Simulator.Edit` | internal/simulator/simulator.go:194-335 | The in-place searches and edits of the six mutators have exactly the specified effect and error |
| `Simulator.EditRoam` | internal/simulator/simulator.go:294-335 | The remove-then-look-up order of roaming, in place, has exactly the specified effect and error |
| `Simulator.EditAndRender` | internal/simulator/simulator.go:194-335 | One device edited and rendered if that went well: its cache is current afterwards exactly if the edit succeeded, or it was current and no client was lost |
| `Simulator.Simulator.EditDevice` | internal/simulator/simulator.go:194-335 | Only the first device with the address changes; every other cache is untouched; the book of sites and current caches moves exactly as told |
| `Simulator.Simulator.Mutate` | internal/simulator/simulator.go:194-335 | A mutator's whole new state and error, device by device: which caches are current and which stale, untouched caches, what it saves, servers still matched |
| `Simulator.Simulator.constructor` | internal/simulator/simulator.go:54-70 | A simulator made from loaded, rendered devices lists them with every cache current and no server running, whatever the state file holds |
| `Simulator.Simulator.StartAll` | internal/simulator/simulator.go:91-97 | After starting, servers match the list if and only if the addresses are distinct |
| `Simulator.Simulator.SaveLocked` | internal/simulator/simulator.go:450-457 | A save that works leaves the state file equal to the snapshot; one that fails changes nothing |
| `Simulator.Simulator.Prepare` | internal/simulator/simulator.go:101-137 | A device about to be added has its defaults, its default access point and a rendered config, and nothing shared has changed |
| `Simulator.Simulator.Launch` | internal/simulator/simulator.go:145-149 | A rendered device goes last in the book and its servers are recorded under its address |
| `Simulator.Simulator.AddDevice` | internal/simulator/simulator.go:101-156 | Refused exactly for the four stated reasons, changing nothing; otherwise the device is last, rendered, running, on its address and saved; the other devices' caches are as they were, and servers still match the list |
| `Simulator.Simulator.Commit` | internal/simulator/simulator.go:145-151 | Listing a device keeps servers and list matched and saves the new snapshot |
| `Simulator.Simulator.RemoveDevice` | internal/simulator/simulator.go:160-191 | An unknown address changes nothing; otherwise the first such device goes with its server, the rest keep their order, the new list is saved, and the address goes from the host exactly if the host does not refuse that one change |
| `Simulator.Simulator.RemoveAndAdd` | internal/simulator/simulator.go:101-191 | With no address change refused, a device can be removed and added again, is listed last and has its address and server |
| `Simulator.Simulator.Unlist` | internal/simulator/simulator.go:161-178 | Unlisting keeps servers and list matched and saves the new snapshot |
| `Simulator.Simulator.SetupIPs` | internal/network/setup.go:16-28 | Success if and only if every address is present afterwards, which is if and only if no addition it tried was refused; then exactly the listed ones have been added; none is ever removed |
| `Simulator.Simulator.TearDown` | internal/simulator/simulator.go:480-491 | Every device and server goes, and an address stays exactly if the host refused each of its removals |
| `Simulator.Simulator.ApplyConfig` | internal/simulator/simulator.go:394-425 | Success if and only if every address is on the host, which is if and only if the host refused none; then exactly the new devices run, rendered, with servers matching if and only if the addresses are distinct, and the host has exactly their addresses and those it had and refused to drop; failure leaves nothing running; the state file is untouched |
| `Simulator.Simulator.ImportConfig` | internal/simulator/simulator.go:354-363 | Text that does not parse changes nothing; nil means the state file holds what now runs, on addresses the host has; each error says what is left |
| `Simulator.Simulator.FactoryReset` | internal/simulator/simulator.go:367-379 | Nil means the seed runs and no state file remains to override it |
| `Simulator.Simulator.ClearAll` | internal/simulator/simulator.go:383-388 | No device is left, credentials stay, and nil means the saved file says so |
| `Simulator.Simulator.Dispatch` | internal/simulator/simulator.go:101-388 | Whichever call it is, its error is one the book allows and the simulator is as the book says after it, credentials and state file included when writes work |
| `Simulator.Simulator.Serve` | internal/simulator/simulator.go:101-388 | Any calls, one after another: the simulator follows the book from first to last, its state file too when writes work, and servers match the list as long as replacements list distinct addresses |
| `Lifecycle.AccountedKept` | internal/simulator/simulator.go:125-187 | Every step of concurrent additions, removals and replacements, duplicate addresses included and other calls' address changes falling inside a replacement, closes no stop channel twice and keeps each started server in the map, in a remover's hands, stopped, or lost |
| `Lifecycle.AccountedAlongRuns` | internal/simulator/simulator.go:125-187 | So does every interleaving of any length |
| `Lifecycle.LostExactly` | internal/simulator/simulator.go:148-149 | A running server is lost if and only if a commit overwrites its address's handle or a replacement lists an address twice |
| `Lifecycle.OneOwnerKept` | internal/simulator/simulator.go:125-187 | Additions, removals and all but the last step of a replacement, in any interleaving, keep the listed addresses distinct, present and served, each address having one owner; the kernel's refusal carries this, not the duplicate check |
| `Lifecycle.FinishKeepsOneOwnerExactly` | internal/simulator/simulator.go:411-425 | The last step of a replacement keeps that if and only if, as the list is written, its addresses are distinct, present and held by no unfinished call |
| `Lifecycle.AddsAndRemovesAreSafe` | internal/simulator/simulator.go:125-187 | Along every run of additions and removals no address is listed twice, servers match the list, and none is lost |
| `Lifecycle.ServedKept` | internal/simulator/simulator.go:125-187 | Every step, a replacement included, keeps servers to listed addresses only |
| `Lifecycle.DistinctLosesNone` | internal/simulator/simulator.go:148-149 | A step that leaves the listed addresses distinct loses no server |
| `Lifecycle.NoServerLeaks` | internal/simulator/simulator.go:125-187 | From a clean start, along every interleaving of additions, removals and replacements whose states list distinct addresses, every server ever started is in the map, being stopped or stopped, and no stop channel is closed twice |
| `Lifecycle.InitHolds` | internal/simulator/simulator.go:91-97 | Starting servers for distinct, present addresses establishes both invariants |
| `Lifecycle.StartedFacts` | internal/simulator/simulator.go:415-421 | Starting servers in order maps each address to its last start, one handle per address |
| `Replacements.ClearKept` | internal/simulator/simulator.go:394-425 | Addresses out of reach of every unfinished call when the replacement takes the lock stay so, step by step, until they are listed |
| `Replacements.WaiterGetsIn` | internal/simulator/simulator.go:398-414 | A call that has only passed its check can add its address between the drop and the re-add, and the replacement then lists it as well |
| `Replacements.ReplacementKeepsExactly` | internal/simulator/simulator.go:394-425 | A replacement is sure to keep one owner per address in every interleaving if and only if, when it takes the lock, its addresses are distinct, none is held, and none that a call has passed its check for is absent or listed |
| `Replacements.CheckedCanDuplicate` | internal/simulator/simulator.go:398-414 | A run from a state in which nothing is held that lists an address twice and loses a server |
| `Replacements.ReplaceCanDuplicate` | internal/simulator/simulator.go:394-425 | A run in which a replacement during an addition leaves one address listed twice and loses a server |
| `Leftovers.AddThenRemove` | internal/simulator/simulator.go:101-191 | Adding a device and removing it again gives everything back, list, handles, addresses and callers; in between it is listed, served and on the interface, and another addition is turned away |
| `Leftovers.NoLeftoverKept` | internal/simulator/simulator.go:101-425 | Each step whose address change works keeps every address on the interface accounted for: listed, held by a caller, part of a replacement, or there from the start |
| `Leftovers.OnlyListedRemain` | internal/simulator/simulator.go:101-425 | So when all calls of such a run have returned, replacements included, every address on the interface is a listed device's or was there, unlisted, from the start |
| `Leftovers.InterfaceBalances` | internal/simulator/simulator.go:101-191 | With additions and removals alone the balance is exact, in every interleaving: the listed addresses and those that were there before |
| `Lan.Scan` | internal/network/arp.go:91-111 | Scanning one range extends the result by its accepted candidates, in order, until there are enough |
| `Lan.FindUnusedIPs` | internal/network/arp.go:70-117 | The result is the first `count` accepted candidates of .200-.254 then .150-.199, an error if there are fewer, and always an error beyond 105 |
| `Lan.FilterSound` | internal/network/arp.go:91-111 | Candidates kept are distinct, and each passed both tests |
| `Lan.AcceptedSound` | internal/network/arp.go:70-117 | All addresses the search can return are in the subnet, not in use, and pairwise distinct |
| `Lan.AcceptedExactly` | internal/network/arp.go:70-117 | An address is on offer if and only if it is in the subnet, not in use, and .150 to .254 of the host's own /24 |
| `Lan.AcceptedInOrder` | internal/network/arp.go:88-111 | .200 to .254 come before .150 to .199, each ascending |
| `Lan.ContainsByLength` | internal/network/setup.go:177-186 | What being in the subnet means for prefixes of 0, 8, 16, 24 and 32 bits |
| `Lan.Interface.CountNeeds` | internal/network/setup.go:106-113 | The counting loop counts the devices whose address is unset, "auto", unreadable or outside the subnet |
| `Lan.Interface.EnsureAddress` | internal/network/setup.go:137-145 | An address the host has is kept; a missing one is added unless refused, and then nothing changes |
| `Lan.Interface.AssignOne` | internal/network/setup.go:124-146 | One device gets the next allocated address exactly if it needs one, its address is then in the subnet, and the host has it unless it was refused |
| `Lan.Interface.AssignAll` | internal/network/setup.go:123-158 | The index never leaves the allocation; success assigns exactly as specified with every device on an address of the subnet; a failure leaves the later devices as they were |
| `Lan.Interface.SetupLANIPs` | internal/network/setup.go:98-159 | The search error occurs exactly if too few addresses are free and then nothing changes; success puts every device inside the subnet on an address the host has |
| `Lan.AssignedAt` | internal/network/setup.go:123-135 | Device i gets the allocation's entry numbered by the needy devices before it, or keeps its own |
| `Lan.EachGetsItsOwn` | internal/network/setup.go:123-135 | A device inside the subnet keeps its address; any other gets one on offer, the earlier device the better one |
| `Lan.AssignedConserves` | internal/network/setup.go:123-135 | The resulting addresses are, as a multiset, those kept plus those allocated: none lost, none given twice |
| `Lan.DistinctAfterSetup` | internal/network/setup.go:98-159 | The addresses are distinct after success if and only if the kept ones are and none of them is among those handed out |
| `Lan.SameAddressTwice` | internal/network/setup.go:117-128 | Two devices, one "auto" and one already on the first free address, end up on the same address |
| `Shell.Session.HandleByte` | internal/sshsim/server.go:189-222 | One byte changes buffer, output and executed commands exactly as specified |
| `Shell.Session.RunShell` | internal/sshsim/server.go:176-224 | The read loop is the read-by-read account and, however its reads split the input, ends in the state of the concatenated bytes |
| `Shell.FeedAppend` | internal/sshsim/server.go:183-223 | Feeding two pieces is feeding their concatenation |
| `Shell.Typing` | internal/sshsim/server.go:189-222 | While a line is typed the buffer is its edited form and nothing runs |
| `Shell.RanCommands` | internal/sshsim/server.go:183-223 | The commands run are those of the input text: each finished line edited, trimmed, non-blank, up to the first quit |
| `Shell.LineAnswered` | internal/sshsim/server.go:189-211 | However a line was edited, Enter writes the command's output and a prompt, or just a prompt for a blank line, or the farewell and the end of the session for a quit |
| `Shell.Conversation` | internal/sshsim/server.go:176-224 | Any number of plain lines is written out in full and in order: each line, the output of its command, a prompt |
| `Shell.ReadsAsOne` | internal/sshsim/server.go:183-223 | The read loop, read by read and stopping where the session closes, ends in the state of the concatenated bytes |
| `Shell.SplitImmaterial` | internal/sshsim/server.go:183-223 | Two splittings of the same bytes into reads end in the same state, and the commands run are those the text spells |
| `Shell.KeyShown` | internal/sshsim/server.go:189-222 | After each ordinary byte the terminal still shows the line buffer, also after "\b \b" |
| `Shell.LineAlwaysShown` | internal/sshsim/server.go:183-223 | So it does after any ordinary input |
| `Shell.EchoAlwaysAfterPrompt` | internal/sshsim/server.go:177-219 | The output always ends with a prompt followed by the echo of the current line |
| `Shell.LineShownFromStart` | internal/sshsim/server.go:176-224 | From the first prompt on, what a terminal shows after the last prompt equals the line buffer |

## Left out

- HTTP, TLS, SSH, SFTP, SNMP and TFTP serving, the dashboard, the console, command texts and RESTCONF field builders: library plumbing and constants, easy members only.
- ARP probing, ARP caches, interface detection and the commands that change addresses: arbitrary answers. One set stands for the host's addresses, and adding one that is in it fails; addresses on other interfaces are not told apart.
- `internal/tftpsim`: not part of this model; two concurrent starts there can overwrite each other.
- YAML and JSON text, template execution and SHA-256: encoding and decoding are inverse functions, a rendering stands for its template and data, the digest is any function.
- File modes, disk-space figures, the helper's result and log files, and the spawning of processes: a failure of any of them before the helper runs is one of the arbitrary failures of its step.
- Config.ReloadsExactly: the template is not part of the saved file and is not modelled.
- Helper.Machine.Update: time spent in the service manager and sleeping longer than asked are not counted; a rename reports a missing file only when its source is missing.
- Races.LaunchedIsVerified: takes a failed run's release and deletions as one step, which the code does not guarantee; `StaysStagedExactly` says what is lost without that.
- Races.StaysStagedExactly: a helper left over from an earlier process is not an actor of the world; a restart may leave anything staged. How long a timed-out attempt's helper goes on running is not bounded, since the service manager's time is not.
- Handoff.DoneIsVerified: is about the files staged at one moment; `TakenIsVerified` needs no such moment. Both are about helpers whose attempt holds the flag. The two directories are joined without path cleaning. The release offered is arbitrary, so the caching and debouncing of the latest release are not modelled.
- Checksums.ReadGenerated: characters are code points and the size limits count them, which is the number of bytes in an ASCII listing only; text that is not valid UTF-8 is excluded, and lower-casing is that of ASCII. The request and its status codes are not modelled.
- AccessLog.Store.Add: an addition and its notifications are one step, whereas the code sends outside the lock, where a concurrent Unsubscribe may have closed the channel. It needs a size of at least 1: with size 0 the first addition fails in the code too.
- Xml.ReadPrinted: texts with markup or a leading newline, and names with '>' or a leading '/', are excluded; the printer escapes nothing. The value of a number is its printed text.
- Simulator.Simulator.ApplyConfig: models the local mode; the LAN mode's reassignment of addresses is `Lan.Interface.SetupLANIPs`.
- Ledger.StaleExactly: a device is told by its address, so replacements are taken to list distinct ones; calls are made one at a time. Stale means rendered from other data: a template that prints only part of the data, as the built-in one does, can still give the same text.
- Ledger.StateFileExactly: a replacement that fails after tearing everything down may leave a file that happens to equal what then runs; for those runs only one direction is stated.
- Simulator.Simulator.Mutate: devices are objects, but their access points and clients are values, so the sharing of slices between a device and the copies that Devices and Snapshot hand out is not captured; no snapshot isolation is claimed.
- Config.StateDisk.Save: one save at a time; the unlocked save shares its temporary file with the locked one. Failures to encode or to create the directory happen before any file changes and are not modelled.
- Lifecycle.AccountedKept: looking an address up and adding it is one step of a replacement, which may also fail on an address that appeared in between; whether an old address is really dropped is arbitrary. Waiting for servers to exit is not modelled.
- Lan.FindUnusedIPs: an interface's address with a prefix length; masks that are not prefixes are not modelled, and an address answers "used" the same way throughout one search.
- Shell.Session.RunShell: input is ASCII, one character a byte; the interactive copy dialog, which reads the channel itself, is excluded; terminal width, tabs and control bytes other than those the editor handles are outside `IsOrdinary`.
