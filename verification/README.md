# Pishoo host: a verified model

Pishoo hosts packages (Libs and Apps) for DHTTP identities. This project models the parts of the host
that are hardest to get right and proves what they keep:

- **Installing packages.** A requested release is resolved into a dependency closure and ordered
  (`Store`). One transaction checks the batch and rewrites an exact-version registry (`Registration`,
  `Installation`); when an ordered closure is accepted there is exact (`Resolution`). The files of the
  whole batch are switched by renames under a recovery journal, with rollback in the process and recovery
  at startup (`Facts`, `Recovery`, `Switching`, `SwitchRuns`; the limits in `RecoveryLimits`,
  `SameSecond`, `LiveJournal`). `Staging` says which files a registry stands for and which targets a transaction
  switches, `Sandbox` keeps the runtime maps in step, and `Hosting` puts all of it into runs with
  operations, crashes, recoveries and restarts.
- **Delivering contact requests.** Several actors change one table through separate transactions
  (`Contact`), which is then an interleaved transition system under a clock (`ContactRuns`).
- **The WAZ boundary.** Which ZIP files are accepted, byte by byte (`Tiling`, `Archive`), what
  extraction leaves and what the resource walk reads back (`Extraction`), and the payload encoding that
  publishers sign (`Payload`).
- **Serving.** Published routes and dispatch (`Routes`, `Dispatch`), proxy selection (`Proxies`), the
  configuration against installed mounts (`Settings`), live reconciliation of servers (`Reconcile`), and
  the cache of revocation lists (`Revocation`).

Where the Rust code changes state step by step, the model is a class or a loop with a contract; the
contract ties it to a function or predicate about which the theorems are proved. Expressions and
queries are functions. `Digraph`, `Paths`, `Bytes`, `Texts`, `Sets`, `Identity` and `Wrappers` are shared.

## The main results

- Crash atomicity: over every interleaving of single disk operations, crashes, partial recoveries and
  failed undos, one complete recovery ends with all old files and the old registry or all new files and
  the new registry, and is refused exactly in two kinds of blocked state, both with everything old.
  Every journal the commit writes passes recovery's validation.
- The registry stays exact and acyclic over every run of installs and removals; a name keeps its author
  and owner until it is removed.
- From an empty identity, through any installs, removals, crashes at any point, recoveries and restarts,
  a disk without a journal holds exactly the registered parts, each of its registered release, and the
  runtime maps of a serving identity hold exactly the registered packages.
- A closure that was resolved and ordered is installed exactly when every member passes its examination
  and no pin or endpoint of another package stands against one; a dependency is never the reason.
- The closure worklist succeeds exactly when the releases reached from the root can be installed
  together; the ordering succeeds exactly when the dependency graph is acyclic.
- A delivery lease fences off every stale worker for good; requests end once; while a due request waits
  nothing new gets ahead of it and every finished earlier attempt falls behind it.
- An archive is accepted exactly when every byte belongs to one local span, one central span or the end
  record, and the other rules hold. An accepted archive extracts without conflict and reads back.
- Packages of different names have disjoint routes; a request to a published route reaches its package
  with the path that package declared, whatever the proxies; no run puts a proxy at or below a mount.
- Every kept server is live with exactly its settings; one identity's failures do not reach another.

## Where the code does not meet a property

Each of these is proved with the exact condition under which the property does hold, and with a run or an
input that reaches the failure.

- Recovery decides by the facts text of the batch. If no member's facts differ between the old and the
  new registry, a crash during the switch is taken for committed and can lose a registered part
  (`SameSecond.UntoldSwitchLosesPart`). For the installer's batches that is exactly when every written
  member repeats its own rows, so each was written in this same clock second
  (`SameSecond.InstallationIsToldExactly`). One release installed again twice in one second does it
  (`SameSecond.ReinstallLosesLib`). `RecoveryLimits.VisibleFactsAreNeeded`: the hypothesis
  `Recovery.Distinguishes` is necessary and sufficient for undoing every interrupted switch.
- Recovery is refused, at this start and every later one, exactly in the blocked states
  (`Recovery.RecoverySettles`, `Switching.Host.Recover`). A crash while the journal itself is written
  leaves a torn one (`RecoveryLimits.TornJournalBlocks`). When publishing the journal fails, the guard
  that removes the staging directory may remove a member's directory before the journal; stopped there,
  a whole journal outlives a directory it names (`RecoveryLimits.AbandonedStageBlocks`). Nothing was
  switched in either.
- The in-process rollback takes a failed look at a backup for its absence, where startup recovery stops.
  A target whose backup is missed so stays as the switch left it, the rollback reports success, and the
  cleanup removes the journal and the only copy (`RecoveryLimits.MissedBackupIsLost`). The rollback
  restores every other target, and agrees with recovery exactly when no backup was missed
  (`Switching.RollbackAgreesExactly`).
- If cleanup fails after a commit, the journal stays until the next start, and nothing prevents another
  change of the facts meanwhile: a registration, or a change of a Lib's capabilities by a request to
  `/std/acl/permissions` (src/routes/capabilities.rs:177-328). An upgrade of a member then makes recovery
  put back files of two versions ago (`RecoveryLimits.LaterUpgradeIsReverted`; three installs from the
  empty registry do it, `LiveJournal.UpgradeIsReverted`). Recovery keeps the
  committed files exactly while the registry still holds every recorded fact, whoever changed them
  (`RecoveryLimits.LiveJournalDecides`). In the runs of `Hosting` an operation begins only once no crash
  can bring a journal back.
- A waiting request that is not due yet can be overtaken by a new one, and only then
  (`ContactRuns.SubmitOvertakesExactly`; a run in `ContactRuns.OvertakenRowIsReached`). A due one can be
  overtaken by what a compensation gives back, and only by that (`ContactRuns.RestoreOvertakesExactly`).
- A receipt that turns an active request back to pending while another request to the same target waits
  violates the unique index; the closing transaction is dropped and its lease runs out
  (`ContactRuns.FinishIsRefusedExactly`; a run from the start in `ContactRuns.RefusedFinishIsReached`).
- Proxy rewriting fails exactly for a forwarded request target that is no path while the location `/` has
  an upstream with a base path (`Proxies.OnlyNonPathsFailToStrip`); the asterisk form does
  (`Proxies.AsteriskFailsToStrip`).
- A location without trailing slash serves some path exactly when its twin with a slash is absent
  (`Proxies.SlashlessIsUsedExactly`).
- A published App file below a component that the installer keeps for itself, such as
  `public/a/.previous`, is routed to its App and then not opened (`Dispatch.AppRouteReaches`,
  `Dispatch.KeptNameIsNotServed`).

## Assumptions

- Disk: metadata operations reach the disk in the order issued, a crash keeps some prefix of those since
  the last sync, and a SQLite commit over the attached databases is one durable atomic step. Opened
  directory handles are trustworthy. Every single disk operation and every look at the disk may fail.
  Removing an App directory may stop half way and leave debris.
- The runs of `Hosting` take the operations one by one as the code issues them, with every look at a
  backup answered; what a missed one does is stated above.
- The digest of a package fixes the dependencies its manifest declares (`Resolution.Manifests`).
- Verdicts of code outside the model are inputs: signatures, certificates and hashes, the ZIP library's
  listing and decompressed streams, URI parsing of upstreams, network registration, loading of
  credentials. Everything the code compares with the raw bytes is compared here too.
- The facts text is the tuple of its columns; title, description, license and repository are one column.
- A package identity `author/name` is the pair of its halves, which contain no slash. Texts are
  sequences of characters; archive names are sequences of bytes.
- Where the Rust code reads the clock several times the model takes each reading as an input and asks
  only that they do not go back. A registration takes one reading per transaction, a cancellation two for
  each name: one for the test of its rows, one for their update.
- Iteration over hash maps and query results is an arbitrary order unless the code sorts.

## Model

| member | source | states |
|---|---|---|
| Store.Fetch | src/package/store.rs:125-169 | One round downloads the requested release, and for a row without recorded owner its installed predecessor, and refuses exactly when one of these cannot be had or another author holds the name |
| Store.ResolveClosure | src/package/store.rs:98-170 | The worklist stops; it succeeds exactly when the releases reachable from the root are together installable, and then returns exactly that set: closed, root first, at most 100, one version and one author per short name; a refusal names a reason that really holds |
| Store.FinishedIsClosure | src/package/store.rs:98-170 | A drained worklist has fetched exactly what is reachable over declared (id, version) edges |
| Store.JustifiedIsNotInstallable | src/package/store.rs:102-135 | Whatever justifies a refusal is incompatible with the set being installable |
| Store.OrderPackages | src/package/store.rs:193-226 | The result is a permutation with every dependency strictly before its dependents; for distinct ids it succeeds exactly when all dependencies are present and the graph is acyclic |
| Store.OrderedIsAcyclic | src/package/store.rs:193-225 | A list with dependencies first has an acyclic dependency graph |
| Store.StuckIsCyclic | src/package/store.rs:198-222 | When nothing that remains is ready and nothing is missing, what remains contains a cycle |
| Store.RootComesLast | src/package/store.rs:171-188 | On a closure built from one root, the ordered batch ends with the root |
| Digraph.NewEdgeKeepsAcyclic | src/package/files.rs:599-603 | Inserting an edge keeps a graph acyclic exactly when its target does not reach its source |
| Registration.CheckDependencyCycle | src/package/files.rs:665-686 | The search stops and reports a cycle exactly when the depending package is reachable from the new dependency |
| Registration.SaveRegistration | src/package/files.rs:540-644 | Name, owner and pin checks, the upserted row, the replaced edges each checked for an exact installed target and for a cycle, and the capability rows, in this order; any failure drops the whole transaction |
| Registration.InsertKeepsConsistent | src/package/files.rs:588-603 | One accepted edge keeps exact targets and acyclicity |
| Registration.SaveKeepsConsistent | src/package/files.rs:546-604 | Registering one member keeps every exact requirement and never closes a cycle |
| Registration.SaveWritesItsRows | src/package/files.rs:578-604 | It writes its own row, exactly its declared edges at the declared versions and its own capabilities, and nothing of other packages |
| Registration.LinksExactly | src/package/files.rs:586-604 | The declared edges can be inserted exactly when each names a distinct package installed at that version by that author which does not already lead back |
| Registration.SavesExactly | src/package/files.rs:546-643 | The exact condition under which one registration is accepted |
| Registration.DroppingKeepsConsistent | src/package/files.rs:1021-1028 | Dropping the outgoing edges of a batch keeps the registry consistent |
| Installation.ExamineBatch | src/package/files.rs:908-1020 | Every member is examined in order against the old installation; the unchanged loaded members other than the root are left out of what is written |
| Installation.DropOutgoing | src/package/files.rs:1021-1028 | Exactly the outgoing edges of the changed names are gone |
| Installation.InstallTransaction | src/package/files.rs:905-1031 | One batch: bounds, examination, dropping, registering in dependency order, all or nothing |
| Installation.InstallKeepsConsistent | src/package/files.rs:905-1031 | A successful batch leaves a consistent registry, fixed authors and owners, and rewrites exactly the changed names |
| Installation.RemoveKeepsConsistent | src/package/files.rs:1326-1360 | A removal takes out one unreferenced row and keeps the registry consistent |
| Installation.ChangedIsNonempty | src/package/files.rs:988-1019 | The requested root is always written and no name is written twice |
| Installation.BatchIsInstalled | src/package/files.rs:988-1031 | After a batch every member, written or reused, is installed at the named version, author and digest |
| Installation.ReusedIsNotWritten | src/package/files.rs:988-1010 | A reused member keeps its row unchanged |
| Installation.RunsStayConsistent | src/package/files.rs:883-1031 | Over every run of installs and removals from the empty registry every edge points at an installed package of exactly its version and the graph is acyclic |
| Installation.IdentityIsFixedUntilRemoval | src/package/files.rs:549-563 | Until a name is removed neither its author nor its recorded owner ever changes |
| Resolution.RunsFollow | src/package/files.rs:583-604 | Over every run of installs and removals each row has exactly the edges its release declares |
| Resolution.ClosureIsOrdered | src/package/store.rs:171-226 | In an ordered closure every dependency is an earlier member at exactly the version asked for |
| Resolution.OrderedNeverMisses | src/package/files.rs:586-604 | An ordered batch is never refused for a missing dependency or a cycle, also where members are reused |
| Resolution.OrderedInstallsExactly | src/package/files.rs:988-1031 | An ordered batch is accepted exactly when every member is examined without a refusal, no dependent that stays pins another version of a written member, and no capability on record at its turn claims one of its endpoints |
| Resolution.ResolvedInstalls | src/package/store.rs:98-226 | Resolve, order, install: after any run a resolved closure is accepted exactly under that condition, and never refused for a dependency |
| Facts.OlderProjectionIsHarmless | src/server/files.rs:321-330 | Accepting the eleven-column projection never makes a current journal match other facts |
| Facts.FactsOfWrittenMember | src/package/sql/registration_facts.sql:1-7 | The facts of a written member stay equal exactly when its rows do, which for an upgrade takes a write in the same second |
| Facts.CommitIsVisible | src/package/files.rs:578-581 | A member that was absent or not written in this second has different facts after the transaction |
| Facts.RemovalIsVisible | src/package/files.rs:1358-1359 | A removal always changes the facts |
| Recovery.JournalIsAccepted | src/server/files.rs:261-311 | Every journal the commit writes passes recovery's validation |
| Recovery.TargetsAgree | src/server/files.rs:350-369 | Recovery names the same target files as the commit, also for legacy identities |
| Recovery.TargetsAreDistinct | src/package/files.rs:1179-1191 | No two parts of a batch share a target file |
| Recovery.StepIsSafe | src/package/files.rs:1228-1323 | Every single operation issued when the code issues it keeps every possible crash state on the registry's own side, restorable, or untouched and old |
| Recovery.RestoringGivesOld | src/server/files.rs:390-400 | Restoring a target gives its old content, and restoring it again changes nothing |
| Recovery.FactsDecide | src/server/files.rs:312-330 | With distinguishing facts the decision is committed exactly on the new registry |
| Recovery.RecoverySettles | src/server/files.rs:279-408 | A complete recovery of any safe image is refused exactly when the journal is torn, or whole and uncommitted with a member's directory gone, and both are all old; otherwise it ends on the registry's own side |
| Recovery.BehavioursAreSafe | src/package/files.rs:1228-1323 | Over every behaviour with crashes between any two operations, also inside recovery, each reachable state is safe |
| Recovery.CrashAtomicity | src/server/files.rs:234-411 | After any behaviour of one batch and any crash one complete recovery never leaves a mix of old and new, and is refused exactly in the blocked states, which are all old |
| RecoveryLimits.VisibleFactsAreNeeded | src/server/files.rs:312-334 | Every interrupted switch that is not blocked is undone, exactly when the facts tell the registries apart |
| RecoveryLimits.InvisibleCommitLosesFiles | src/server/files.rs:332-335 | Otherwise the move loop can be stopped with any chosen target out of its place, and recovery keeps that as committed |
| RecoveryLimits.MissedBackupIsLost | src/package/files.rs:1275-1312 | A run of the move loop and a rollback that misses one backup end, cleaned up, without that file under the old registry |
| RecoveryLimits.AbandonedStageBlocks | src/package/files.rs:1155-1157 | A run that writes the journal, gives the batch up and stops after a member's directory was removed leaves a state every recovery refuses |
| RecoveryLimits.LiveJournalDecides | src/server/files.rs:279-334 | With a journal left alive recovery keeps the committed files exactly while every recorded fact still holds |
| RecoveryLimits.LaterUpgradeIsReverted | src/package/files.rs:1320-1323 | A later upgrade under a live journal is reverted on disk at the next start |
| RecoveryLimits.UncleanedIsReached | src/package/files.rs:1235-1272 | A run of single operations reaches the committed batch whose journal and backups are still there |
| LiveJournal.UpgradeIsReverted | src/package/files.rs:1313-1323 | The installer's own inputs for it: three releases of one package, installed one after another from the empty registry with the second cleanup failing, end with the first Lib under the third registry |
| RecoveryLimits.TornJournalBlocks | src/server/files.rs:250-257 | A crash while writing the journal is never recovered although nothing was switched |
| SameSecond.InstallationIsToldExactly | src/package/files.rs:1220-1227 | The registries of an installer's batch are told apart exactly unless every written member repeats its rows, each written in this second |
| SameSecond.SameSecondReinstall | src/package/files.rs:578-581 | Any accepted release can be installed again and again, and twice in one second repeats its rows |
| SameSecond.UntoldSwitchLosesPart | src/server/files.rs:332-335 | Any planned switch of a registered part whose facts tell nothing can lose that part |
| SameSecond.ReinstallLosesLib | src/server/files.rs:312-335 | The installer's own inputs for it: three installs of one release from the empty registry end with a registered Lib without its file |
| Switching.StagedWorldIsSafe | src/package/files.rs:1033-1101 | A staged batch without a journal is a safe start of every behaviour |
| SwitchRuns.TargetLooseIsReached | src/package/files.rs:1235-1266 | A run of single operations reaches every point of the move loop at which a target has left its place |
| Switching.Host.AbandonStage | src/package/files.rs:1155-1157 | A batch whose switch never began is given up in whatever order the directory is removed; the registry and the targets stay old |
| Switching.BuildJournal | src/package/files.rs:1166-1229 | The journal records exactly the batch's identities, old and new flags and new facts |
| Switching.Host.Publish | src/package/files.rs:1235-1240 | The journal is written and synced before anything is switched |
| Switching.Host.MoveOne | src/package/files.rs:1253-1266 | One target goes aside and its candidate moves in |
| Switching.Host.MoveAll | src/package/files.rs:1252-1269 | All targets hold the new content and are synced, or the state can still be undone |
| Switching.Host.RollbackOne | src/package/files.rs:1277-1307 | One target is restored by recovery's rule, or skipped unchanged when the look at its backup fails |
| Switching.Host.Rollback | src/package/files.rs:1275-1312 | After a successful rollback every target is restored by recovery's rule except exactly the missed ones, whose backups are still there |
| Switching.Host.Cleanup | src/package/files.rs:1241-1250 | The journal goes first, the staging files after it, the targets stay |
| Switching.Host.CommitPackages | src/package/files.rs:1145-1324 | Committed means new files and new registry; not started means everything old; rolled back means the old registry and every target old but those whose backup was missed; a failed rollback leaves the live journal and everything restorable; a failed cleanup may leave the journal in the other cases too; without failures it commits and cleans up; every state passed through is safe unless a backup was missed |
| Switching.DecideCommitted | src/server/files.rs:279-331 | Every entry is validated first; the decision is that all facts match |
| Switching.Host.RestoreOne | src/server/files.rs:376-400 | One target restored by its journal flags, or recovery stops at a failed look |
| Switching.Host.RestoreAll | src/server/files.rs:332-404 | Every target of the journal restored, or a member's directory is missing, or an operation or look failed with everything still restorable |
| Switching.Host.Recover | src/server/files.rs:234-411 | A recovery that ends well leaves exactly the files a complete recovery computes, on the registry's side, with no journal; a blocked state is refused and stays blocked; any other failure leaves a state the next recovery can use |
| Switching.RestoredButExactly | src/package/files.rs:1275-1312 | With nothing missed a rollback leaves every target old; a missed one stays exactly as it was |
| Switching.RollbackAgreesExactly | src/package/files.rs:1277-1307 | In-process rollback and startup recovery restore the same files exactly when no present backup was missed |
| Staging.InstallIsPlanned | src/package/files.rs:1033-1101 | The targets of an installed batch are the parts of its rows before and after, each at a path of its own, and no other row changes |
| Staging.RemovalIsPlanned | src/package/files.rs:1326-1360 | So are those of a removal, and its facts always tell it |
| Staging.StagedFromDisk | src/package/files.rs:1033-1101 | On a disk that holds the registry the staged batch finds every target as its row says |
| Staging.OldIsHeld | src/package/files.rs:1275-1312 | With every target old the disk is what it was, whatever else it holds |
| Staging.NewIsHeld | src/package/files.rs:1252-1269 | With every target new the disk holds exactly the new registry |
| Staging.SwitchOnDisk | src/package/files.rs:1122-1140 | A committed switch leaves a disk that holds the new registry; one not started or rolled back with nothing missed leaves the disk as it was |
| Sandbox.Publish | src/package/files.rs:1122-1127 | The maps lose the batch's members and gain exactly its loaded parts |
| Sandbox.Service.InstallPackages | src/package/files.rs:883-1129 | A batch changes registry, disk and maps together or none of them, unless the old files could not be put back; without disk failures it succeeds exactly when the service is open, staging works and the transaction accepts |
| Sandbox.Service.RemovePackage | src/package.rs:417-454 | Removal checks the expected identity, then removes row, files and maps together or changes nothing; without disk failures it succeeds exactly when the identity is right and nothing requires it |
| Sandbox.Service.LoadLibs | src/sandbox.rs:108-187 | Startup reads every registered part from the disk, Libs with the version their file carries, or loads nothing; on a disk that holds the registry what it loads mirrors it, and without failures it loads |
| Sandbox.HeldLoadsMirror | src/sandbox.rs:108-187 | Whatever is loaded from a disk that holds the registry mirrors it |
| Sandbox.Service.Close | src/sandbox.rs:90-95 | Closing empties the maps and refuses later changes |
| Sandbox.InstallKeepsMirror | src/package/files.rs:1118-1128 | An installed batch keeps the maps equal to the registry, with reused members untouched |
| Sandbox.RemoveKeepsMirror | src/package.rs:450-452 | So does a removal |
| Hosting.EventKeepsInv | src/package/files.rs:883-1129 | Beginning, every single disk operation, the commit, ending, crashing and starting keep disk, registry, journal and maps in step |
| Hosting.RunsKeepMirror | src/server.rs:256-301 | In every state of every run from an empty identity a serving runtime mirrors the registry and a disk without a journal holds exactly the registered parts |
| Hosting.RestartMirrors | src/server/files.rs:234-411 | A crash in any state of any run is blocked, or recovery leaves a disk that holds exactly the registry, and whatever loads from it mirrors the registry |
| Contact.Pick | src/contact/delivery.rs:219-222 | The claim takes the unique eligible row first in (next attempt, id), and none exactly when none is eligible |
| Contact.RequestExpiry | src/contact.rs:600-621 | The deadline lies in the future and is exactly the time given, the time plus the seconds given, or seven days away; refused exactly when neither fits |
| Contact.Queue.Claim | src/contact/delivery.rs:214-240 | Expiry, choice and lease in one transaction |
| Contact.Queue.Bind | src/contact/delivery.rs:316-320 | The binding is written only under the job's own lease and only once |
| Contact.Queue.Finish | src/contact/delivery.rs:336-352 | The closing transaction writes under the job's own lease, or is dropped whole by the unique index |
| Contact.Queue.Expire | src/contact.rs:578-578 | What is due expires in a transaction of its own |
| Contact.Queue.Submit | src/contact.rs:579-585 | A request enters unless one to its target waits at that moment |
| Contact.Queue.Cancel | src/contact.rs:404-420 | Every request to the named targets is revoked at its own reading of the clock and remembered, unless one is being delivered at the reading of its test |
| Contact.Queue.Restore | src/contact.rs:431-440 | The compensation gives back the remembered statuses to rows still revoked, or is dropped by the index |
| Contact.ExpiryKeepsIndex | src/contact/storage.rs:23-26 | Expiring rows cannot violate the index |
| Contact.UpdateKeepsIndex | src/contact/sql/schema.sql:32-33 | Rewriting one row keeps the index exactly when it does not become a second waiting one for its target |
| ContactRuns.RunKeepsInv | src/contact/delivery.rs:209-353 | Over every interleaving one waiting request per target, leases only on open rows, expiry within the deadline |
| ContactRuns.LeasesIncrease | src/contact/delivery.rs:234-236 | A claim gives its row a strictly later lease than any before |
| ContactRuns.LeaseMeansOpen | src/contact/delivery.rs:345-348 | A lease is only on a queued, pending or active row and is the last one issued |
| ContactRuns.StaleWorkersChangeNothing | src/contact/delivery.rs:318-348 | A worker that lost its lease can never write again, through expiry, cancellation, restore and new claims |
| ContactRuns.RequestsEndOnce | src/contact/delivery.rs:318-348 | Failed, denied, expired and deleted requests never reopen; the binding is set at most once; the deadline bounds the expiry |
| ContactRuns.RevokedReturnsExactly | src/contact.rs:411-437 | A revoked row returns only to its exact status before the cancellation |
| ContactRuns.FinishIsRefusedExactly | src/contact/delivery.rs:345-351 | A closing transaction under its own lease is dropped exactly when an active request falls back to pending beside a waiting one |
| ContactRuns.RefusedFinishIsReached | src/contact/delivery.rs:345-351 | A run from the empty table reaches such a dropped transaction |
| ContactRuns.RestoreOvertakesExactly | src/contact.rs:431-440 | A compensation puts a row ahead of a due waiting one exactly when the row was open before the cancellation, comes first by attempt and identity, and the index lets the compensation through |
| ContactRuns.NobodyOvertakes | src/contact/delivery.rs:219-238 | No step moves a row ahead of a due waiting one, but for those a compensation gives back |
| ContactRuns.FinishLowersRank | src/contact/delivery.rs:343-349 | Finishing an earlier request strictly lowers the rank of every due waiting one |
| ContactRuns.SubmitOvertakesExactly | src/contact.rs:584-585 | A new request is served before a waiting one exactly when that one is not due yet |
| ContactRuns.OvertakenRowIsReached | src/contact.rs:584-585 | A run from the empty table reaches a request that is not due, and the next submission is served before it |
| ContactRuns.EarlierEndingsAreBounded | src/contact/delivery.rs:219-349 | While a due request waits, at most as many earlier attempts end as there were earlier requests and compensations gave back ahead of it |
| ContactRuns.FrontIsClaimed | src/contact/delivery.rs:219-237 | With nothing earlier left the next claim takes it |
| ContactRuns.ClaimsServeInOrder | src/contact/delivery.rs:219-237 | Each claim that passes a waiting request over takes a row ahead of it |
| ContactRuns.NoStarvation | src/contact/delivery.rs:219-238 | Within one lease period a due request is passed over by at most as many claims as claimable rows were ahead and compensations gave back ahead of it |
| Tiling.CheckTiles | src/package/format.rs:668-686 | The cursor walk accepts exactly the partitions of the range |
| Archive.ReadEntry | src/package/format.rs:578-664 | An entry is read exactly when its name, headers, sizes and content agree with the bytes and the remaining budget |
| Archive.ReadEntries | src/package/format.rs:573-667 | All entries are read exactly when each fits after the earlier ones, with no name or span start used twice |
| Archive.CheckDirectories | src/package/format.rs:687-700 | Accepts exactly when no file is another file's directory and files and directories stay within 10000 |
| Archive.WazRead | src/package/format.rs:547-705 | A file is accepted exactly when the end record, every entry, both tilings, the path rules and the manifest are right, and the files returned are determined by it |
| Archive.EveryByteIsIndexedOnce | src/package/format.rs:668-686 | Every byte belongs to exactly one local span, one central span or the end record |
| Archive.HeadersLieInTheirSpan | src/package/format.rs:610-656 | Each local header with its name and data lies inside its own span and declares the content's sizes |
| Archive.AcceptedTotalIsBounded | src/package/format.rs:576-666 | The decompressed total stays within 64 MiB |
| Archive.DecompressedTotal | src/package/format.rs:657-666 | What is subtracted from the budget is exactly what was read |
| Paths.ParentDropsLast | src/package/format.rs:690-690 | The parent of a path is the path without its last component |
| Paths.AncestorsArePrefixes | src/package/format.rs:688-699 | The ancestors walked are exactly the proper component prefixes |
| Extraction.Folder.WriteOne | src/package/files.rs:742-764 | One file is written below fresh or existing directories, and fails exactly on a file where a directory is needed or a name in use |
| Extraction.Folder.WriteExpanded | src/package/files.rs:734-766 | For an accepted archive only a reserved first component is refused; otherwise the folder holds exactly the public files |
| Extraction.NewFileFits | src/package/files.rs:747-764 | Without archive conflicts no file meets another file's place, in any order of writing |
| Extraction.InstalledFiles | src/package/files.rs:496-537 | The walk finds exactly the files without a reserved component and stops early only beyond depth 32 or 10000 entries |
| Extraction.ExtractedReadsBack | src/package/files.rs:497-537 | An extracted archive is a tree within both limits whose clean files are exactly the archive's clean public paths |
| Extraction.ExtractThenScan | src/package/files.rs:480-537 | Extraction followed by the walk reports exactly those paths, and fails only for a reserved first component |
| Payload.WazPayload | src/package/format.rs:707-721 | The digest is the hash of the prefix and the length-prefixed fields of every file but the signature in name order |
| Payload.FieldIsPrefixFree | src/package/format.rs:715-718 | One file's field determines its name, length and hash and where it ends |
| Payload.DigestIdentifiesFiles | WAZ.md:77-90 | Equal files give equal digests, and equal digests mean equal files up to the signature unless the hash collides on them |
| Payload.SignedPayloadFixesFiles | src/package/format.rs:707-721 | Two accepted packages with one digest hold the same files but for the signature, up to a hash collision |
| Revocation.KeyOrder | src/package/signing.rs:385-391 | The length-first key compares exactly as the CRL numbers do |
| Revocation.ValidateCrl | src/package/signing.rs:343-416 | Refuses inauthentic lists; when enforcing, a known revocation is refused even by a stale list |
| Revocation.CrlCache.CheckRevocations | src/package/signing.rs:283-341 | Both lists are validated, the larger number is kept and enforced, the cached one among equals; an invalid list changes nothing |
| Revocation.NumbersNeverFall | src/package/signing.rs:316-336 | Over any run the cached number of an issuer never falls |
| Revocation.OlderListsAreNotEnforced | src/package/signing.rs:325-339 | The enforced list is at least as new as every valid list supplied before |
| Revocation.OnlySuppliedIsInvalid | src/package/signing.rs:317-324 | From an empty cache the cached list is always valid |
| Texts.TrimsOneSlash | src/setup.rs:497-499 | A valid path has at most one trailing slash to trim |
| Texts.TrimKeepsMount | src/package/files.rs:442-450 | Trimming trailing slashes does not move a path relative to a mount |
| Routes.RoutesAreOwned | src/package/files.rs:374-421 | Every published route tells the short name and the area it belongs to |
| Routes.RoutesAreDisjoint | src/package/format.rs:45-57 | Valid packages of different names, or different parts of one, never share a route |
| Routes.TablesCollide | src/package/files.rs:464-475 | Two route tables collide on a common path, for Libs whatever the method |
| Routes.CheckRoutes | src/package/files.rs:423-478 | Refuses exactly for a proxy at or below the mount, else for a collision with another installed package |
| Routes.OnlyProxiesConflict | src/package/files.rs:1011-1018 | For valid packages of distinct names only the proxy test can refuse, so checking a batch against the old installation is enough |
| Routes.AppNameWouldCollide | src/package/format.rs:49-57 | Without the rule on the name app an ordinary Lib would collide with an App's root |
| Dispatch.ServeLib | src/sandbox.rs:208-239 | The Lib found has the asked name and standing and sees the rewritten path, in any map order |
| Dispatch.ServeApp | src/sandbox.rs:277-303 | The App found has the asked name and gets the text after it |
| Dispatch.TestInstalled | src/server.rs:151-174 | The test is true exactly when an App or an ordinary Lib of that name is loaded |
| Dispatch.Serve | src/server.rs:147-184 | The server's own routes first, then standard Libs, then installed names, proxies last |
| Dispatch.MirroredNamesAreUnique | src/sandbox.rs:216-225 | A mirrored runtime has one package per short name, so the lookup has one answer |
| Dispatch.OrdinaryRouteReaches | src/sandbox.rs:226-237 | A request to an ordinary Lib's route reaches it with its declared path |
| Dispatch.StandardRouteReaches | src/package/format.rs:83-117 | A standard Lib's route reaches it with its declared path and is never a native one |
| Dispatch.AppRouteReaches | src/package/files.rs:1402-1428 | A request to an App's route reaches it, and gets the very file it was published for exactly when it is the root's page or no component of the path is reserved and no character a control |
| Dispatch.KeptNameIsNotServed | src/package/files.rs:1402-1428 | A published file whose last component the installer keeps for itself is never served, in whatever directory |
| Dispatch.LibSeesTheRest | src/sandbox.rs:229-237 | Conversely a Lib sees exactly what follows its own prefix |
| Dispatch.PublishedIsNotProxied | src/server.rs:176-183 | No published route is ever handed to a proxy |
| Proxies.SelectIsIntended | src/routes.rs:64-94 | The chosen rule is the exact location, else the redirect to path/, else the longest location covering the path |
| Proxies.IntendedIsUnique | src/routes.rs:84-94 | There is one such choice |
| Proxies.SelectionIgnoresOrder | src/routes.rs:68-94 | The choice does not depend on the order of the table |
| Proxies.RedirectsOnce | src/routes.rs:72-83 | A redirect adds one slash and never leads to another redirect |
| Proxies.ChosenIsRewritten | src/routes/proxy.rs:226-252 | The chosen location can always be stripped, and the upstream path is its base and exactly the rest |
| Proxies.OnlyNonPathsFailToStrip | src/routes/proxy.rs:234-239 | A forwarded target fails to strip exactly when it is neither empty nor a path and the location `/` has a base |
| Proxies.AsteriskFailsToStrip | src/routes/proxy.rs:234-239 | The asterisk form beside such a location does |
| Proxies.SlashlessIsUsedExactly | src/routes.rs:86-94 | A location without trailing slash serves some path exactly when the same one with a slash is absent |
| Settings.InstallAndConfigAgree | src/setup.rs:404-436 | The installer's and the configuration's conflict tests agree on every location |
| Settings.CheckProxyMounts | src/setup.rs:385-441 | Accepts exactly when no location is reserved or at or below an installed mount |
| Settings.ParseProxies | src/setup.rs:452-495 | Accepts exactly valid unreserved distinct locations with accepted upstreams, each normalised |
| Settings.ReadServerConfig | src/setup.rs:60-66 | Reads exactly the sound configurations |
| Settings.Database.Configure | src/setup.rs:627-743 | One request commits its edit from a sound to a sound configuration or changes nothing |
| Settings.MountsExactly | src/setup.rs:723-740 | A mount is accepted exactly when it is well-formed and nothing installed is served at or above it |
| Settings.OtherEditsSucceed | src/setup.rs:701-740 | Every other edit of a sound configuration stands |
| Settings.InstallKeepsMountsFree | src/package/files.rs:430-456 | An installed batch never lands at or above an existing proxy location |
| Settings.RunsKeepMountsFree | src/setup.rs:443-446 | Over every run of installs, removals and configuration requests no proxy stands at or below an installed mount and the configuration reads back |
| Reconcile.Server.ApplyConfig | src/server/run.rs:415-454 | The new settings take with their scope, publisher and router, or the old ones stay, at worst without listener |
| Reconcile.Server.ApplyOcsp | src/server/run.rs:456-466 | Renewed credentials reach publisher and router together or not at all |
| Reconcile.Server.Listen | src/server.rs:334-357 | Registers in exactly the configured scope |
| Reconcile.Server.Close | src/server.rs:360-368 | Listener, publisher and router are gone |
| Reconcile.AppliedIsAllOrNothing | src/server/run.rs:415-454 | A live server stays live with the new settings, or is the old server, or has only lost its listener |
| Reconcile.ReconciledIsLive | src/server/run.rs:312-399 | After a pass an identity has its old server, none, or a live one with exactly the settings read or loaded; a server whose profile stays goes, and takes the settings read, exactly when the outcomes of the pass say so |
| Reconcile.DiscoverProfiles | src/server/run.rs:260-301 | Succeeds exactly when every home can be read and no name occurs twice, and then lists exactly the profiles |
| Reconcile.Host.RemoveGone | src/server/run.rs:321-341 | Exactly the servers whose profile is gone or moved are dropped |
| Reconcile.Host.ReconcileProfiles | src/server/run.rs:312-399 | A failed discovery changes nothing; otherwise each identity ends as its own server, profile and outcomes determine |
| Reconcile.RunsStayLive | src/server/run.rs:109-147 | Over every run of scans and credential renewals all servers stay live and a finished renewal finds its server |

## Left out

- Network, TLS, DNS, mDNS, OCSP fetching, WebSocket streaming and timeouts: only their outcomes are inputs.
- Cryptography, X.509 parsing and hashing: verdicts are inputs; the payload theorems hold up to a named hash collision.
- WASM compilation and execution, and the guest's own data directories.
- The access-control engine: a contact deletion there is an event that succeeds or fails. Its source is not part of this model.
- Review progress, capability snapshots and the validation of remote receipts in delivery: only the outcome of an attempt enters the closing transaction.
- Legacy package transfer, database schema migration, and recovery before an upgraded schema: facts are compared in both projections, but the database is the current schema.
- More than one leftover staging directory at startup: recovery is proved for one journal, and the runs of `Hosting` begin an operation only after the journal of the one before is gone.
- Switching.Host.Recover: recovers one journal, where the code takes every leftover staging directory in turn; `LiveJournal.UpgradeIsReverted` shows what an older one does.
- Hosting.RunsKeepMirror: an operation begins only with facts that tell its registries apart, and no look at a backup fails; `SameSecond.ReinstallLosesLib`, `RecoveryLimits.LaterUpgradeIsReverted` and `RecoveryLimits.MissedBackupIsLost` show what happens otherwise.
- Sandbox.Service.InstallPackages: asks the same of the facts of its batch, and describes a disk whose last rollback did not fail.
- Journal and JSON size limits, file ownership, permissions, symbolic link and device checks.
- Extraction of a Lib, which writes one file, and input or output errors during extraction.
- Endpoint uniqueness between Libs is the database constraint that aborts the transaction, not an algorithm.
- The development file cache in front of dispatch, and percent-encoded request paths.
- Which of its own routes the server matches first is an input of `Dispatch.Serve`: a test that holds only within the native namespace.
- Shutdown of the process, access logs and the command line.
- Hop-by-hop header removal and the forwarding itself in the proxy.
- Reconcile.Host.ReconcileProfiles: identities are visited in arbitrary instead of name order, since the result does not depend on it.
- Settings.ParseProxies: does not sort the accepted rows, since selection does not depend on their order.
- ContactRuns.NoStarvation: bounds claims within one lease period, because a worker that never finishes gives its row back when its lease ends.
