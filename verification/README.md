# Collaborative downloads: a verified model

A team of devices shares one queue of downloads. The server keeps the queue in a table, grants
tasks to devices on request or by consistent hashing, announces every change to the team, and
takes a task back from a device that has held it unfinished for five minutes. Devices authenticate
with signed tokens, learn their public address from a STUN server, serve finished files to each
other over HTTP under a rate limit, and split large downloads into ranges. This project models
those parts and proves what holds of them for every input, run or interleaving.

`dafny verify dfyconfig.toml` checks everything.

| file | what it holds |
|---|---|
| `Types.dfy`, `TaskTable.dfy` | tasks, messages, overflow; the SQL statements as functions on the table |
| `Lease.dfy`, `LeaseTheorems.dfy` | the lease protocol with one atomic step per handler, and what all its runs keep |
| `LeaseEffects.dfy` | when each request is accepted, told from what a member has heard, and the row and message that result, column by column |
| `ServerDatabase.dfy`, `MessageHandler.dfy` | the database and the handlers as classes, proved to be steps of `Lease` |
| `Interleaving.dfy` | the same protocol with one step per database call: what survives, and a race that shows what does not |
| `Uninterrupted.dfy` | handlers that nobody comes between, as whole handlers |
| `Linearization.dfy` | when interleaved runs are runs of whole handlers |
| `StaleWrites.dfy` | for each guarantee that stale copies put at risk, the test on the row that keeps it, exactly |
| `OptimisticLock.dfy` | the version used as the lock it was designed to be: what it would achieve, and what it would not |
| `HashRing.dfy` | the hash ring against a definition by modular distance, over arbitrary histories |
| `RateLimiter.dfy` | the pruned sliding window against the full admission history |
| `Text.dfy`, `AuthToken.dfy`, `HttpRange.dfy` | numbers, separators and UUIDs as text; tokens; range requests and the server's decision |
| `Stun.dfy` | the walk over STUN attributes and the decoding of the address |
| `Pieces.dfy`, `SegmentedDownload.dfy`, `ChunkedDownload.dfy` | cutting a file into pieces, fetching and merging them, for the two downloaders |
| `LocalQueue.dfy` | a client's own queue and its merge with the server's |

How to read the lease protocol. A state is the tasks table and the log of everything sent. The
theorems never compare the table with itself: they read the log (`View`, `LeaseStart`, `Changes`,
`Disciplined`) without looking at the table and show that the two agree after every run. The ring
may be any ring, task ids need not be fresh (a repeated id is refused like a repeated URL, since
SQLite words both failures alike), and the clock of the atomic runs may even go backwards.

## Where the code does not do what it seems to promise

- **Stale writes.** openspec/changes/realtime-collaboration/design.md:76 calls the version an
  optimistic lock, but `update_task` never compares it, and every database call takes the mutex
  separately. `StaleWritesBreakLeases` is a run of eight steps in which a task is granted twice with
  no release between, leaves Complete and loses version numbers. Each of the four guarantees has
  its exact condition, over all runs (`GuaranteeHoldsIffSafe`): it is kept from beginning to end if
  and only if every write of the run passes a test on the row just before it. Leases need the row
  of a claim or ring grant to be Queued, the row of a report or completion to have the claim time
  of its copy, and the row of a release to be five minutes old. A Complete row endures when what is
  written to it is its holder's completion, or a report from a copy that was Complete already, and
  the claim time agrees. Versions never fall when no row has overtaken its copy by more than one,
  and count the changes when every row has the version of its copy. Runs whose writes are
  undisturbed have all four (`FreshRunsKeepGuarantees`, `FreshRowsEndure`) and are runs of whole
  handlers (`FreshRunsAreAtomic`).
- **The lock that was meant.** Comparing versions before each write would not have been enough: the
  ring's grant leaves the version alone, so a claim read before it still finds the version it read
  (`VersionsAloneDoNotLock`). It would be enough if tasks could also not be read for a request
  while their add is pending (`LockedRunsAreAtomic`).
- **Only one team is swept.** The sweep visits the teams found in the devices table, but creating
  and joining register the nil device id, and a conflict on the id keeps the team. Whatever teams
  are created or joined, in whatever order, a sweep releases the overdue tasks of the first and of
  no other (`OnlyTheFirstTeamIsSwept`).
- **Leases end by age.** The repository's requirements for distributing work release a download
  after five minutes without progress and assign it again. The code measures from `claimed_at`,
  which progress does not move. However often and however recently the holder has reported, its
  task is released exactly when the claim is five minutes old and the last report below 1
  (`LeasesEndByAge`); `ReportsDoNotRenew` is a run in which the last report came one second before.
  A released task stays Queued.
- **STUN family byte.** Section 15.2 of RFC 5389 puts the address family in the second byte of
  XOR-MAPPED-ADDRESS; the parser looks for 1 in the first. It recovers the address exactly when the
  leading byte is 1 (`ResponseReadsBackIffLeadIsOne`), so the zero byte that section 15.1 asks for
  in MAPPED-ADDRESS is refused (`ZeroLeadIsRefused`). The length guard lets four to seven bytes
  through, and `OutOfBoundsIff` is the exact condition under which decoding then leaves the data.
- **Ring collisions.** With two devices on one hash, the one that leaves takes the other's node away
  (`CollisionLosesADevice`); the ring stands for the present devices after every history exactly
  when no two hashes collide (`RingIsFaithfulIffCollisionFree`).
- **Ranges.** `bytes=0-18446744073709551615` overflows the size computation: a debug build stops, a
  release build computes 0 and announces the file whatever its size (`EverythingOverflows`). An
  open-ended resume is refused while more than 100 MiB remain (`ResumeIsServedIff`), and a peer's
  chunk requests are all announced as asked exactly when the chunk size is at most that limit and
  the last chunk's end fits 64 bits (`PeerAnnouncesChunksIff`). All three are about status and
  headers. The body does not follow the header: src/collaboration/transfer/http_server.rs:470-472
  copies the file from its first byte, so what a client receives is the announced range of every
  file if and only if the range starts at 0 (`BodyFollowsHeadersIffFromStart`), and a resume that
  is served completes every file if and only if it resumes from nothing (`ResumeIsRightIffFromStart`).
- **HEAD.** Clients first measure a file with HEAD (src/collaboration/transfer/downloader.rs:109);
  this server routes only GET (src/collaboration/transfer/http_server.rs:316) and answers 404.
- **Too few connections.** `download_parallel` fetches no more chunks than it has connections and
  reports success for the beginning of the file. With every connection delivering, it is whole
  exactly when there is a connection for every chunk (`WholeFileIff`). With failures, which are
  merged all the same, it is whole exactly when every chunk is complete
  (`ChunkedDownload.MergeIsTheFileIffAllComplete`); a reported total of the file's size is proof of
  that (`FullCountIsTheFile`). A chunk's end that does not fit 64 bits stops a debug build and asks
  for a reversed range in a release build (`ChunkIsPieceIff`).
- **Incomplete segments.** `parallel_download` reports success as soon as one segment succeeded; the
  merged file is the original exactly when all of them are complete
  (`SegmentedDownload.MergeIsTheFileIffAllComplete`).
- **Token deadlines.** A timestamp within 300 of the largest 64-bit value overflows in `verify`;
  `GeneratedTokensAuthenticate` covers both builds.

## Model

| member | source | states |
|---|---|---|
| `LeaseTheorems.ReplayRebuildsTheQueue` | src/collaboration/server/handler.rs:279-517 | After any run of handlers and releases, a member that applies every message sent to its team and to itself, starting from nothing, holds exactly the team's rows in every field but `claimed_at`. |
| `LeaseTheorems.RowsMatchTheLog` | src/collaboration/server/handler.rs:279-517 | After any run: URLs are unique; a row is Queued iff unheld iff without claim time, never New or Failed; path and size are set iff Complete; `claimed_at` is the time of the last grant not followed by a release; the version is one more than the number of changes announced. |
| `LeaseEffects.RequestsCountIff` | src/collaboration/server/handler.rs:322-426 | After any run a report or completion of a device has an effect iff the device's own view of its team's messages says that it holds the task, and a claim iff that view says that the task is Queued; then exactly the row given column by column (the reported progress; Complete with the reported path and size and progress 1; the new holder and time) and one broadcast result. A refused claim is answered to the claimant with its reason, and any other refused request leaves the state as it was. |
| `LeaseEffects.AddsCountIff` | src/collaboration/server/handler.rs:279-319 | A task is added iff no row of any team has its id or URL; its row, with progress 0 and version 1, and the messages are given column by column, and a refusal is told to its device alone. |
| `LeaseEffects.TimeoutsCountIff` | src/collaboration/server/handler.rs:497-512 | After any run a sweep that comes upon a task releases it iff its team has heard that it is Claimed and below 1 and the outstanding grant in the log is 300 seconds old; the row then starts again: Queued, unheld, progress 0, version raised by one. |
| `LeaseEffects.SweptTasksStartAgain` | src/collaboration/server/db.rs:454-461 | After a sweep of any list exactly its overdue tasks start again at progress 0, unheld, and every other row is as it was. |
| `LeaseEffects.UnreportedGrantsAreReleased` | src/collaboration/server/handler.rs:497-512 | A task granted and never reported on since is released by every sweep from 300 seconds after the grant on and by none before. |
| `LeaseTheorems.GrantsAreSeparatedByReleases` | src/collaboration/server/handler.rs:299-350 | Between any two grants of a task in a run's log, by claim or by the ring, the server announced its release. |
| `LeaseTheorems.LeasesLastFiveMinutes` | src/collaboration/server/handler.rs:497-512 | Every release in a run's log ends a grant that stands in the log with nothing said about that lease in between and is at least 300 seconds older. |
| `LeaseTheorems.LeasesEndByAge` | src/collaboration/server/handler.rs:365-392 | After any number of progress reports by its holder, at any times, the next timeout check of a Claimed task releases and announces it iff the claim is 300 seconds old and the last report is below 1, and otherwise changes nothing. |
| `LeaseTheorems.ReportsDoNotRenew` | src/collaboration/server/handler.rs:497-512 | A run in which a task is released one second after its holder's report. |
| `LeaseTheorems.OnlyUnfinishedClaimsAreReleased` | src/collaboration/server/handler.rs:487-513 | Whatever is released was, as its team last heard, Claimed with progress below 1. |
| `LeaseTheorems.CompleteIsFinal` | src/collaboration/server/handler.rs:395-426 | Through any continuation of any run a row stays, keeps its id, team, URL and creator, never loses a version, and once Complete keeps status, holder and claim time. |
| `LeaseTheorems.StepChangesOnce` | src/collaboration/server/handler.rs:279-517 | A step leaves a row alone or raises its version by one, and never passes a task directly from one holder to another. |
| `LeaseTheorems.TeamsAreIsolated` | src/collaboration/server/handler.rs:279-517 | Any run of events of other teams leaves a team's rows as they were, only appends to the log, and sends the team nothing. |
| `LeaseTheorems.DisciplineSeparatesGrants` | src/collaboration/server/handler.rs:325-343 | In any log whose grants need an unheld task, a release lies between any two grants. |
| `LeaseTheorems.DisciplineKeepsLeases` | src/collaboration/server/handler.rs:499-512 | In such a log every release ends a grant that has stood for 300 seconds. |
| `LeaseTheorems.FiveMinutes` | src/collaboration/server/handler.rs:499-500 | Five whole minutes, rounded towards zero, is the same as 300 seconds to the nanosecond. |
| `LeaseTheorems.SweepReleases` | src/collaboration/server/handler.rs:487-516 | Sweeping a list of tasks of a team, in any order and with repetitions, releases exactly the overdue ones on it and changes no other row. |
| `LeaseTheorems.SweepLeavesNoneOverdue` | src/collaboration/server/handler.rs:487-516 | When the list holds every Claimed task of the team, none is overdue at the sweep's clock afterwards. |
| `LeaseTheorems.SweepOneMoreTeam` | src/collaboration/server/handler.rs:472-484 | Sweeping a further team extends the table swept so far to the table with that team swept too. |
| `ServerDatabase.Database.CreateTask` | src/collaboration/server/db.rs:269-297 | Inserts iff neither the id nor the URL is taken, and otherwise changes nothing. |
| `ServerDatabase.Database.UpdateTask` | src/collaboration/server/db.rs:300-319 | Rewrites the status, holder, claim time, progress, path, size and version of an existing row from the copy, unconditionally, and nothing else. |
| `ServerDatabase.Database.ReleaseTask` | src/collaboration/server/db.rs:454-461 | Resets an existing row to Queued, unheld, progress 0, with its own version raised by one. |
| `ServerDatabase.Database.GetTasksByTeam` | src/collaboration/server/db.rs:322-363 | Returns the rows of the team, all of them, each once, in no particular order. |
| `ServerDatabase.Database.GetClaimedTasks` | src/collaboration/server/db.rs:410-451 | Returns exactly the team's Claimed rows, each once. |
| `ServerDatabase.Database.GetAllTeamIds` | src/collaboration/server/db.rs:464-472 | Returns exactly the teams of the devices table, each once. |
| `ServerDatabase.Database.RegisterDevice` | src/collaboration/server/db.rs:151-181 | Refuses a malformed address or port 0 and changes nothing; otherwise stores the device, and of a known device keeps the team it had. |
| `ServerDatabase.Database.UpdateDeviceHeartbeat` | src/collaboration/server/db.rs:184-191 | Marks an existing device online and seen now; unknown devices are not added. |
| `ServerDatabase.Database.SetDeviceOffline` | src/collaboration/server/db.rs:230-237 | Marks an existing device offline and changes nothing else. |
| `ServerDatabase.OnlyTheFirstTeamIsKnown` | src/collaboration/server/handler.rs:201-216 | After any history of creating and joining teams, heartbeats and departures, the devices table holds the nil device alone, and the only team in it is the first one created or joined. |
| `ServerDatabase.RegistrationIs` | src/collaboration/server/db.rs:161-179 | A registration sets every column of its device but keeps the team of one already known, and touches no other row. |
| `ServerDatabase.NewsIs` | src/collaboration/server/db.rs:184-237 | A heartbeat and a departure touch only the row of their device and never add one. |
| `ServerDatabase.DeviceRowIs` | src/collaboration/server/handler.rs:201-216 | After any history of entries, heartbeats and departures the one device row has the first team, the last name, the time of the last entry or heartbeat and no address, and is online unless the last news of it is a departure. |
| `ServerHandlers.OnlyTheFirstTeamIsSwept` | src/collaboration/server/handler.rs:472-484 | After any such history a whole sweep changes a row iff its team is that first team and the row is overdue, and then releases it. |
| `ServerHandlers.MessageHandler.HandleAddTask` | src/collaboration/server/handler.rs:279-319 | Insert, ring assignment, write and both messages make up the atomic add step whose owner is the device nearest on the ring. |
| `ServerHandlers.MessageHandler.HandleClaimTask` | src/collaboration/server/handler.rs:322-362 | Read, search, check, write and reply make up the atomic claim step, with its two refusals. |
| `ServerHandlers.MessageHandler.HandleUpdateProgress` | src/collaboration/server/handler.rs:365-392 | The handler makes up the atomic progress step; only the holder's report has any effect. |
| `ServerHandlers.MessageHandler.HandleTaskComplete` | src/collaboration/server/handler.rs:395-426 | The handler makes up the atomic completion step; only the holder's report has any effect. |
| `ServerHandlers.MessageHandler.RegisterEntrant` | src/collaboration/server/handler.rs:255-266 | Creating and joining a team end by registering the nil device for it. |
| `ServerHandlers.MessageHandler.HandleHeartbeat` | src/collaboration/server/handler.rs:164-168 | A heartbeat touches the row of the session's device only, if there is one. |
| `ServerHandlers.MessageHandler.HandleLeaveTeam` | src/collaboration/server/handler.rs:464-469 | The device goes offline in the devices table and leaves the ring; no task row and no message is touched. |
| `ServerHandlers.MessageHandler.CheckTaskTimeouts` | src/collaboration/server/handler.rs:487-517 | One team's sweep is a run of atomic releases over a list that holds every Claimed task of the team. |
| `ServerHandlers.MessageHandler.CheckAllTaskTimeouts` | src/collaboration/server/handler.rs:472-484 | The whole sweep is a run of atomic releases that releases exactly the overdue tasks of teams with a device row, each team at its own clock reading; none of those is overdue afterwards. |
| `Interleaving.NextSurvives` | src/collaboration/server/db.rs:299-319 | One database call, with any handlers in flight, keeps every row and every held copy well formed and every row's identity. |
| `Interleaving.AnyInterleavingIsSound` | src/collaboration/server/handler.rs:279-517 | After any interleaving of database calls by any number of handlers, rows and stale copies alike are Queued iff unheld iff without claim time and never New or Failed, copies agree with their row on id, team, URL and creator, URLs are unique, and no continuation changes a row's identity. |
| `Interleaving.StaleWritesBreakLeases` | src/collaboration/server/handler.rs:322-352 | A run in which two claims read the same Queued row: two grants with no release between, a Complete row that becomes Claimed by another device, and a version that falls. |
| `Uninterrupted.RequestIsWhole` | src/collaboration/server/handler.rs:322-426 | A claim, report or completion whose database calls nobody comes between does exactly what the whole handler does, whatever other handlers hold. |
| `Uninterrupted.AddIsWhole` | src/collaboration/server/handler.rs:279-319 | So does an add. |
| `Uninterrupted.SnapshotHolds` | src/collaboration/server/db.rs:410-451 | A sweep's snapshot holds every Claimed row of the team that is listed, as it is, and nothing else. |
| `Uninterrupted.SweepIsWhole` | src/collaboration/server/handler.rs:487-517 | And so does a sweep over rows listed once each. |
| `Linearization.StepLinearizes` | src/collaboration/server/handler.rs:279-517 | A step of the interleaved protocol whose write, if any, is undisturbed and to a row whose add has finished is zero or one step of the atomic protocol on announced rows and broadcasts. |
| `Linearization.FreshRunsAreAtomic` | src/collaboration/server/handler.rs:279-517 | Every interleaving in which each claim, report and completion is written to a row whose add has finished, is still permitted and is stale in no column it keeps, and each release meets an overdue row, yields the announced rows and the broadcasts, in order and with their times, of a run of whole handlers, each taking effect at its last database call. |
| `Linearization.FreshRunsKeepLeases` | src/collaboration/server/handler.rs:325-343 | In every such interleaving, with the same condition on pending adds, grants need an unheld task and releases a grant 300 seconds old. |
| `Linearization.WriteIsAtomicIffUndisturbed` | src/collaboration/server/handler.rs:322-426 | Writing and announcing a claim, progress or completion from a held copy has the effect of the whole handler at that moment iff the request is still permitted and every column it does not set is as it was read. |
| `Linearization.ReleaseIsAtomicIffOverdue` | src/collaboration/server/handler.rs:498-512 | Releasing from a held copy has the effect of the atomic release iff the row itself is still Claimed, five minutes old and unfinished. |
| `Linearization.ClaimIsAtomicIffFresh` | src/collaboration/server/handler.rs:322-352 | Writing a claim from a held copy has the effect of the whole claim handler at that moment iff the row is still the copy that was read. |
| `StaleWrites.StepKeepsIffSafe` | src/collaboration/server/db.rs:299-319 | From any well-formed table and copies, however stale, in which the guarantee holds so far, a database call keeps it (lease rules told by the log and held by the table; finality of Complete; versions that do not fall; versions that count the changes) iff its write, if any, passes that guarantee's test on the row. |
| `StaleWrites.GuaranteeHoldsIffSafe` | src/collaboration/server/handler.rs:279-517 | For each of the four guarantees and every interleaved run: it is kept at every step iff every write of the run passes the test. |
| `StaleWrites.ClaimIsExclusiveIffQueued` | src/collaboration/server/handler.rs:325-352 | After any run that kept the leases, writing a pending claim keeps the lease rules for its task iff the row is still Queued. |
| `StaleWrites.CompletionSurvivesIff` | src/collaboration/server/handler.rs:375-418 | Writing from any copy to a Complete row leaves status, holder and claim time iff it is no claim, the row's holder wrote it, the claim times agree, and it completes or its copy was Complete. |
| `StaleWrites.WriteRaisesVersionIff` | src/collaboration/server/db.rs:299-319 | Writing from any copy raises the row's version iff the row's version is at most the copy's, and by exactly one iff they are equal. |
| `StaleWrites.FreshRunsKeepGuarantees` | src/collaboration/server/handler.rs:279-517 | Interleavings that fulfil the condition of `FreshRunsAreAtomic` keep all four guarantees at every step. |
| `StaleWrites.FreshRowsEndure` | src/collaboration/server/handler.rs:279-517 | In such an interleaving every row keeps its identity, loses no version and once Complete keeps status, holder and claim time through any continuation of the same kind; its claim time is that of the outstanding grant in the log and its version one more than the changes announced. |
| `OptimisticLock.LockedRunsAreAtomic` | src/collaboration/server/db.rs:299-319 | Had every write compared versions, and had requests not read tasks whose add is pending, every interleaving would be a run of whole handlers and keep all four guarantees. |
| `OptimisticLock.VersionsAloneDoNotLock` | src/collaboration/server/handler.rs:299-303 | A run of four steps in which every write finds the version it read and a task is still granted twice with no release between. |
| `ConsistentHashing.HashRing.constructor` | src/collaboration/crypto/hashring.rs:19-24 | A new ring is empty. |
| `ConsistentHashing.HashRing.AddDevice` | src/collaboration/crypto/hashring.rs:28-32 | Joins the device at its hash, over whoever was there. |
| `ConsistentHashing.HashRing.RemoveDevice` | src/collaboration/crypto/hashring.rs:35-39 | Clears the node at the device's hash, whoever is there. |
| `ConsistentHashing.HashRing.GetOwner` | src/collaboration/crypto/hashring.rs:42-57 | Successor lookup with wraparound finds the node at the least clockwise distance modulo 2^64. |
| `ConsistentHashing.DistanceIsInjective` | src/collaboration/crypto/hashring.rs:50-56 | Two nodes at one clockwise distance are the same node, so the owner is unique. |
| `ConsistentHashing.NearestIsSuccessor` | src/collaboration/crypto/hashring.rs:50-56 | The node at the least modular distance is the first one at or after the hash, or the first of all when there is none. |
| `ConsistentHashing.ReseatIs` | src/collaboration/crypto/hashring.rs:28-39 | A join takes the device's node from whoever had it, a leave clears it, and no other node changes. |
| `ConsistentHashing.OwnerFollowsPresence` | src/collaboration/crypto/hashring.rs:28-57 | After any joins and leaves of devices with distinct hashes, a device owns a URL iff it is the present device closest clockwise; nobody owns it iff nobody is present. |
| `ConsistentHashing.HistoryDoesNotMatter` | src/collaboration/crypto/hashring.rs:28-57 | Two histories that leave the same devices present leave the same ring. |
| `ConsistentHashing.AddMovesUrlsToNewcomer` | src/collaboration/crypto/hashring.rs:28-32 | After an add every URL has its old owner or the newcomer, even on a collision. |
| `ConsistentHashing.RemoveMovesOnlyItsUrls` | src/collaboration/crypto/hashring.rs:35-39 | After a remove only URLs of the device that held the node change owner. |
| `ConsistentHashing.CollisionLosesADevice` | src/collaboration/crypto/hashring.rs:35-39 | With two devices on one hash, the first one's departure leaves the ring empty though the second is present. |
| `ConsistentHashing.RingIsFaithfulIffCollisionFree` | src/collaboration/crypto/hashring.rs:28-39 | The ring stands for the present devices after every history of a set of devices iff no two of them share a hash. |
| `RateLimiting.RateLimiter.IsAllowed` | src/collaboration/transfer/http_server.rs:39-54 | Prunes the address's stamps and admits iff fewer than the maximum are left, recording the admission; other addresses are untouched. Which stamps are left is stated by `LiveKeeps`. |
| `RateLimiting.RateLimiter.Cleanup` | src/collaboration/transfer/http_server.rs:57-64 | The loop over addresses prunes every one and forgets those with no stamp left, and every later question, about any address, is answered as it would have been without it. |
| `RateLimiting.LiveKeeps` | src/collaboration/transfer/http_server.rs:46 | A stamp survives pruning iff less than the window has passed since. |
| `RateLimiting.CleanedHolds` | src/collaboration/transfer/http_server.rs:60-63 | After a cleanup an address has exactly its stamps of less than a window ago, and is forgotten if there are none. |
| `RateLimiting.LiveOfLive` | src/collaboration/transfer/http_server.rs:46 | Pruning at an earlier time never changes what pruning at a later time leaves. |
| `RateLimiting.RefusedIffHistoryIsFull` | src/collaboration/transfer/http_server.rs:39-64 | In any run with a nondecreasing clock and cleanups anywhere, a request is refused iff the full, never pruned admission history of its address still has the maximum of stamps that pruning at that moment would leave. |
| `RateLimiting.RefusedIffLastWindowIsFull` | src/collaboration/transfer/http_server.rs:39-54 | In times alone: in any such run a request at a time is refused iff its address has the maximum of admissions later than one window before that time. |
| `RateLimiting.AdmissionsAreBounded` | src/collaboration/transfer/http_server.rs:39-64 | In any such run each half-open interval one window long holds at most the maximum of admissions of an address. |
| `RateLimiting.CleanupIsInvisible` | src/collaboration/transfer/http_server.rs:57-64 | Two runs with the same requests give the same answers, however many cleanups each has and wherever. |
| `Stun.ParseXorMappedAddress` | src/collaboration/discovery/stun.rs:123-170 | The loop with its running offset computes the recursive search and decode, for every byte string; it terminates and reads headers in bounds. |
| `Stun.FindAddressPassesOver` | src/collaboration/discovery/stun.rs:152-164 | The walk visits exactly the successive attribute boundaries, all equally aligned, passes over other types only, and stops at the first address attribute or where no header with a value is left. |
| `Stun.FindAddressSkips` | src/collaboration/discovery/stun.rs:152-164 | Any list of whole padded attributes of other types, wherever it stands, is skipped. |
| `Stun.PaddedIs` | src/collaboration/discovery/stun.rs:163 | Rounding up by the mask is padding to whole words of four bytes (section 15 of RFC 5389). |
| `Stun.XorTwice` | src/collaboration/discovery/stun.rs:190-200 | Exclusive or with the cookie is undone by exclusive or with the cookie; `XorBits` says what it is. |
| `Stun.XorBits` | src/collaboration/discovery/stun.rs:190-200 | Bit by bit, the exclusive or of two numbers is set iff theirs differ. |
| `Stun.AddressIsFound` | src/collaboration/discovery/stun.rs:123-170 | In every Binding Response (section 6 of RFC 5389) with any other attributes before it and anything after it, the value handed to the decoder is that of the address attribute. |
| `Stun.ResponseReadsBackIffLeadIsOne` | src/collaboration/discovery/stun.rs:123-205 | Of every such response with an IPv4 address encoded by section 15.2 of RFC 5389 the parser returns the encoded address and port if the leading byte is 1, and otherwise refuses it, whatever the family byte. |
| `Stun.ZeroLeadIsRefused` | src/collaboration/discovery/stun.rs:181-188 | A response with a zero leading byte and the IPv4 family in its place is refused. |
| `Stun.OutOfBoundsIff` | src/collaboration/discovery/stun.rs:173-205 | Decoding indexes past the data iff the found attribute announces four to seven bytes, fewer than eight are there, and the leading byte is 1. |
| `Stun.ExampleIsRead` | src/collaboration/discovery/stun.rs:123-205 | A response given byte by byte for 192.0.2.1, port 32853, with a leading 1, is read as that address and port. |
| `Stun.DecodingRefusals` | src/collaboration/discovery/stun.rs:173-188 | The decoder refuses a length below 4 or beyond the data, and a first byte other than 1, and reads the first eight bytes of everything else that has as many. |
| `Stun.RefusalsAre` | src/collaboration/discovery/stun.rs:124-169 | Which responses are refused as too short, of the wrong type, with the wrong cookie, and without an address, in literal bytes. |
| `Auth.UuidRoundTrip` | src/collaboration/crypto/auth.rs:79-82 | The hyphenated text of a UUID (section 4 of RFC 9562) has no colon and parses back to it. |
| `Auth.UuidIsPrintedInGroups` | src/collaboration/crypto/auth.rs:22 | A UUID is printed in groups of 8, 4, 4, 4 and 12 digits, the digit of each power of 16 in its place. |
| `Auth.ParseUuidIff` | src/collaboration/crypto/auth.rs:79-82 | A text is read as a UUID iff it is 32 hexadecimal digits of either case with that value, plain, hyphenated, braced or as a URN. |
| `Text.ParseU64RoundTrip` | src/collaboration/crypto/auth.rs:83-84 | The decimal text of a 64-bit number parses back to it. |
| `Text.ParseU64Iff` | src/collaboration/crypto/auth.rs:83-84 | Exactly the printed 64-bit numbers are parsed, behind any zeros and perhaps a plus sign. |
| `Text.DecimalDigits` | src/collaboration/crypto/auth.rs:22 | The digit of each power of ten stands in its place. |
| `Text.SplitJoins` | src/collaboration/transfer/http_server.rs:370-371 | The pieces between separators hold none and give the text again when joined. |
| `Auth.ParseUndoesDisplay` | src/collaboration/crypto/auth.rs:20-92 | Parsing undoes printing for every token whose signature has no colon. |
| `Auth.ParsedTokensPrintAndParse` | src/collaboration/crypto/auth.rs:67-92 | Whatever spelling of the UUIDs and the number was accepted, printing the token and parsing again gives the same token. |
| `Auth.MessageIsInjective` | src/collaboration/crypto/auth.rs:55-56 | The signed text determines team, device and timestamp. |
| `Auth.HexEncodeIff` | src/collaboration/crypto/auth.rs:127 | A text is the encoding of some bytes iff it has two lower-case hexadecimal digits for each byte that have its value. |
| `Auth.ParseIff` | src/collaboration/crypto/auth.rs:67-92 | A text parses to a token iff its last three colons cut it into two UUIDs, a number and the signature; otherwise it is of invalid format. |
| `Auth.GeneratedTokensAuthenticate` | src/collaboration/server/ws.rs:94-135 | A generated token behind "AUTH:" authenticates exactly its own team and device while now <= timestamp + 300 and is refused as expired after that, under any keyed hash; where the sum overflows, the outcome of each build is given. What a generated signature is follows from `HexEncodeIff`. |
| `Auth.VerifiedMeansGenerated` | src/collaboration/crypto/auth.rs:98-118 | Short of overflow a token verifies iff it is the one generated for its fields and is in time; what its signature must be is stated by `VerifiedMeansSigned`. |
| `Auth.VerifiedMeansSigned` | src/collaboration/crypto/auth.rs:98-128 | Short of overflow a token is expired once 300 seconds have passed, and before that verifies iff its signature is lower-case hexadecimal for the keyed hash of "team:device:timestamp", and is refused for its signature otherwise. |
| `Auth.AuthenticateIff` | src/collaboration/server/ws.rs:94-135 | A first message is accepted for a team and device iff it is "AUTH:" and the text of a token of theirs that verifies. |
| `Auth.SignatureBindsIdentity` | src/collaboration/crypto/auth.rs:98-118 | If the keyed hashes of two messages collide only when the messages are equal, verified tokens share a signature iff they are the same token. |
| `HttpRange.BoundedRangeReadsBack` | src/collaboration/transfer/http_server.rs:367-390 | "bytes=S-E" parses to (S, E) for all 64-bit S <= E, in any letter case of the header name and behind any other lines. |
| `HttpRange.OpenRangeReadsBack` | src/collaboration/transfer/downloader.rs:72-76 | "bytes=S-" parses to (S, open) for all 64-bit S, likewise. |
| `HttpRange.PartialRepliesAreSound` | src/collaboration/transfer/http_server.rs:408-467 | Every 206 reply to any request lines starts where asked, has start <= end < size (sections 14.1.2 and 14.4 of RFC 9110), a length that is end - start + 1, ends no later than asked and earlier than the file only where asked; it exceeds the limit only for the whole 64-bit range. |
| `HttpRange.ServedIff` | src/collaboration/transfer/http_server.rs:408-467 | Any other parsed range gets a 206, to its own end or the file's, iff it starts inside the file and asks for at most 100 MiB, counted before clamping to the file, and a 416 otherwise. |
| `HttpRange.PlainRequestGetsWholeFile` | src/collaboration/transfer/http_server.rs:474-487 | A request without a range line gets a 200 with the file's size, and the whole file. |
| `HttpRange.UnreadableRangeGetsWholeFile` | src/collaboration/transfer/http_server.rs:367-390 | So does one whose first range line does not parse, whatever follows it. |
| `HttpRange.RangeLineIff` | src/collaboration/transfer/http_server.rs:369 | A line is a range line iff it begins "range: bytes=" in any mixture of cases. |
| `HttpRange.DashedSpecIs` | src/collaboration/transfer/http_server.rs:370-385 | Of a specification only the texts before and after the first dash matter, up to a second dash or equals sign: a number, and an empty end or a number that is not smaller; anything else does not parse. |
| `HttpRange.BareSpecIs` | src/collaboration/transfer/http_server.rs:370-378 | A start without a dash is read as open-ended. |
| `HttpRange.EverythingOverflows` | src/collaboration/transfer/http_server.rs:442-443 | The whole 64-bit range stops a debug build and in a release build is answered with headers for the whole file whatever its size. |
| `HttpRange.ResumeIsServedIff` | src/collaboration/transfer/downloader.rs:72-76 | The client's resume request gets 206 headers that announce exactly the rest of the file iff it starts inside and at most the limit remains, and 416 otherwise. |
| `HttpRange.ChunkIsServedIff` | src/collaboration/transfer/downloader.rs:202-211 | The client's request for bytes inside the file gets 206 headers that announce exactly those iff they fit the limit, and 416 otherwise. |
| `HttpRange.BodyFollowsHeadersIffFromStart` | src/collaboration/transfer/http_server.rs:459-472 | Behind any 206 headers the server writes the file from its first byte: the announced number of bytes is the announced range for every file of the size iff the range starts at 0. |
| `HttpRange.ResumeIsRightIffFromStart` | src/collaboration/transfer/downloader.rs:64-86 | Appending what a served resume delivers to the bytes already there gives the file, for every file of the size, iff there were none. |
| `Pieces.MergedIffComplete` | src/downloader.rs:248-262 | Parts that are beginnings of successive pieces merge to the file iff none is cut short. |
| `SegmentedDownload.CeilOfDoubleIsExact` | src/downloader.rs:191 | For sizes below 2^53 the nearest double of size / segments, rounded up, is the exact quotient rounded up. |
| `SegmentedDownload.SmallChunkSize` | src/downloader.rs:191 | With size and quotient both rounded to doubles, the chunk size of any size below 2^53 is the exact quotient rounded up. |
| `SegmentedDownload.LastStartFits` | src/downloader.rs:205-210 | For every 64-bit size and 32-bit number of segments, whatever the rounding, the chunk size is positive and the products of the loop stay below 2^64. |
| `SegmentedDownload.SegmentsAreInsideIff` | src/downloader.rs:201-210 | For any chunk size, all segments are nonempty intervals of the file iff the last one begins inside it. |
| `SegmentedDownload.FewSegmentsFit` | src/downloader.rs:191-210 | With the exact chunk size that is so whenever (segments - 1)^2 is below the size. |
| `SegmentedDownload.GateAllowsSegments` | src/downloader.rs:136 | For every 64-bit size above the 10 MiB gate and every number of segments up to 3239 it is so with the chunk size that double arithmetic gives. |
| `SegmentedDownload.SegmentIsPiece` | src/downloader.rs:205-210 | When the last segment begins inside the file, each segment is nonempty and runs from its cut point to just before the next. |
| `SegmentedDownload.SegmentsPartition` | src/downloader.rs:201-210 | The cut points rise from 0 to the size without leaving the file. |
| `SegmentedDownload.ParallelDownload` | src/downloader.rs:185-262 | For every 64-bit size and any positive number of segments, the output is the parts of all segments in order, complete or not, if any segment succeeded, and an error if none did; no arithmetic overflows. |
| `SegmentedDownload.MergeIsTheFileIffAllComplete` | src/downloader.rs:229-262 | For any chunk size with which the last segment begins inside the file, and transfers that deliver at worst a beginning of their range, the merged output is the file iff every segment delivered its whole range. |
| `ChunkedDownload.ChunkIsPieceIff` | src/collaboration/transfer/downloader.rs:128-134 | A connection asks for its piece of the file iff the end of its chunk fits 64 bits, or wraps to exactly 0 in a release build; otherwise a debug build stops and a release build asks for a range that ends before it begins. |
| `ChunkedDownload.CutPointsRise` | src/collaboration/transfer/downloader.rs:128-134 | The chunks partition the file: their ends rise strictly from 0 to the size. |
| `ChunkedDownload.Merge` | src/collaboration/transfer/downloader.rs:158-168 | Merging appends the chunk files there are, in order, and skips those that are missing. |
| `ChunkedDownload.ChunkedDownloader.FetchChunks` | src/collaboration/transfer/downloader.rs:137-156 | Stores what each connection left, adds up what the successful ones reported, and stops where the arithmetic does. |
| `ChunkedDownload.ChunkedDownloader.DownloadParallel` | src/collaboration/transfer/downloader.rs:114-171 | The size test, the capped loop over chunks, the running total of successful connections and the merge, over whatever an earlier attempt left in the directory, with connections that deliver, break off or leave nothing, and with the overflow checks of either build. |
| `ChunkedDownload.SingleConnectionIff` | src/collaboration/transfer/downloader.rs:115 | One connection is used iff the size is at most twice the chunk size, doubled in 64 bits; a chunk size of 0 and a doubling that overflows a debug build abort. |
| `ChunkedDownload.OutputIsFound` | src/collaboration/transfer/downloader.rs:137-171 | Whatever the directory held and the connections did, the output is for each chunk what its connection left or else what was there before, in order, and the reported total the bytes of the connections that succeeded. |
| `ChunkedDownload.StaleChunksAreAppended` | src/collaboration/transfer/downloader.rs:158-168 | With every connection delivering, files of an earlier attempt are appended for the chunks that have no connection, and make no difference for the others. |
| `ChunkedDownload.MergeIsTheFileIffAllComplete` | src/collaboration/transfer/downloader.rs:146-171 | From an empty directory, with connections that leave at worst a beginning of what they asked for, the output is the file iff every chunk had a connection that left all of it. |
| `ChunkedDownload.FullCountIsTheFile` | src/collaboration/transfer/downloader.rs:146-171 | The reported total is at most the length of the output, that at most the file's, and a total equal to the file's size means the output is the file. |
| `ChunkedDownload.OutputIsAPrefix` | src/collaboration/transfer/downloader.rs:126-171 | From an empty directory and with every connection delivering, the output is the first min(size, connections * chunk size) bytes of the file and the reported total is its length; only if the end of a fetched chunk does not fit 64 bits, a debug build stops instead. |
| `ChunkedDownload.WholeFileIff` | src/collaboration/transfer/downloader.rs:130-133 | It is the whole file iff there is a connection for every chunk and the last chunk's end fits. |
| `ChunkedDownload.PeerAnnouncesChunksIff` | src/collaboration/transfer/downloader.rs:202-211 | A peer's file server answers all chunk requests of a download with headers that announce exactly those chunks iff the chunk size is at most the server's range limit and the last chunk's end fits. |
| `ClientQueue.LocalQueue.AddTask` | src/collaboration/client/queue.rs:34-44 | Appends a New task unless its URL is known. |
| `ClientQueue.LocalQueue.ClaimTask` | src/collaboration/client/queue.rs:48-64 | Claims the first task with the id for this device iff it is Queued. |
| `ClientQueue.LocalQueue.UpdateProgress` | src/collaboration/client/queue.rs:68-78 | Changes the progress of the first task with the id. |
| `ClientQueue.LocalQueue.MarkComplete` | src/collaboration/client/queue.rs:82-99 | Completes the first task with the id whatever its state, leaving its progress. |
| `ClientQueue.LocalQueue.UpdateStatusToQueued` | src/collaboration/client/queue.rs:115-124 | Requeues the first task with the id, leaving its holder. |
| `ClientQueue.AdditionIs` | src/collaboration/client/queue.rs:34-44 | Column by column, what an addition appends, and that it is refused iff the URL is known. |
| `ClientQueue.ClaimIs` | src/collaboration/client/queue.rs:48-64 | A claim succeeds iff the first task with the id is Queued, and makes this device its holder as of now, changing nothing else. |
| `ClientQueue.OthersAre` | src/collaboration/client/queue.rs:68-124 | Column by column, what a report, a completion and a requeueing record, in any state of the task. |
| `ClientQueue.MissingTasksAreNoted` | src/collaboration/client/queue.rs:53-119 | Without a task of the id these change nothing and say so. |
| `ClientQueue.LocalQueue.SyncFromServer` | src/collaboration/client/queue.rs:128-146 | The two loops leave the server's tasks followed by the local New tasks with URLs of their own, first of each URL, in order. |
| `ClientQueue.SyncMerges` | src/collaboration/client/queue.rs:128-146 | After a sync the server's list is a prefix; everything behind it was New here and is unknown to the server; the URLs are exactly the server's and those of the local New tasks; they are unique when the server's are. |
| `ClientQueue.KeptUrls` | src/collaboration/client/queue.rs:138-142 | Appending the kept local tasks loses no URL and invents none. |
| `ClientQueue.AdditionalAreKept` | src/collaboration/client/queue.rs:138-142 | Local tasks with distinct URLs the server does not have are all kept, in their order. |
| `ClientQueue.KeptIff` | src/collaboration/client/queue.rs:138-142 | A local New task is kept iff the server does not have its URL and no earlier one does. |
| `ClientQueue.KeptGrows` | src/collaboration/client/queue.rs:138-142 | Further local tasks only add to the end of what is kept. |
| `ClientQueue.SyncIsIdempotent` | src/collaboration/client/queue.rs:128-146 | A second sync with the same list changes nothing. |
| `ClientQueue.RunIsSound` | src/collaboration/client/queue.rs:34-146 | Over any run of operations, with any server lists that are sound themselves, URLs stay unique and every Claimed task has a claimant. |

## Left out

- SegmentedDownload.ParallelDownload: a size or a segment count of 0, which the caller's gate keeps away, is excluded; retries are folded into what a transfer finally left and reported.
- ChunkedDownload.ChunkedDownloader.DownloadParallel: the reported total is not bounded by 64 bits, and a failure to open or copy a chunk file while merging is not modelled.
- ChunkedDownload.WholeFileIff: says nothing of a release build whose last chunk's end wraps, since what a server makes of a reversed range is open; `ChunkIsPieceIff` says when that is.
- LeaseTheorems.RowsMatchTheLog: holds of handlers run one at a time; between database calls only what `Interleaving` and `Linearization` state remains.
- Linearization.FreshRunsAreAtomic: its condition is sufficient for a run and exact for one write (`WriteIsAtomicIffUndisturbed`, `ReleaseIsAtomicIffOverdue`); it speaks of rows whose add has been announced, and of broadcasts but not of replies to single devices, whose order among themselves can differ.
- Broadcasts happen with the database write they report and in the order of the writes; the delay between the two and delivery to sockets that come and go are not modelled, and `View` is of a session that heard everything.
- Database failures other than a taken id or URL, foreign keys (a team id is one of an existing team), and the text encoding of rows.
- In the interleaved protocol the ring lookup of an add, its write and its two messages are one step, and the clock reading of a handler is part of its first step or of that step.
- Progress is a real number; a NaN cannot arrive through JSON.
- Versions are unbounded; 2^63 changes of one task would be needed to wrap.
- Sessions, invite codes, team names, offline messages and file requests.
- What makes a text an IP address, which registration checks, is a parameter of the database.
- The ring's hash functions, the keyed hash and the random task ids are parameters; so are all clocks.
- What happens to the bytes a server sends beyond the announced length; a client is taken to stop there.
- Path checks, CORS headers and routing of the file server.
- The IPv6 branch of STUN addresses, which the parser refuses, and sending requests, retries and timeouts.
- Saving and loading the local queue's file; a failed save leaves the change in memory.
- The single-connection download, its resume test and progress callbacks.
- The graphical and command-line interfaces, configuration, history and the yt-dlp wrapper: no state worth an invariant.
- The reconnect loop of the client: bounded by constants.
