# mdock: a verified model of its core

mdock serves Markdown vaults. An edit takes a lease on a file, is written to
disk, indexed for search and committed to git in the background; the browser
shows the document as blocks that are rendered one by one. This project models
the code behind these promises in Dafny and proves what the code keeps, over
all inputs and all runs.

**Commit queue** (`GitModel`, `GitQueue`, `GitStartup`, `GitRegistry`,
`GitRuns`). The working tree is the replay of all file writes, so "this commit
is no older than that moment" is a precise statement, path by path. `Queue` is
the class with the source's loops; `GitRuns` lets its critical sections and
single git commands interleave with writers, any number of overlapping flushes,
exclusive runs, recovery commits of newly prepared vaults, close, crash and
restart. The table `git_queue_pending` is not assumed to cover `pending`:
clearing deletes rows added after the snapshot, and whole-tree changes have no
row. The guarantee after a crash comes from the recovery commit. A flush that
nobody disturbs and in which nothing fails ends with everything committed.

**Leases** (`Instants`, `Numerals`, `InstantTexts`, `Leases`, `LeaseRuns`,
`MutationLocks`, `WrapperLaws`, `EditorSession`, `SessionLease`). Expired rows are removed by comparing texts in the format of
section 5.6 of RFC 3339 with trailing zeros of the fraction dropped, while
section 5.1 promises text order only for equally many fraction digits.
`Instants` writes these texts out, calendar included, and determines when text
order is time order; `InstantTexts` reads their digits back to the instant they
stand for. The service runs several statements in a call, without a
transaction, so calls interleave statement by statement here; a single SQL
statement is what remains atomic. On this rest lease exclusion over whole runs,
with any number of Acquires between their check and their upsert (`LeaseRuns`),
the frame of the two mutation wrappers (row by row for one that runs alone), and the timed result on when exactly an
open editor session keeps its lease.

**Paths** (`GoPaths`, `SafePaths`, `WebdavPaths`, `SegmentChars`). Which spellings a vault
accepts, against the walk that a path describes; that accepted paths stay
inside the root; and printing and parsing of WebDAV addresses, with the bytes
that are printed as they are.

**Live preview and edits** (`Splitting`, `MarkdownLines`, `LineShapes`,
`TableShapes`, `BlockScan`, `BlockGrammar`, `BlockSplitter`, `BlockKinds`,
`BlockTiling`, `ActiveBlocks`, `TextDiff`, `LineEdits`, `LineEditLaws`,
`ImportPaths`, `ImportDirectories`, `Decimals`). The block splitter with its loops
and offsets. `LineShapes` and `TableShapes` say character by character which lines
open which block, `BlockGrammar` describes a division of the lines into blocks
without a scan and proves that the scan yields the one that fits, and `BlockKinds`
turns this into laws on the text. The blocks tile every document and can be
rendered alone. Then the decorations, the one-edit diff, line edits and their
undoing, and the naming of imported files.

**Page index** (`PageIndex`, `PageSync`, `PageFlights`). Two tables kept in step
by hand and the file operations that call them. `PageSync` has the operations as
whole requests, one after the other; `PageFlights` takes them apart into file
operation, file read and transactions, lets any number of requests interleave,
and says when the index agrees with the files.

**Rate limiter** (`RateLimiter`, `LimiterKeys`). A fixed window with deletion in
place, against a limiter that never deletes, the independence of the keys, and the
exact bound on recorded failures when callers overlap.

`Basics` has what several modules share. No lemma relies on automatic induction:
where Dafny would try it, `{:induction false}` turns it off, and a proof by
induction calls itself.

Where a promise fails, the exact condition is proved: a heading `---\n---`
alone reads as frontmatter; a caret before a newline that begins the text makes
line edits add a newline; a lease can be taken over within the second in which
it ends; two Acquires of a free path that overlap are both granted; a directory
whose path is not ASCII can be moved away under a lease on a file in it; an
Enqueue that fails to persist arms no timer; a WebDAV request may change the
holder of a path; of two saves under one owner the first to end leaves the second
without a lease; the spelling `/` has two lock keys; the name found for an
imported file may be in a directory that was never listed; an address with a
percent sign in the file's name does not lead back to it; removing or renaming a
directory strands the pages below it; a file that changes while a request still
holds its earlier content can end with the wrong page; callers
that overlap get more than twice the limit of failures through the limiter.

Git, SQLite, the file system, clocks, the Markdown parser, SHA-256 and request
timing are parameters: every call that can fail carries its outcome as an
argument, and results hold for all of them. Failures of the index code that are
only logged by the source do not appear in the results of the operations.
A write, move or delete with the outcome `Broken` in `PageSync`, and the step
`Aside` in `PageFlights`, stand for every change of a file that bypasses the
index, WebDAV writes and git restores included.

## Model

| member | source | states |
|---|---|---|
| `GitModel.AddAndCommitEffect` | internal/git/git.go:227-255 | However `add -A` and the commit go, the only commit that can appear is the working tree, and only on a head that differs from it; success leaves the working tree as head |
| `GitModel.AddAndCommitExact` | internal/git/git.go:227-255 | Add and commit succeed exactly when git works, or when the commit fails but the head already is the working tree; the history grows by the working tree exactly when the head differs and the commit works or has landed; what is staged is the working tree unless the add fails |
| `GitModel.CommitExact` | internal/git/git.go:238-255 | The commit alone succeeds exactly when something is staged and git works, and exactly then, or when it has landed all the same, what is staged becomes the head |
| `GitModel.LastWriteCounts` | internal/app/service.go:586-608 | A path of the working tree has the content of the last write to it, and none before the first |
| `GitModel.FreshAfterCheckout` | internal/app/service.go:490-500 | Restoring one file out of a commit, which also stages it, keeps a staged tree at least as recent as it was |
| `GitModel.FreshIsExact` | internal/git/git.go:501-524 | A commit no older than a moment holds, for a path nobody wrote since, exactly the content the path had then |
| `GitModel.CommitLands` | internal/git/git.go:238-255 | A successful commit puts what was staged into the history |
| `GitModel.CleanIsCommitted` | internal/git/git.go:239-245 | An empty status, where no commit is made, means the working tree is already the head |
| `GitQueue.Queue.Enqueue` | internal/git/git.go:387-417 | Accepted exactly with source, message and an open queue; then every path (the empty key for no paths) is pending with that source, the non-empty ones are persisted in order up to the failing insert, and the timer is armed only if all rows were written |
| `GitQueue.Queue.AddKeys` | internal/git/git.go:399-404 | The loop adds exactly the keys of its argument |
| `GitQueue.Queue.PersistPaths` | internal/git/git.go:405-414 | The loop writes the rows of the paths up to the failing insert, and never a row for the empty path |
| `GitQueue.Queue.ArmTimer` | internal/git/git.go:420-430 | Arms the debounce timer unless the queue is closed |
| `GitQueue.Queue.TakeSnapshot` | internal/git/git.go:482-499 | The copy loop yields the whole of `pending`, which is then empty |
| `GitQueue.Queue.Classify` | internal/git/git.go:488-497 | The files and the sources counted for the commit message are the non-empty keys and values |
| `GitQueue.Queue.RestorePending` | internal/git/git.go:529-540 | A failed flush gives back exactly the entries that have no newer one, and arms the timer if anything is pending and the queue is open |
| `GitQueue.Queue.Flush` | internal/git/git.go:481-525 | A flush nobody interleaves with succeeds exactly when git goes through and the rows are cleared; then the head is the working tree, nothing is pending or persisted and no error is left; and which of repository, rows, pending, timer and last error change in each failure |
| `GitQueue.Queue.Close` | internal/git/git.go:451-459 | Closed and disarmed for good, and flushed: repository, rows, pending, last error and answer, success being decided as for a flush |
| `GitQueue.Queue.ReplayPending` | internal/git/git.go:573-610 | A failing query or an empty table changes nothing; otherwise the rows are loaded over what is pending and flushed, with repository, rows, pending, timer, last error and answer in every case |
| `GitStartup.InitializeVault` | cmd/mdock/main.go:149-167 | Preparing the directory and repository, replay, then the recovery commit; the first failure ends the startup of the vault |
| `GitStartup.InitializeVaults` | cmd/mdock/main.go:149-168 | Vaults are started in order, the first that fails stops the loop, and vaults behind it are untouched |
| `GitStartup.StartVaultEffect` | cmd/mdock/main.go:160-167 | However startup goes it adds at most one commit, the working tree; success leaves the working tree as head and no persisted rows |
| `GitStartup.StartVaultExact` | cmd/mdock/main.go:149-167 | Exactly when the startup of a vault succeeds, in terms of each of its statements, and what the history then is |
| `GitStartup.FaultlessStartup` | cmd/mdock/main.go:149-167 | A startup in which nothing fails succeeds, whatever the state of the vault |
| `GitStartup.RestartsCommitOnce` | cmd/mdock/main.go:160-167 | A process that dies again and again during startup still adds at most one commit in all |
| `GitStartup.StartedMeansCommitted` | cmd/mdock/main.go:160-167 | After a successful startup the content of every path at every earlier moment is covered by a commit |
| `GitRegistry.QueueRegistry.For` | internal/git/registry.go:23-32 | One queue per vault: the same object on every call, a new empty one on the first |
| `GitRegistry.QueueRegistry.CloseAll` | internal/git/registry.go:34-49 | Every queue is closed and flushed once even after another failed; an error is returned exactly when one fails |
| `GitRuns.InvStep` | internal/git/git.go:365-610 | Every step of every interleaving (enqueues, overlapping flushes, explicit flushes, exclusive runs, close, crash, startup, file writes, and the recovery commits of vaults prepared on a running server, which take no mutex) keeps the invariant |
| `GitRuns.FlushAlone` | internal/git/git.go:481-525 | The steps of a flush that nobody comes between leave repository, rows, pending, timer and last error exactly as the method does, for every answer of git and the database |
| `GitRuns.GoodFlush` | internal/git/git.go:481-525 | A flush in which every step works leaves the working tree as the head, no rows, nothing pending and no error |
| `GitRuns.NoChangeLost` | internal/git/git.go:387-417 | In every reachable state of a running process every change ever enqueued is pending, in the snapshot of a running flush, or covered by a commit no older than its Enqueue |
| `GitRuns.EnqueueQueues` | internal/git/git.go:399-404 | Right after an accepted Enqueue every one of its keys is pending and recorded |
| `GitRuns.LeavesOnlyCommitted` | internal/git/git.go:498-540 | A change that is no longer queued while the process runs is in a commit |
| `GitRuns.CommittedExactly` | internal/git/git.go:501-524 | If nobody wrote the path since, some commit holds exactly the content enqueued |
| `GitRuns.OneGitAtATime` | internal/git/git.go:473-502 | At most one flush or exclusive run is in its git phase, recovery commits of a running server coming in between at any point, and no commit repeats its parent |
| `GitRuns.CrashRecovery` | cmd/mdock/main.go:149-168 | After any run, with a crash at any step, a successful startup leaves everything ever enqueued committed, the head equal to the working tree and no rows, with one new commit if the head was behind and none otherwise |
| `GitRuns.RetryNotForgotten` | internal/git/git.go:387-430 | In a run of any length, whenever something is pending on an open queue the timer is armed or a flush is about to take it, if and only if no accepted Enqueue failed to persist while neither was the case |
| `GitRuns.HeldStep` | internal/git/git.go:387-430 | The same for one step: of all steps exactly such an Enqueue leaves what is pending alone |
| `GitRuns.PersistedMeansHeld` | internal/git/git.go:406-415 | While inserts succeed nothing pending is forgotten |
| `GitRuns.UnarmedHappens` | internal/git/git.go:406-415 | It happens: a run whose only Enqueue fails to persist leaves its key pending with no timer and no flush |
| `GitRuns.CloseDrains` | internal/git/git.go:451-459 | If nothing fails after Close, then once every flush has taken its snapshot nothing is pending |
| `GitRuns.DrainedStep` | internal/git/git.go:451-540 | A closed queue with nothing pending and only empty snapshots in flight stays so, whatever its flushes do |
| `GitRuns.DrainedIsSafe` | internal/git/git.go:451-540 | When nothing is pending or in flight on a closed queue every change ever enqueued is in a commit |
| `GitRuns.CloseCompletes` | internal/git/git.go:451-459 | Once a Close without failures has all calls done, every change ever enqueued is in a commit and nothing is pending, and both stay so for the rest of the process |
| `GitRuns.NeverStuck` | internal/git/git.go:481-525 | While a call is unfinished some call can take its next step, whatever git and the database answer |
| `Instants.StampOrder` | internal/locks/service.go:62-62 | The written date and time of a later second is always the greater text (years up to 9999) |
| `Instants.TextOrderIsTimeOrder` | internal/locks/service.go:153-154 | For instants in time order the texts are in the same order exactly unless both lie in one second and the trimmed fraction of the earlier is a proper prefix of the later one |
| `Instants.SameWidthInOrder` | internal/locks/service.go:153-154 | With equally many fraction digits, text order is time order |
| `Instants.FormatInjective` | internal/locks/service.go:131-131 | Different instants have different texts |
| `InstantTexts.FormatDenotes` | internal/locks/service.go:131-131 | The text of an instant has the layout of RFC 3339 and names a day of the calendar and a time of the day; read back by the calendar in closed form it gives the instant, to the nanosecond, and its fraction does not end in a zero |
| `InstantTexts.StampDenotes` | internal/locks/service.go:131-131 | Date and time of every second up to the year 9999, with leap years by the closed formula of the calendar |
| `Instants.TextLeqWithinASecond` | internal/locks/service.go:153-154 | The sweep errs by less than one second in either direction, and exactly where a lease is over or the texts are out of order |
| `Leases.LockService.CleanupExpired` | internal/locks/service.go:153-159 | Deletes exactly the rows whose expiry text is not after the text of now, and counts them |
| `Leases.LockService.Acquire` | internal/locks/service.go:28-67 | Bad arguments, sweep, a live lease of somebody else, a failing statement, or the new lease: table and answer of every case, with anything that others perform between its three statements |
| `Leases.LockService.Get` | internal/locks/service.go:69-89 | Sweeps and returns the row that its select finds, with anything that others perform in between |
| `Leases.LockService.ActiveUnder` | internal/locks/service.go:91-126 | Sweeps and returns the leases that its query finds for the directory, the prefix being cut at its length in bytes |
| `Leases.UnderExact` | internal/locks/service.go:96-103 | The query for a directory lists the path itself, and the paths below it exactly if the path of the directory is ASCII |
| `Leases.LockService.Heartbeat` | internal/locks/service.go:128-143 | Extends exactly the row of that path and owner; otherwise reports that the caller is not the owner |
| `Leases.LockService.Release` | internal/locks/service.go:145-151 | Removes the row only if the owner matches |
| `Leases.OthersKeepRow` | internal/locks/service.go:28-159 | Of all single statements of anybody else, sweeps at an instant of an earlier whole second than the expiry, exactly the upsert of an Acquire changes the row |
| `Leases.LeaseExclusion` | internal/locks/service.go:28-159 | Over any sequence of statements of other owners without an upsert of the path, with any failures and sweeps at any instants of whole seconds before the expiry, the row stays exactly as it was |
| `Leases.OthersAreRefused` | internal/locks/service.go:43-51 | While an owner holds the path, before its last second, the check of every other owner is refused |
| `Leases.HeldStep` | internal/locks/service.go:28-159 | Of all statements by anybody, before the lease ends, exactly the owner's own release and another owner's upsert end its holding of the path |
| `Leases.HeldExactly` | internal/locks/service.go:28-159 | Over whole runs of statements by anybody, calls interleaving in any way, the owner holds the path all along exactly if none of them is such a release or upsert |
| `Leases.AgreeAlways` | internal/locks/service.go:28-159 | What happens to a path never depends on the lease of another path |
| `Leases.CallIsStatements` | internal/locks/service.go:28-159 | Each of the six calls does to the table what its statements do in a run, with those of others in its gaps |
| `Leases.TakenOverEarly` | internal/locks/service.go:32-51 | The bound is tight: within the second in which it ends, at a whole second, a lease is taken over before its end |
| `Leases.AcquireExact` | internal/locks/service.go:32-51 | When exactly another owner, alone, gets a leased path: the lease is over, or the two texts are out of order |
| `LeaseRuns.RunIsStatements` | internal/locks/service.go:28-67 | A run of sweeps, checks and upserts of any number of Acquires in flight, among all other statements, does to the table what its statements do |
| `LeaseRuns.AcquireAmongOthers` | internal/locks/service.go:28-67 | Its three steps, with any actions of others in the two gaps, answer an Acquire as the service method does |
| `LeaseRuns.GrantedAmongOthers` | internal/locks/service.go:28-67 | And when it is granted they leave the table that the method leaves |
| `LeaseRuns.HeldUnlessOverdue` | internal/locks/service.go:32-63 | From the moment an owner holds a path, with any number of Acquires in flight, it holds it all along, before its last second, exactly if it does not release it and no foreign Acquire whose check had passed before that moment upserts afterwards |
| `LeaseRuns.ForeignChecksRefused` | internal/locks/service.go:43-51 | Meanwhile every foreign Acquire of the path that comes to its check is answered locked |
| `LeaseRuns.TwoGrants` | internal/locks/service.go:32-63 | The exception happens on every free path: two owners pass their checks, both are answered that they have it, and the next heartbeat of the first one to write is answered "not the owner" |
| `MutationLocks.WithFileMutationLock` | internal/app/service.go:790-810 | The table during and after the wrapper, whether the operation ran and the answer, with any statements of others between any two of its own and a failure at each |
| `MutationLocks.WebRunsUnderLock` | internal/app/service.go:790-810 | The operation runs exactly when no statement fails and at its check the path is free or held by the same owner; while it runs that owner holds the path all along exactly if it does not release it and no foreign upsert, of an Acquire that had passed its check before, comes in |
| `MutationLocks.WebHeldUnlessOverdue` | internal/app/service.go:790-810 | The same with all Acquires in flight: the owner holds the path while the operation runs exactly if it does not release it and no foreign Acquire whose check had passed before the upsert of the wrapper upserts |
| `MutationLocks.WebFrame` | internal/app/service.go:790-810 | Who holds the path after an operation that nobody broke into, and that this is the holder just before its upsert exactly if the lease is given back when nobody held the path then and kept when the owner did; to every other path the wrapper is invisible |
| `MutationLocks.WebKeepsHolder` | internal/app/service.go:790-810 | If neither the owner's other calls nor a foreign upsert touch the path between the Get and the upsert, that holder is kept exactly unless the final release fails: an editor's lock survives its save, a transient lock is gone |
| `MutationLocks.OverlappingSaves` | internal/app/service.go:790-810 | Why the release is excepted: of two saves at once under one owner without a lease, the first to end leaves the second without |
| `MutationLocks.OverlappingOperations` | internal/app/service.go:790-810 | Why the foreign upsert is: two operations of different owners on a free path both run when one is granted between the check and the upsert of the other |
| `MutationLocks.ThroughFrame` | internal/app/service.go:800-809 | For both wrappers: who holds the path afterwards, and that other paths cannot tell the difference |
| `MutationLocks.WithMutationLock` | internal/webdav/handler.go:417-446 | The table during and after the WebDAV wrapper, whether the operation ran and the answer, with any statements of others between any two of its own and a failure at each |
| `MutationLocks.DavFrameExact` | internal/webdav/handler.go:417-446 | The WebDAV operation runs exactly when no statement fails and at its check the path is free or held by the same owner; who holds the path after it, and that this is the holder just before its upsert exactly when the lease is given back and nobody held the path then, or kept and the owner did; it is invisible to every other path |
| `MutationLocks.TokenLeavesLease` | internal/webdav/handler.go:417-446 | A request that brings a token for a free file leaves a lease behind |
| `MutationLocks.TokenlessEndsLease` | internal/webdav/handler.go:417-446 | Of two requests without token by one user, the one that ends first ends the lease the other works under |
| `MutationLocks.EnsureMoveUnlocked` | internal/app/service.go:691-708 | Sweeps, and allows the move as the lease table of its query says; a failing query stops it |
| `MutationLocks.MayMoveExact` | internal/app/service.go:691-708 | A move goes on exactly when at its query nobody holds the path or, for a directory with an ASCII path, anything below it |
| `WrapperLaws.WebAlone` | internal/app/service.go:790-813 | A save alone runs exactly if no other owner has a live lease, under a new lease of its own; afterwards the path is leased exactly if the named owner had it before, and every other row is as it was, expired ones swept |
| `WrapperLaws.DavAloneExact` | internal/webdav/handler.go:417-446 | A WebDAV request alone runs exactly if no other owner has a live lease; its lease stays exactly if a token came with the request, and every other row is as it was, expired ones swept |
| `WrapperLaws.FailuresStop` | internal/app/service.go:790-813 | A failing Acquire stops either wrapper, and a failing Get the save of a named owner |
| `WrapperLaws.FailedReleaseKeeps` | internal/app/service.go:805-811 | When the final release fails the table is what the operation left |
| `MutationLocks.DirectoryProtected` | internal/app/service.go:691-708 | The check stops every move of a directory in which somebody holds a file exactly if the path of the directory is ASCII |
| `EditorSession.Session.ScheduleHeartbeat` | web/src/features/editor/fileEditorSession.js:89-95 | Sends one heartbeat unless one is pending or the session is closed |
| `EditorSession.Session.StopHeartbeat` | web/src/features/editor/fileEditorSession.js:119-125 | Disarms the timer and forgets the pending request |
| `EditorSession.Session.Close` | web/src/features/editor/fileEditorSession.js:70-82 | Stops the heartbeat, closes, and releases the lock exactly if the session was open |
| `EditorSession.Session.OnAcquireDone` | web/src/features/editor/fileEditorSession.js:28-47 | A granted lock opens the session, which then reads its file or, in `save`, sends its first heartbeat; a refused one changes nothing else |
| `EditorSession.Session.OnReadDone` | web/src/features/editor/fileEditorSession.js:31-40 | A read starts the heartbeats, a failed read closes |
| `EditorSession.Session.OnBeatDone` | web/src/features/editor/fileEditorSession.js:97-116 | Of all answers exactly 409 and 423 close; after any other an open session arms one new timer and waits for no request |
| `EditorSession.Session.OnTimer` | web/src/features/editor/fileEditorSession.js:112-112 | A firing timer sends the next heartbeat |
| `EditorSession.OneToken` | web/src/features/editor/fileEditorSession.js:70-125 | In every run an open session that has read its file has exactly one heartbeat token, a request in flight or an armed timer |
| `EditorSession.QuietAfterClose` | web/src/features/editor/fileEditorSession.js:70-125 | Once closed no completion arms a timer and no heartbeat is sent until the session is reopened |
| `EditorSession.LostLockCloses` | web/src/features/editor/fileEditorSession.js:97-116 | A heartbeat closes the session exactly on 409 and 423 |
| `EditorSession.BeatAnswerExact` | web/src/features/editor/fileEditorSession.js:97-116 | For every answer to the only heartbeat of an open session: it closes exactly on 409 and 423 and otherwise goes on with exactly one armed timer and no request |
| `EditorSession.SessionLives` | web/src/features/editor/fileEditorSession.js:28-125 | Step by step: opening, reading, the first heartbeat, its timer, the next heartbeat, a save on a closed session, and closing |
| `SessionLease.TimedIsSafe` | web/src/features/editor/fileEditorSession.js:84-125 | In every state that the invariant allows the row of the session lasts more than a second longer |
| `SessionLease.InvStep` | web/src/features/editor/fileEditorSession.js:28-125 | Every step of the session and of time, and every statement of anybody but a foreign upsert and the release of the path, keeps the timed invariant |
| `SessionLease.OpenSessionKeepsLease` | web/src/features/editor/fileEditorSession.js:28-125 | If calls take at most D, a save writes its row at most E after it read the clock, and heartbeat + 2D + E and 3D + E stay a second below the lease time, then in every run the row of the session is its own, with more than a second left, whenever it needs it, exactly if meanwhile no foreign Acquire upserts and the owner does not release the path |
| `SessionLease.OthersRefused` | internal/locks/service.go:43-51 | At all those moments the check of every other owner is refused, so that the upsert can only be of an Acquire that had passed its check before |
| `SessionLease.NotSwept` | internal/locks/service.go:153-159 | At all those moments no sweep of a call that has begun removes the row |
| `SessionLease.HeartbeatsSucceed` | internal/locks/service.go:128-143 | So long as the lease has not been taken so, a heartbeat of the open session is never answered "not the owner" |
| `SessionLease.TakenCloses` | web/src/features/editor/fileEditorSession.js:89-114 | Once it has been, the next heartbeat closes the session and leaves the table alone |
| `GoPaths.WalkInside` | internal/vault/path.go:21-21 | While a walk never goes above its start, cleaning holds exactly the names the walk has not come back up from, each at its depth |
| `GoPaths.WalkOutside` | internal/vault/path.go:25-27 | Once a relative walk goes above its start, the cleaned path begins with `..` for good |
| `GoPaths.CleanNoLonger` | internal/vault/path.go:21-21 | Cleaning never makes a relative path longer |
| `SafePaths.SafeRelPath` | internal/vault/path.go:13-36 | The scanning loop and its guards compute the accepted path or the reason for rejecting it |
| `SafePaths.SafeExact` | internal/vault/path.go:13-36 | Accepted are exactly the single slash and the relative walks that never go above their start and end without a `.git` component; each rejection gives its reason |
| `SafePaths.SafeContent` | internal/vault/path.go:21-35 | The accepted path has the surviving names of the walk as components, each at its depth |
| `SafePaths.SafeFixed` | internal/vault/path.go:13-36 | An accepted result is accepted again and unchanged |
| `SafePaths.InsideExact` | internal/vault/path.go:315-332 | The second check passes exactly for paths at or below the root |
| `SafePaths.SafeStaysInside` | internal/vault/path.go:116-123 | Joined to any absolute root an accepted path passes the second check and is the root's components followed by its own |
| `SafePaths.KeyIsPath` | internal/app/service.go:778-788 | Two accepted spellings have one lock key exactly when they name the same path |
| `SafePaths.KeyExact` | internal/app/service.go:778-788 | A path has a lock key exactly when it is a safe walk that does not end at the root, or may end there; the key, and when the root is what is refused |
| `WebdavPaths.SameKey` | internal/webdav/handler.go:462-485 | WebDAV and the web application use one lock key for an accepted path, exactly except for the spelling `/` |
| `WebdavPaths.WebdavHref` | internal/webdav/handler.go:517-534 | The two loops print the slug and the components, escaped, with a slash after a directory |
| `WebdavPaths.HrefRoundTrip` | internal/webdav/handler.go:462-534 | For every slug and path of arbitrary bytes, files and directories alike, parsing a printed href gives back the slug and the cleaned path; an empty slug is rejected |
| `WebdavPaths.HrefRoundTripExact` | internal/webdav/handler.go:462-534 | The path comes back as it went in exactly when it is relative and clean |
| `WebdavPaths.ServedExact` | internal/webdav/handler.go:182-186 | A request path is decoded once before it is parsed; so an href leads back to its file exactly when neither slug nor path has a percent sign and the slug no slash |
| `WebdavPaths.PercentNameIsLost` | internal/webdav/handler.go:182-186 | The file `50%.md` is listed under an address that does not lead back to it |
| `WebdavPaths.UnescapeLength` | internal/webdav/handler.go:469-477 | Decoding keeps text without percent signs and shortens any other |
| `SegmentChars.EscapeIsSegment` | internal/webdav/handler.go:526-528 | An escaped component is a path segment of RFC 3986, and escaping leaves a text alone exactly if it has only segment characters other than seven that Go encodes all the same |
| `SegmentChars.DecodeExact` | internal/webdav/handler.go:462-485 | Decoding a component yields exactly the text in which every percent sign with two hexadecimal digits, of either case, stands for one character and any other character for itself; where no text fits it fails |
| `MarkdownLines.SliceOfLines` | packages/mdock-editor/src/core/splitters/blockSplitter.ts:109-111 | Consecutive lines joined are the slice of the text between their offsets |
| `BlockScan.SpansCover` | packages/mdock-editor/src/core/splitters/blockSplitter.ts:154-254 | For every document the blocks are in order, do not overlap, start with a line that is not blank, and leave out only blank lines |
| `BlockGrammar.SplitExact` | packages/mdock-editor/src/core/splitters/blockSplitter.ts:154-254 | The splitter against a description of its result: for every document a list of blocks is the result if and only if each block starts at the first line with text after the one before, has the first kind that fits its lines, and goes exactly as far as this kind does |
| `BlockKinds.KindOfBlock` | packages/mdock-editor/src/core/splitters/blockSplitter.ts:182-250 | Every block but frontmatter has the kind of its first line and goes as far as this kind does |
| `BlockKinds.ParagraphLaw` | packages/mdock-editor/src/core/splitters/blockSplitter.ts:243-250 | The first line of a paragraph has no start of another kind |
| `BlockKinds.CodeLaw` | packages/mdock-editor/src/core/splitters/blockSplitter.ts:184-192 | On the text: up to three characters of white space and three backquotes or tildes begin a code block |
| `BlockKinds.QuoteLaw` | packages/mdock-editor/src/core/splitters/blockSplitter.ts:213-221 | A `>` begins a quote, unless the line heads a table |
| `BlockKinds.HeadingLaw` | packages/mdock-editor/src/core/splitters/blockSplitter.ts:223-228 | One to six `#` before white space or the end begin a heading, unless the line heads a table |
| `BlockKinds.ListLaw` | packages/mdock-editor/src/core/splitters/blockSplitter.ts:203-211 | A bullet, or one to nine digits with a dot or parenthesis, before white space begins a list, unless the line heads a table |
| `BlockKinds.TableLaw` | packages/mdock-editor/src/core/splitters/blockSplitter.ts:194-201 | A row before a delimiter line begins a table, unless it is a fence |
| `BlockKinds.RuleLaw` | packages/mdock-editor/src/core/splitters/blockSplitter.ts:237-241 | Three or more of one mark make a thematic break, where no earlier kind fits |
| `BlockKinds.UnderlinedLaw` | packages/mdock-editor/src/core/splitters/blockSplitter.ts:230-235 | A line before an underline makes a heading, where no earlier kind fits |
| `BlockKinds.OtherwiseParagraph` | packages/mdock-editor/src/core/splitters/blockSplitter.ts:243-250 | Any other line with text begins a paragraph |
| `LineShapes.FenceExact` | packages/mdock-editor/src/core/splitters/blockSplitter.ts:27-29 | A line is a fence exactly if it is up to three characters of white space, the mark and the rest, as in the regular expression |
| `LineShapes.AtxExact` | packages/mdock-editor/src/core/splitters/blockSplitter.ts:34-36 | The same for headings with `#` |
| `LineShapes.UnderlineExact` | packages/mdock-editor/src/core/splitters/blockSplitter.ts:41-43 | The same for underlines of headings |
| `LineShapes.RuleExact` | packages/mdock-editor/src/core/splitters/blockSplitter.ts:48-50 | The same for thematic breaks |
| `LineShapes.QuoteExact` | packages/mdock-editor/src/core/splitters/blockSplitter.ts:55-57 | The same for quote lines |
| `LineShapes.ItemExact` | packages/mdock-editor/src/core/splitters/blockSplitter.ts:62-64 | The same for list items |
| `LineShapes.ContinuationExact` | packages/mdock-editor/src/core/splitters/blockSplitter.ts:69-71 | The same for list continuations |
| `LineShapes.BlankExact` | packages/mdock-editor/src/core/splitters/blockSplitter.ts:20-22 | The same for blank lines, white space being that of ECMAScript by code point |
| `TableShapes.RowExact` | packages/mdock-editor/src/core/splitters/blockSplitter.ts:87-89 | The same for table rows |
| `TableShapes.DelimiterExact` | packages/mdock-editor/src/core/splitters/blockSplitter.ts:94-96 | The same for the delimiter lines of tables: cells between bars, an optional bar at either end |
| `BlockScan.Resplit` | packages/mdock-editor/src/core/splitters/blockSplitter.ts:101-254 | For every document and every block, splitting the block's own lines gives one block of the same kind over all of them; the only exception is a heading of two lines of three dashes |
| `BlockScan.ResplitException` | packages/mdock-editor/src/core/splitters/blockSplitter.ts:167-173 | The exception is real: such a heading, alone, is frontmatter |
| `BlockSplitter.LineStarts` | packages/mdock-editor/src/core/splitters/blockSplitter.ts:156-161 | The offsets loop computes where each line starts |
| `BlockSplitter.TrimTrailingBlank` | packages/mdock-editor/src/core/splitters/blockSplitter.ts:128-134 | The loop finds the last line that is not blank |
| `BlockSplitter.RunOver` | packages/mdock-editor/src/core/splitters/blockSplitter.ts:186-248 | Each of the five inner loops stops at the first line its branch does not take |
| `BlockSplitter.FindFrontmatter` | packages/mdock-editor/src/core/splitters/blockSplitter.ts:167-173 | Finds the closing fence of the frontmatter |
| `BlockSplitter.NextBlock` | packages/mdock-editor/src/core/splitters/blockSplitter.ts:184-222 | Code, table, list and quote branches: kind, last line and where the scan goes on |
| `BlockSplitter.NextPlainBlock` | packages/mdock-editor/src/core/splitters/blockSplitter.ts:224-250 | Heading, break and paragraph branches likewise |
| `BlockSplitter.Scanned` | packages/mdock-editor/src/core/splitters/blockSplitter.ts:175-251 | The main loop yields exactly the blocks of the recursive scan |
| `BlockSplitter.SplitBlocks` | packages/mdock-editor/src/core/splitters/blockSplitter.ts:154-254 | The whole splitter yields exactly the specified blocks |
| `BlockSplitter.SplitCache.GetSplitBlocks` | packages/mdock-editor/src/core/splitters/blockSplitter.ts:270-277 | The cache never shows: always the blocks of the given text |
| `BlockTiling.BlocksTile` | packages/mdock-editor/src/core/splitters/blockSplitter.ts:118-254 | The blocks tile the text from the first line that is not blank to its end, each block's markdown is its slice, and what follows it up to the next block is white space |
| `BlockTiling.FrontmatterFromZero` | packages/mdock-editor/src/core/splitters/blockSplitter.ts:167-173 | A document with frontmatter is covered from its first character |
| `BlockTiling.ResplitMarkdown` | packages/mdock-editor/src/core/splitters/blockSplitter.ts:101-254 | Splitting a block's markdown gives that one block over the whole of it, except `---\n---` as a heading |
| `BlockTiling.BuildDecorations` | web/src/features/editor/livePreviewExtension.js:136-168 | One widget over the whole document without an active block; else the loop yields source, hidden separator and widget pieces as specified, through the cache |
| `BlockTiling.DecorationsShowOnce` | web/src/features/editor/livePreviewExtension.js:136-168 | Every position, with a block active from the first block on, is shown by exactly one piece |
| `ActiveBlocks.ActiveExact` | packages/mdock-editor/src/core/splitters/blockSplitter.ts:291-301 | A block is active exactly if some position is in its source and in the active range |
| `ActiveBlocks.OneBlockActive` | web/src/features/editor/livePreviewExtension.js:150-165 | With the source of one block as the active range exactly this block is shown as source and every other one as a widget |
| `BlockTiling.BlockAtPosition` | web/src/features/editor/livePreviewExtension.js:568-571 | The block whose range has the position, the last block for other positions, none for a text without blocks |
| `TextDiff.ComputeChanges` | packages/mdock-editor/src/core/extensions/headingRefs.ts:259-285 | No change for equal texts, else one replacement that yields the new text and deletes and inserts no more than any other that does |
| `TextDiff.CommonSuffix` | packages/mdock-editor/src/core/extensions/headingRefs.ts:272-278 | The suffix loop keeps clear of the prefix and stops at the first difference |
| `TextDiff.EditIsMinimal` | packages/mdock-editor/src/core/extensions/headingRefs.ts:280-284 | Any replacement that yields the new text deletes and inserts at least as many characters |
| `LineEdits.AfterEdit` | web/src/features/editor/markdownActions.js:185-238 | A line edit, whatever lines it puts in, changes the selected lines only; it selects what it wrote exactly unless the text then begins with a newline |
| `LineEdits.OnlySelectedLinesChange` | web/src/features/editor/markdownActions.js:60-91 | Indent, outdent and the ordered list toggle change nothing outside the selected lines |
| `LineEditLaws.SelectedExact` | web/src/features/editor/markdownActions.js:185-191 | The lines edited are those the selection touches, and no others; only an empty first line is left out of a selection that begins with it |
| `LineEditLaws.IndentLaw` | web/src/features/editor/markdownActions.js:85-87 | Indenting puts two spaces before every selected line that is not empty |
| `LineEditLaws.OutdentLaw` | web/src/features/editor/markdownActions.js:89-91 | Outdenting takes one or two leading spaces or one tab from a line |
| `LineEditLaws.BulletExact` | web/src/features/editor/markdownActions.js:266-268 | The lines with a bullet are those with white space, one of three marks and white space again |
| `LineEditLaws.NumberExact` | web/src/features/editor/markdownActions.js:63-66 | The numbered lines are those with white space, digits, a dot or parenthesis and white space again |
| `LineEditLaws.NumberLaw` | web/src/features/editor/markdownActions.js:60-71 | The toggle gives the line at index i that is not blank the number i + 1, a dot and a space after its indentation |
| `LineEditLaws.NumberBullet` | web/src/features/editor/markdownActions.js:266-268 | ... in place of a bullet |
| `LineEditLaws.NumberAnew` | web/src/features/editor/markdownActions.js:266-268 | ... or of another number, when not every line has one |
| `LineEditLaws.UnnumberLaw` | web/src/features/editor/markdownActions.js:66-66 | ... and takes number, mark and white space off again |
| `LineEditLaws.ToggleLaw` | web/src/features/editor/markdownActions.js:60-71 | Blank lines stay, and numbers are taken off exactly if every line that is not blank has one |
| `LineEdits.OutdentUndoesIndent` | web/src/features/editor/markdownActions.js:85-91 | Outdent after indent restores the text exactly unless the caret stands before a newline that begins the text |
| `LineEdits.ToggleTwice` | web/src/features/editor/markdownActions.js:60-71 | The ordered list toggled twice restores a selection without list prefixes, with the same exception |
| `LineEdits.EdgeDuplicates` | web/src/features/editor/markdownActions.js:185-191 | The exception: there the edit adds a newline to the text |
| `ImportPaths.UniquePath` | web/src/features/files/VaultFilesPanel.jsx:1053-1067 | Ends within as many tries as there are used paths, with a free path: the desired one or the candidate with the least free counter |
| `ImportPaths.CandidateInjective` | web/src/features/files/VaultFilesPanel.jsx:1061-1064 | Different counters give different candidates |
| `ImportDirectories.CandidateDirectory` | web/src/features/files/VaultFilesPanel.jsx:1057-1064 | A candidate is in the directory of its path exactly if the last dot comes after the last slash or there is no extension |
| `ImportDirectories.CandidateIsFree` | web/src/features/files/VaultFilesPanel.jsx:533-547 | So where the listing has every path of the directory, such a candidate is a path at which there is nothing |
| `ImportDirectories.ExtensionExact` | web/src/features/files/VaultFilesPanel.jsx:1057-1064 | The extension begins at the last dot that is not the first character; without such a dot there is none |
| `ImportDirectories.CandidateExact` | web/src/features/files/VaultFilesPanel.jsx:1057-1064 | The candidate puts a space, the counter in brackets and nothing else between the rest of the path and its extension |
| `ImportDirectories.ItemsAreStored` | web/src/features/files/VaultFilesPanel.jsx:496-531 | What a completed import stores for an item is stored at its own path or at a candidate of it, and with its own content |
| `ImportPaths.RunImport` | web/src/features/files/VaultFilesPanel.jsx:496-531 | Under every policy, and up to any failing request, the items that are to be kept are stored one by one in order; a completed run has stored all of them and counted every item once, as renamed exactly those stored under another path than their own |
| `ImportPaths.ImportNeverCollides` | web/src/features/files/VaultFilesPanel.jsx:496-531 | Under rename and skip the written paths are pairwise distinct and none is in the listing read before, see ImportDirectories.CandidateIsFree |
| `ImportPaths.CreatesOnlyFreePaths` | web/src/features/files/VaultFilesPanel.jsx:522-525 | Under every policy a file is created only where the listing and the import so far have nothing |
| `PageIndex.Store.UpsertPageIndex` | internal/store/store.go:741-803 | One transaction: both tables get the row, under the old row id or a new one, or neither changes |
| `PageIndex.Store.DeletePageIndex` | internal/store/store.go:806-842 | One transaction: both tables lose the row or neither changes; a missing row is no error, an empty slug or path is |
| `PageIndex.Store.GetPageIndex` | internal/store/store.go:845-886 | The row of the page, none for a missing one, an error for an empty slug or path |
| `PageIndex.UpsertKeepsMirror` | internal/store/store.go:790-800 | The full-text table stays exactly the pages' columns by row id, also when a deleted row's id is used again |
| `PageIndex.DeleteKeepsMirror` | internal/store/store.go:829-839 | Deleting keeps the two tables mirrored |
| `PageSync.Vaults.UpdatePageIndex` | internal/app/service.go:855-885 | Read, text test, hash shortcut and upsert, with a failure at any of them; tables and answer in every case |
| `PageSync.Vaults.UpdatePageIndexPath` | internal/app/service.go:926-940 | The page row moves, is only deleted, or stays, depending on which statement fails; tables and answer in every case |
| `PageSync.Vaults.WriteTextFile` | internal/app/service.go:586-608 | A refused write changes nothing, a done one puts exactly the content at exactly the path, a broken one leaves the index alone; the index after it; and the answer, with a failure of the git queue or of the final look at the file, as a request that runs alone |
| `PageSync.Vaults.CreateTextFile` | internal/app/service.go:610-635 | On an occupied path, or refused, a creation is answered with an error and changes neither files nor index; on a free path it puts exactly the content there, as a request that runs alone |
| `PageSync.Vaults.MovePath` | internal/app/service.go:657-690 | A move onto an occupied path, from nothing, into itself or refused changes neither files nor index; otherwise the tree, the index and the answer after it, as a request that runs alone |
| `PageSync.Vaults.DeletePath` | internal/app/service.go:710-728 | A refused delete changes nothing; otherwise exactly the file or what is below the directory is gone, with the index and the answer, as a request that runs alone |
| `PageSync.RunSound` | internal/app/service.go:586-940 | Over any run of requests one after the other, with any failures, the two tables mirror each other and every row is the page and the hash of one and the same text |
| `PageSync.UpdateSyncs` | internal/app/service.go:866-884 | A faultless update brings its path into agreement exactly unless the file is gone and a page is left; the hash shortcut is sound |
| `PageSync.MovedAt` | internal/vault/path.go:235-260 | A rename puts at every path exactly the file that was there under the old name |
| `PageSync.ExistsExact` | internal/app/service.go:615-617 | A path is occupied exactly if a file is there or below it |
| `PageSync.StepExact` | internal/app/service.go:586-728 | From an index in agreement with the files a faultless operation that runs alone keeps it so exactly unless it removes or renames a directory that holds text files |
| `PageSync.RunInSync` | internal/app/service.go:586-728 | Over any run of such operations, one after the other, the index has exactly the pages of the text files |
| `PageSync.WriteHeals` | internal/app/service.go:586-635 | After any failures one faultless write that runs alone brings its path into agreement, and it stays so until that path is touched again |
| `PageSync.DirectoryRenameStrands` | internal/app/service.go:681-684 | Renaming a directory that holds one note loses the note's page |
| `PageSync.SearchExact` | internal/store/store.go:942-992 | The search join finds a page exactly when the vault has that text file and its metadata matches, and returns nothing stale |
| `PageFlights.SoundAlways` | internal/app/service.go:586-940 | However requests overlap, statement by statement, and whatever fails, the two tables mirror each other and every row is one text's page and hash |
| `PageFlights.InvStep` | internal/app/service.go:586-940 | Each step of overlapping requests that respects the given paths keeps, for each of them, agreement or a request that still sees to it |
| `PageFlights.RequestsAgree` | internal/app/service.go:586-940 | With any number of requests at once a path that no request is on any more agrees, if no file changed while a request held what it had seen of it, no request failed and no directory of text files was moved or removed |
| `PageFlights.IndexAgrees` | internal/app/service.go:586-940 | Under that condition the index has exactly the pages of the text files whenever all requests have ended |
| `PageFlights.WriteHealsAmong` | internal/app/service.go:586-608 | After any failures a write that begins while no request holds anything of its path brings the path into agreement, among any other requests |
| `PageFlights.LastStepExact` | internal/app/service.go:862-884 | The last statement of a request leaves its path in agreement exactly if what the request holds is still so |
| `PageFlights.RestExact` | internal/app/service.go:855-940 | The rest of a request, a move included, with nobody in between, leaves a path in agreement exactly if what it holds leads there to the page of the file as it is now |
| `PageFlights.OverlapExact` | internal/app/service.go:591-599 | When a file is written while another request, a move included, is on its path, the index agrees there whenever the writer ends last, and when it ends first exactly if what the other holds leads to the new page |
| `PageFlights.StalePage` | internal/app/service.go:591-599 | The condition is needed: of two writes at once the slower one stores the page of bytes that are gone |
| `PageFlights.PageOutlivesFile` | internal/app/service.go:710-723 | And a write overtaken by a removal leaves a page without its file |
| `PageFlights.AloneIsStep` | internal/app/service.go:586-728 | The whole operations of the class are these requests with nobody in between |
| `PageFlights.FinishRuns` | internal/app/service.go:855-940 | And such a request is a run of the system |
| `RateLimiter.RateLimiter.constructor` | internal/security/ratelimit.go:22-35 | Limit 20 and one minute stand in for values that are not positive |
| `RateLimiter.RateLimiter.Cleanup` | internal/security/ratelimit.go:83-89 | The loop keeps exactly the entries whose window ended no longer ago than its length and that were used within two windows |
| `RateLimiter.RateLimiter.Allow` | internal/security/ratelimit.go:37-53 | Answer and new entries, with cleanup first |
| `RateLimiter.RateLimiter.RecordFailure` | internal/security/ratelimit.go:55-72 | Opens a window or counts in the open one |
| `RateLimiter.RateLimiter.Reset` | internal/security/ratelimit.go:74-81 | Forgets the key |
| `RateLimiter.SimulationStep` | internal/security/ratelimit.go:37-89 | One call keeps the limiter in step with one that never deletes an entry by itself |
| `RateLimiter.CleanupIsInvisible` | internal/security/ratelimit.go:37-89 | Under a clock that does not run backwards cleanup changes no answer of any sequence of calls |
| `RateLimiter.NewLimiterCleanupIsInvisible` | internal/security/ratelimit.go:22-89 | In particular from a new limiter on |
| `LimiterKeys.KeysAreIndependent` | internal/security/ratelimit.go:37-81 | Keys do not disturb each other: among any calls under other keys the answers under one key are those of a limiter that sees its calls only; the empty key counts as unknown |
| `LimiterKeys.AllowsExactly` | internal/security/ratelimit.go:37-72 | After failures within one window of the first a key is allowed exactly while there are fewer than the limit or once that window is over |
| `LimiterKeys.ResetStartsOver` | internal/security/ratelimit.go:74-81 | After a reset of a key the limiter answers under it as if it were new |
| `RateLimiter.FailuresSpread` | internal/security/ratelimit.go:37-72 | Where windows take at most `cap` failures each, any 2*cap failures of a key in a row span more than a window |
| `RateLimiter.AtMostTwiceTheLimit` | internal/security/ratelimit.go:37-72 | While no second ask of a key is allowed before the first has failed or given up, a key that is never reset records at most 2*limit failures in any closed interval as long as the window |
| `RateLimiter.FailuresBounded` | internal/security/ratelimit.go:37-72 | With at most m allowed asks of the key outstanding at once, whatever happens under other keys in between, fewer than 2*(limit + m - 1) |
| `RateLimiter.BoundReached` | internal/webdav/handler.go:161-169 | For every limit, window and m a run that records exactly one less than that |
| `RateLimiter.BoundExact` | internal/security/ratelimit.go:37-72 | The bounds that hold of all runs with m outstanding asks are exactly those from 2*(limit + m - 1) - 1 on |
| `RateLimiter.TwiceTheLimitExact` | internal/httpapi/auth.go:72-78 | Twice the limit bounds all runs exactly when no second ask of the key is allowed between an allowed ask and its failure |
| `RateLimiter.ThreeAtOnce` | internal/webdav/handler.go:161-169 | Three callers at once get three failures through a limit of one |

## Left out

- Queues without a database or vault: `Queue` is modelled with both, as the service creates it.
- The commit message text; only the file and source counts that go into it are modelled.
- What preparing a vault's directory, repository and branch does at startup; only that it may fail.
- RateLimiter.BoundExact: is about keys that are never reset; a successful login resets its key.
- The failure of reading the pending rows half-way is the same failure as that of the query.
- `git push`, tags, log and commit details: plain calls of git.
- GitRuns.CloseDrains: says nothing about flushes that fail after Close, because their snapshot is given back and no timer is armed for it any more.
- Instants.StampOrder: is stated for years up to 9999, because the format has four year digits.
- Leases.LockService.ActiveUnder: the answer is a set, not a list sorted by path, because callers only ask whether it is empty.
- LeaseRuns.HeldUnlessOverdue: takes a single SQL statement as one step and the clock readings of all calls to be in earlier seconds than the lease's last one.
- The column `heartbeat_at`, which no code reads, and rows whose expiry cannot be parsed, which no code writes.
- MutationLocks.WebFrame: is about operations that nobody breaks into, see WebRunsUnderLock, and in which a lease found at the check has ended or outlasts the operation.
- MutationLocks.MayMoveExact: is about the moment of the query; a lease taken after it does not stop the move.
- Lock tokens of WebDAV requests: header parsing (`requestLockToken`, `cleanLockToken`) is not part of this model.
- Reopening an editor session while a heartbeat of its earlier period is unanswered: `EditorSession` starts a period only when the one before is over, and in `SessionLease` no upsert or heartbeat of an earlier period comes in late (a late release does).
- Failures of the session's own calls in `SessionLease`, except that a heartbeat may find its row gone.
- Drafts, conflict errors and the release request that `close` sends: only whether it is sent is modelled.
- Symbolic links in `Resolve` depend on the operating system; only the lexical checks are modelled.
- Paths of other systems than those with `/` as separator, and relative vault roots, which the service makes absolute.
- The router's own cleaning of request paths before the WebDAV handler is not part of this model.
- UTF-16 code units of JavaScript strings are modelled as characters.
- The random `blockId` of the TypeScript copy of the splitter and the time stamp of its cache.
- BlockTiling.BuildDecorations: leaves out the classes of the active block's lines; click handling is not modelled.
- Mapping an active block through document changes (CodeMirror).
- ImportPaths.ImportNeverCollides: is relative to the paths that were listed before the import; ImportDirectories.CandidateIsFree says when that is enough.
- Reading the existing paths before an import, and reloading directories during it, except that either request of an item may fail.
- Ranking, tokenising and the limit of a search, and the column `updated_at`.
- PageSync.WriteHeals: covers writes and creations that run alone; PageFlights.WriteHealsAmong covers them among other requests. An update of a path whose file is gone leaves its page, see PageSync.UpdateSyncs.
- PageSync.RunInSync: is about requests one after the other; overlapping ones are the subject of PageFlights.
- PageFlights.RequestsAgree: its condition is sufficient; the exact one is PageFlights.OverlapExact for two requests and PageFlights.LastStepExact for a last statement, not for every interleaving of many.
- Empty directories in `PageSync`: a move of one is an argument of the operation, other effects of them are refusals.
- The directory walk of `ReindexVault`: each file it visits is one `Update` in `PageSync`.
- A delete that removes only part of a directory before it fails.
- Users, sessions, migrations, backups, HTTP plumbing, user interface texts: no hard properties.
- Wikilink rewriting, inline marks and the other toolbar actions: no clean law to state.
