# The bpftime benchmarks, verified

This project models the parts of the bpftime benchmark tree that hold real state or a
real algorithm, and proves what they are for.

* **FUSE directory cache** (`FsCache`, `FdTable`, `DirListing`, `DirLoops`). The class
  `FsCache.DirectoryCache` holds the five shared hash maps; each method is one tracepoint
  handler, proved equal to a specification function on the value of the maps. On these
  functions stand three state machines whose steps are single handlers and single kernel
  actions, so that their runs are all the interleavings of any number of processes and
  threads: the shadow descriptor table, arbitrary `getdents64` calls, and listing loops.
* **Redis durability over io_uring** (`IoUring`, `BatchSync`, `FastNotify`, `DelayedFsync`).
  The ring holds queued requests, requests in flight and unread completions; requests in
  flight complete in any order, and an fsync makes durable only the writes that had
  reached the file when it was submitted. A run is a sequence of single steps, a crash may
  come after any of them. The handler classes carry the run they have taken as ghost state.
* **Process trees** (`ProcessTable`, `ProcessSearch`, `SafePids`). The breadth-first search for the traced
  child, and the set of processes the cleanup must spare.
* **DeepFlow results** (`Text`, `ResultTable`, `Moments`, `Collector`). The printed table
  and its parser, the one-pass statistics and the two aggregators; `Victim` is the printer
  and parser of the uprobe timings, with the same moments.
* **Run accounting** (`RunStats`, `SslRuns`, `SslOutcomes`, `SyscountRuns`). The counters, stored rates
  and trace summaries of the nginx drivers. Every external command is an input that may
  succeed, fail, time out or raise, in the loops and in their cleanup.

Classes and loops stand where the source updates state in place; the specification
functions beside them carry the theorems.

## What the proofs found

* The descriptor table follows the history of opens and closes in every interleaving
  (`FdTable.DirFdMapFollowsHistory`). Against the kernel's own table there are two races on one
  descriptor number: a close that begins while an open is about to return the number, and an open
  that is given a number which a close is still naming. As long as the maps have room, the table
  refines the kernel's at every step, whatever race-free steps follow, exactly if the run has
  neither (`FdTable.RefinesExactlyIfRaceFree`); such runs exist (`FdTable.RacingRun`).
* A descriptor is tracked under the name that was read, which is the caller's exactly if it has at
  most 254 bytes, and under no directory at all: two descriptors share a path, and with it a
  listing, exactly if those bytes agree (`FdTable.TrackedByNameRead`, `FdTable.PathSharedIff`).
* The cache can tell the end of a directory to a thread that was never handed a byte, exactly if
  the call that filled the entry returned 0 (`DirListing.EndUnreadIffFilledWithNothing`). A
  descriptor that stands at its end does that to a directory with entries, and from then on every
  thread sees it empty (`DirListing.FilledWithNothing`, `DirLoops.UnrewoundEmptiesThePath`).
* Cache transparency needs its conditions. A loop has to start on a fresh or rewound descriptor
  (`DirLoops.UnrewoundIsListedAgain`), two overlapping loops on a path can hand each
  other the listing for ever (`DirLoops.OverlappingLoopsStarve`), a thread that stops early is
  told the end at once when it comes back (`DirLoops.AbandonedLoopTruncatesNext`), and equal
  relative names in different directories share an entry (`DirLoops.RelativeNamesShareAnEntry`).
  It does not need non-empty directories nor maps below their capacity.
* Batching with a `patch_size` below 1024 loses at most `patch_size + 1` acknowledged writes,
  and for every `patch_size` some run loses so many. From 1024 on the first flush never ends
  (`BatchSync.OverfullFlushNeverEnds`).
* Delayed fsync keeps the promise of `benchmark/redis-durability-tuning/README.md` (at most two
  updates lost) after `start_config`; without it the first fdatasync never returns.
* That README describes `fsync-fast-notify` as reading a shared counter of completed syncs; the
  code is the plain synchronous form, and the model follows the code.
* The descendant search ends exactly if something matches or the descendants of the root have no
  cycle (`ProcessSearch.Ends`); with unique pids the only possible cycle leads through the root.
* A printed size below 1024 bytes is read back in bytes although larger ones come back in KB;
  `ResultTable.Read` states this.
* The victim parser strips the output before it looks for "Benchmarking", so that an indented
  first line can be taken for a block. The output is read back exactly if that does not happen, or
  if the next line is another line with a time in its fourth field and a later block has the name
  (`Victim.VictimRoundTrip`).
* The retry accounting of the ssl driver holds exactly if the number of retries is not negative:
  with a negative one no attempt is made at all.
* A syscount run may be counted nowhere: when it is skipped, or when its rate was measured and
  its log could not be read (`SyscountRuns.OneRunCounts`).

## Model

| member | source | states |
|---|---|---|
| `FsCache.PfdKeyInjective` | benchmark/fuse/bpf/fs-cache.bpf.c:21-24 | two descriptors share a key exactly if pid and fd are equal, for all 32-bit pids and fds |
| `FsCache.CloseKeyHitsOnlyItsOwn` | benchmark/fuse/bpf/fs-cache.bpf.c:63-68 | the sign-extended key of a close is the key of a real descriptor exactly if it is that descriptor's own |
| `FsCache.PidOfThread` | benchmark/fuse/bpf/fs-cache.bpf.c:46-46 | the process number of a thread id is its upper half |
| `FsCache.Keys` | benchmark/fuse/bpf/fs-cache.bpf.c:21-68 | what the keys are, for descriptors and for the negative numbers a close may name |
| `FsCache.DeniedIffFilterMatches` | benchmark/fuse/bpf/fs-cache.bpf.c:93-106 | for every filter entry and every length in it, exactly which names are denied: those that begin with so many bytes of it, or its own name alone if it is shorter |
| `FsCache.OpenatDisagreesIff` | benchmark/fuse/bpf/fs-cache.bpf.c:129-163 | open filters the caller's name and openat the name it has read: exactly on which names they disagree |
| `FsCache.DeniedIffFiltered` | benchmark/fuse/bpf/fs-cache.bpf.c:93-106 | a name is denied exactly if the filter of its user has no different character in it up to its length, ends of strings included |
| `FsCache.OpenDeniedExactly` | benchmark/fuse/bpf/fs-cache.bpf.c:87-117 | open returns -1 and changes no map exactly if the caller's name is filtered for the user; otherwise it goes on and leaves just its thread's entry with the name read, unless the map is full |
| `FsCache.OpenatDeniedExactly` | benchmark/fuse/bpf/fs-cache.bpf.c:121-166 | openat returns -1 and changes no map exactly if it is relative to the working directory or a tracked descriptor and the name read is filtered for the user; otherwise as open |
| `FsCache.GetdentsLeavesAlone` | benchmark/fuse/bpf/fs-cache.bpf.c:236-340 | what getdents64 leaves unchanged: everything for untracked descriptors, everything but the thread's arguments on an uncached path, and every entry but one otherwise; and when nothing is filled |
| `FsCache.DirectoryCache.constructor` | benchmark/fuse/bpf/fs-cache.bpf.c:31-85 | all maps empty but for the given filter |
| `FsCache.DirectoryCache.SysEnterOpen` | benchmark/fuse/bpf/fs-cache.bpf.c:87-117 | a denied name returns -1 and changes nothing; otherwise only the thread's arguments are recorded |
| `FsCache.DirectoryCache.SysEnterOpenat` | benchmark/fuse/bpf/fs-cache.bpf.c:121-166 | the filter applies only below the working directory or a tracked descriptor; everything else is recorded |
| `FsCache.DirectoryCache.TraceExit` | benchmark/fuse/bpf/fs-cache.bpf.c:168-200 | a successful open with recorded arguments enters its descriptor under the absolute path, unless the map is full |
| `FsCache.DirectoryCache.SysEnterClose` | benchmark/fuse/bpf/fs-cache.bpf.c:202-209 | removes the entry of the closed descriptor and no other |
| `FsCache.DirectoryCache.SysEnterGetdents64` | benchmark/fuse/bpf/fs-cache.bpf.c:236-279 | a cached path is answered by its listing, or by 0 to the thread that had it last, which is forgotten then; other tracked calls record their arguments |
| `FsCache.DirectoryCache.SysExitGetdents64` | benchmark/fuse/bpf/fs-cache.bpf.c:281-340 | fills the entry of a path once, with the caller's buffer, length and thread |
| `FdTable.HistoryStep` | benchmark/fuse/bpf/fs-cache.bpf.c:87-209 | every handler and kernel step keeps the correspondence of map and history, and of recorded arguments with the call that is under way |
| `FdTable.HistoryInvKept` | benchmark/fuse/bpf/fs-cache.bpf.c:87-209 | the same along every run |
| `FdTable.DirFdMapFollowsHistory` | benchmark/fuse/bpf/fs-cache.bpf.c:31-68 | in every interleaving in which no entry was refused, dir_fd_map is exactly the table of descriptors opened and not since closed, each under the path of its own call's name as read; denied calls and left-over arguments never show |
| `FdTable.FilteredNeverOpened` | benchmark/fuse/bpf/fs-cache.bpf.c:87-166 | in every interleaving the kernel has no descriptor that was requested relative to the working directory by a name filtered for its user, and none is tracked |
| `FdTable.SingleClaimStep` | benchmark/fuse/bpf/fs-cache.bpf.c:168-209 | race-free steps keep every number that an open is about to return free of other calls |
| `FdTable.TableStep` | benchmark/fuse/bpf/fs-cache.bpf.c:168-209 | the history table stays equal to the kernel's descriptors that are at rest |
| `FdTable.WorldStep` | benchmark/fuse/bpf/fs-cache.bpf.c:168-209 | every race-free step keeps the invariant of the kernel side |
| `FdTable.SubTableStep` | benchmark/fuse/bpf/fs-cache.bpf.c:168-209 | tracked descriptors stay within the table under every step, even when full maps refuse entries |
| `FdTable.KernelInvKept` | benchmark/fuse/bpf/fs-cache.bpf.c:87-209 | the invariants hold along every race-free run |
| `FdTable.DirFdMapRefinesKernel` | benchmark/fuse/bpf/fs-cache.bpf.c:31-68 | in every race-free interleaving each tracked descriptor is open in the kernel by a request whose name, as read, gives the tracked path, with no call under way on it; and if nothing was refused every descriptor at rest is tracked |
| `FdTable.OvertakenOpenGoesStale` | benchmark/fuse/bpf/fs-cache.bpf.c:168-209 | with a close under way on a number that an open is about to return, race-free steps lead to an entry of a descriptor that the kernel no longer has |
| `FdTable.RacingClose` | benchmark/fuse/bpf/fs-cache.bpf.c:202-209 | the same after a close begins on a number that an open is about to return |
| `FdTable.RacingOpen` | benchmark/fuse/bpf/fs-cache.bpf.c:168-188 | the same after an open is given a number that a close is still naming |
| `FdTable.RefinesExactlyIfRaceFree` | benchmark/fuse/bpf/fs-cache.bpf.c:31-209 | for every run from the start with room in the maps: dir_fd_map refines the kernel's table at every step, whatever race-free steps follow, if and only if the run is race-free |
| `FdTable.RacingRun` | benchmark/fuse/bpf/fs-cache.bpf.c:168-209 | from every initial state some run has a race, and does not refine |
| `FdTable.TrackedByNameRead` | benchmark/fuse/bpf/fs-cache.bpf.c:127-141 | an openat with any name, relative to any directory, is tracked under the name read alone, which is the caller's exactly if it has at most 254 bytes |
| `FdTable.PathSharedIff` | benchmark/fuse/bpf/fs-cache.bpf.c:127-185 | where the kernel's table is refined and absolute paths tell the names apart, two tracked descriptors share a path exactly if the first 254 bytes of their names agree, whatever their directories |
| `DirListing.LogStep` | benchmark/fuse/bpf/fs-cache.bpf.c:256-276 | one overridden call keeps last_pid_tgid equal to the last thread that was handed the listing |
| `DirListing.EnterStep` | benchmark/fuse/bpf/fs-cache.bpf.c:236-279 | the enter handler keeps the invariant of every path |
| `DirListing.ExitStep` | benchmark/fuse/bpf/fs-cache.bpf.c:281-340 | the exit handler keeps the invariant of every path |
| `DirListing.InvKept` | benchmark/fuse/bpf/fs-cache.bpf.c:236-340 | the invariant holds along every run |
| `DirListing.EndOfDirectorySafety` | benchmark/fuse/bpf/fs-cache.bpf.c:256-276 | under every interleaving, unless the filling call returned 0, a thread is told the end only if its last answer there was the whole listing and nobody was handed it since |
| `DirListing.EndExactlyForLastReader` | benchmark/fuse/bpf/fs-cache.bpf.c:256-276 | a cached path is always answered, and unless the filling call returned 0, by 0 exactly for the last thread that was handed the listing |
| `DirListing.EndUnreadIffFilledWithNothing` | benchmark/fuse/bpf/fs-cache.bpf.c:256-276 | the cache tells the end to a thread that was never handed a byte exactly if the filling call returned 0 and there was a later answer; then all answers are 0 |
| `DirListing.FilledWithNothing` | benchmark/fuse/bpf/fs-cache.bpf.c:281-340 | from every initial state with two threads on one path there is such a run, whatever the directory contains |
| `DirListing.ListingHandedOn` | benchmark/fuse/bpf/fs-cache.bpf.c:256-340 | a call that went into the kernel and returned any length, listings longer than the array included, is answered from the cache ever after, by that length and the first 2048 bytes as far as they fit, in every run |
| `DirListing.NextReaderHasTheListing` | benchmark/fuse/bpf/fs-cache.bpf.c:256-340 | the next call by another thread is overridden with exactly that length and those bytes |
| `DirListing.CachedListingIsFrozen` | benchmark/fuse/bpf/fs-cache.bpf.c:305-339 | bytes and length of a cached listing never change, in any run |
| `DirLoops.EnterAnswer` | benchmark/fuse/bpf/fs-cache.bpf.c:256-276 | an overridden call delivers the directory's bytes to a loop that has none, and nothing to one that has |
| `DirLoops.ExitEntry` | benchmark/fuse/bpf/fs-cache.bpf.c:281-340 | after the exit handler the entry, if there is one, is the directory's listing and belongs to the looping thread |
| `DirLoops.InvStep` | benchmark/fuse/bpf/fs-cache.bpf.c:236-340 | every step keeps: last_pid_tgid is 0 between loops on a path and the looping thread inside one |
| `DirLoops.InvKept` | benchmark/fuse/bpf/fs-cache.bpf.c:236-340 | the same along every run |
| `DirLoops.CacheTransparency` | benchmark/fuse/bpf/fs-cache.bpf.c:236-340 | every loop that starts on a fresh or rewound descriptor and ends, cold or warm, by any thread, received exactly the directory's bytes once and then 0, as without the cache |
| `DirLoops.LoopsEnd` | benchmark/fuse/bpf/fs-cache.bpf.c:256-276 | a loop under way has had at most one answer, and then all of the directory |
| `DirLoops.OverlappingLoopsStarve` | benchmark/fuse/bpf/fs-cache.bpf.c:256-276 | two threads that call in turn on a cached path get the whole listing each time, however often they call |
| `DirLoops.AbandonedLoopTruncatesNext` | benchmark/fuse/bpf/fs-cache.bpf.c:256-276 | a thread that stops after the listing is told 0 by its next call on the path, through any descriptor |
| `DirLoops.UnrewoundIsListedAgain` | benchmark/fuse/bpf/fs-cache.bpf.c:256-276 | on a descriptor at its end, where the kernel answers 0, a warm path is delivered once more |
| `DirLoops.UnrewoundEmptiesThePath` | benchmark/fuse/bpf/fs-cache.bpf.c:281-340 | and on a cold path the kernel's 0 is cached, so that every thread is told the end at once |
| `DirLoops.DeliveredWholeIffItFits` | benchmark/fuse/bpf/fs-cache.bpf.c:271-273 | an answer is whole exactly if the listing fits both the cached array and the caller's count |
| `DirLoops.RelativeNamesShareAnEntry` | benchmark/fuse/bpf/fs-cache.bpf.c:133-145 | the path of a descriptor does not depend on the directory its openat was relative to |
| `IoUring.HalfAreWrites` | benchmark/redis-durability-tuning/batch_process/redis.bpf.c:26-63 | in any stretch of alternating write and fsync calls, the number of writes from its length and ends |
| `BatchSync.SubmitEntries` | benchmark/redis-durability-tuning/batch_process/redis.bpf.c:35-35 | submission puts exactly the calls since the last flush in flight |
| `BatchSync.InvStep` | benchmark/redis-durability-tuning/batch_process/redis.bpf.c:23-63 | every single step keeps the invariant |
| `BatchSync.InvKept` | benchmark/redis-durability-tuning/batch_process/redis.bpf.c:23-63 | at every step of every run: flushed calls, a multiple of patch_size + 1, followed by the pending ones are the call history; current_count is the number pending; the file has the writes in order of their batches; exactly the writes with a completed fsync in a later batch are durable |
| `BatchSync.OldWritesAreDurable` | benchmark/redis-durability-tuning/batch_process/redis.bpf.c:32-40 | a write more than one batch older than the last flush is durable |
| `BatchSync.LossBound` | benchmark/redis-durability-tuning/batch_process/redis.bpf.c:23-63 | a crash at any step of any alternating run, with any completion order, loses at most patch_size + 1 acknowledged writes |
| `BatchSync.LossBoundIsTight` | benchmark/redis-durability-tuning/batch_process/redis.bpf.c:23-63 | after one flush and one call short of the next, exactly so many are at stake |
| `BatchSync.Drain` | benchmark/redis-durability-tuning/batch_process/redis.bpf.c:36-39 | from any point of the wait loop some continuation ends it, with all calls flushed |
| `BatchSync.OneCall` | benchmark/redis-durability-tuning/batch_process/redis.bpf.c:27-41 | every call can be run to its return, and flushes exactly if it fills the batch |
| `BatchSync.BoundReached` | benchmark/redis-durability-tuning/batch_process/redis.bpf.c:23-63 | for every patch_size below the ring size there is a run that loses patch_size + 1 writes |
| `BatchSync.NeverStuck` | benchmark/redis-durability-tuning/poc-iouring-minimal/fsync_write.c:38-56 | below 1024 the ring never refuses a request, and no wait is for nothing |
| `BatchSync.OverfullFlushNeverEnds` | benchmark/redis-durability-tuning/poc-iouring-minimal/fsync_write.c:38-56 | from 1024 on no flush ends in any run, and acknowledged requests are dropped |
| `BatchSync.BatchHandlers.constructor` | benchmark/redis-durability-tuning/batch_process/redis.bpf.c:65-70 | starts with an empty ring and no calls |
| `BatchSync.BatchHandlers.KernelCompletesOne` | benchmark/redis-durability-tuning/poc-iouring-minimal/fsync_write.c:47-56 | some request in flight completes |
| `BatchSync.BatchHandlers.AwaitCompletion` | benchmark/redis-durability-tuning/poc-iouring-minimal/fsync_write.c:47-56 | any number of requests complete in any order, until one completion is ready |
| `BatchSync.BatchHandlers.WaitAndSeen` | benchmark/redis-durability-tuning/poc-iouring-minimal/fsync_write.c:47-56 | returns after consuming one completion; it never waits for nothing |
| `BatchSync.BatchHandlers.Intercept` | benchmark/redis-durability-tuning/batch_process/redis.bpf.c:28-40 | the common part of both handlers is a run of single steps that ends and appends its request, whenever the ring can take a whole batch or the batch is not full yet |
| `BatchSync.BatchHandlers.Write` | benchmark/redis-durability-tuning/batch_process/redis.bpf.c:26-45 | appends its request to the history, keeps the invariant and acknowledges the full length |
| `BatchSync.BatchHandlers.FdataSync` | benchmark/redis-durability-tuning/batch_process/redis.bpf.c:47-63 | appends its request to the history, keeps the invariant and acknowledges with 0 |
| `BatchSync.BatchHandlers.WriteOfFive` | benchmark/redis-durability-tuning/poc-iouring-minimal/redis.bpf.c:27-45 | writes of five bytes are batched and acknowledged, others pass and change nothing |
| `FastNotify.BatchOfOneIsSynchronous` | benchmark/redis-durability-tuning/fsync-fast-notify/redis.bpf.c:29-47 | with patch_size 0 or less the batching and the synchronous handlers take the same steps with the same effect in every reachable state, in both directions |
| `FastNotify.SynchronousRunIsBatching` | benchmark/redis-durability-tuning/fsync-fast-notify/redis.bpf.c:29-47 | every run of the synchronous handlers is the projection of a batching run with patch_size 0 or less |
| `FastNotify.BatchingRunIsSynchronous` | benchmark/redis-durability-tuning/fsync-fast-notify/redis.bpf.c:29-47 | and every such batching run projects to a synchronous run |
| `FastNotify.SynchronousReturnsWithEmptyRing` | benchmark/redis-durability-tuning/fsync-fast-notify/redis.bpf.c:29-47 | in every synchronous run, between calls the ring is empty, all calls are acknowledged, and exactly the writes before an fsync of their file are durable |
| `FastNotify.SyncHandlers.constructor` | benchmark/redis-durability-tuning/fsync-fast-notify/redis.bpf.c:49-55 | the ring starts empty |
| `FastNotify.SyncHandlers.WaitAndSeen` | benchmark/redis-durability-tuning/fsync-fast-notify/redis.bpf.c:33-33 | the only request in flight completes and is consumed |
| `FastNotify.SyncHandlers.Write` | benchmark/redis-durability-tuning/fsync-fast-notify/redis.bpf.c:29-38 | on return the write is in the file, nothing more is durable and the ring is at rest |
| `FastNotify.SyncHandlers.FdataSync` | benchmark/redis-durability-tuning/fsync-fast-notify/redis.bpf.c:40-47 | on return every earlier write to the file is durable and the ring is at rest |
| `DelayedFsync.InvStep` | benchmark/redis-durability-tuning/delayed-fsync/redis.bpf.c:31-55 | every single step keeps the invariant |
| `DelayedFsync.InvKept` | benchmark/redis-durability-tuning/delayed-fsync/redis.bpf.c:31-55 | in every run the flag tells whether an fsync was issued, and every fsync but the last has covered all writes before it |
| `DelayedFsync.OneFsyncInFlight` | benchmark/redis-durability-tuning/delayed-fsync/redis.bpf.c:46-52 | at most one fsync is in flight, and after start_config no call waits for nothing |
| `DelayedFsync.RequestsAreCalls` | benchmark/redis-durability-tuning/delayed-fsync/redis.bpf.c:43-55 | in every run the requests are the server's writes and calls of fdatasync, in order and each on its own file; only a call that has not returned may be missing, at the end |
| `DelayedFsync.WithoutStartNoFsyncReturns` | benchmark/redis-durability-tuning/delayed-fsync/redis.bpf.c:31-49 | without start_config no fdatasync ever gets past its wait |
| `DelayedFsync.DurableBeforeLastButOne` | benchmark/redis-durability-tuning/delayed-fsync/redis.bpf.c:44-54 | for any mix of calls, writes before the last fsync but one are durable |
| `DelayedFsync.LosesAtMostTwo` | benchmark/redis-durability-tuning/README.md:25-27 | in every run in which the server's writes and calls of fdatasync on one file take turns, a crash at any step loses at most two updates, the last ones written |
| `DelayedFsync.TwoCanBeLost` | benchmark/redis-durability-tuning/README.md:25-27 | some run does lose two, on any file |
| `DelayedFsync.DelayedHandlers.constructor` | benchmark/redis-durability-tuning/delayed-fsync/redis.bpf.c:31-31 | the flag starts at 0 with an empty ring |
| `DelayedFsync.DelayedHandlers.StartConfig` | benchmark/redis-durability-tuning/delayed-fsync/redis.bpf.c:34-41 | sets the flag to -1 |
| `DelayedFsync.DelayedHandlers.AppWrite` | benchmark/redis-durability-tuning/delayed-fsync/redis.bpf.c:31-55 | a write, which the extension leaves alone, goes to the file |
| `DelayedFsync.DelayedHandlers.WaitAndSeen` | benchmark/redis-durability-tuning/delayed-fsync/redis.bpf.c:46-49 | returns once the previous fsync has completed |
| `DelayedFsync.DelayedHandlers.StartFsync` | benchmark/redis-durability-tuning/delayed-fsync/redis.bpf.c:43-55 | after start_config every call returns 0 and has issued an fsync of its own file |
| `ProcessSearch.GroupByParent` | benchmark/ssl-nginx/perf_stat_sslsniff.py:211-213 | maps every pid to its children in table order |
| `ProcessTable.IsSslsniffIff` | benchmark/ssl-nginx/perf_stat_sslsniff.py:218-218 | what is searched for: the command name, or the path somewhere in the arguments |
| `ProcessTable.ChildrenInTableOrder` | benchmark/ssl-nginx/perf_stat_sslsniff.py:211-213 | the children of a process are exactly the rows that name it, in the order of the table |
| `ProcessSearch.FindDescendant` | benchmark/ssl-nginx/perf_stat_sslsniff.py:209-221 | ends; returns None exactly if no descendant of the root matches, otherwise the matching descendant of least depth that is first in the order of the table |
| `ProcessSearch.TurnQueued` | benchmark/ssl-nginx/perf_stat_sslsniff.py:216-220 | the queue holds only descendants, in order of depth and at most one level apart |
| `ProcessSearch.TurnAllPending` | benchmark/ssl-nginx/perf_stat_sslsniff.py:216-220 | no turn of the loop loses a line of descent to a match |
| `ProcessSearch.ChildrenAreNew` | benchmark/ssl-nginx/perf_stat_sslsniff.py:216-220 | the children of the front process have never been queued |
| `ProcessSearch.TurnFresh` | benchmark/ssl-nginx/perf_stat_sslsniff.py:216-220 | each process enters the queue at most once, whatever cycles unrelated processes form |
| `ProcessSearch.FrontIsShallowest` | benchmark/ssl-nginx/perf_stat_sslsniff.py:217-219 | a match at the front is one of least depth |
| `ProcessTable.TurnWays` | benchmark/ssl-nginx/perf_stat_sslsniff.py:216-220 | every turn keeps the queue in order: shorter lines of descent before longer ones, and equally long ones as their positions in the table |
| `ProcessTable.FrontIsFirstInTableOrder` | benchmark/ssl-nginx/perf_stat_sslsniff.py:217-219 | a match at the front is the first of all matches in that order |
| `ProcessSearch.TurnWork` | benchmark/ssl-nginx/perf_stat_sslsniff.py:216-220 | without a cycle below the root every turn lowers the bound on the turns that are left |
| `ProcessSearch.CycleNeverEnds` | benchmark/ssl-nginx/perf_stat_sslsniff.py:215-220 | where the condition of the search fails, the queue is never empty and its front never matches, after any number of turns |
| `ProcessSearch.CyclicIffOwnDescendant` | benchmark/ssl-nginx/perf_stat_sslsniff.py:209-221 | with unique pids there is a cycle below the root exactly if the root is its own descendant |
| `ProcessSearch.QueuedAtMostOnce` | benchmark/ssl-nginx/perf_stat_sslsniff.py:215-220 | with unique pids and a root that is not its own descendant, all processes ever queued are different, so at most as many as the table has |
| `SafePids.ClosedHoldsAncestors` | benchmark/syscall/benchmark.py:40-52 | a set closed under the parent queries holds every ancestor |
| `SafePids.KilledAre` | benchmark/syscall/benchmark.py:122-149 | exactly which listed pids a cleanup kills |
| `SafePids.KillsIffDoomed` | benchmark/syscall/benchmark.py:131-145 | a candidate is killed exactly if its number and command line are known, it is not safe, and its command line does not name both the script and python |
| `SafePids.KilledInOrder` | benchmark/syscall/benchmark.py:122-145 | candidates are killed in the order of the listing |
| `SafePids.CleanupKillsExactly` | benchmark/syscall/benchmark.py:86-157 | a cleanup kills exactly the listed processes of that kind that are neither safe nor the process itself nor its parent |
| `SafePids.SafeOnlyGrows` | benchmark/syscall/benchmark.py:30-32 | no sequence of launches and cleanups removes a pid, and every launched server is in the set |
| `SafePids.CleanupSparesTheRunner` | benchmark/syscall/benchmark.py:86-157 | in every sequence of launches and cleanups no killed pid is the process, one of its ancestors or a server launched before |
| `SafePids.Protection.constructor` | benchmark/syscall/benchmark.py:30-32 | starts empty, with no cleanup in progress |
| `SafePids.Protection.AddAncestors` | benchmark/syscall/benchmark.py:39-52 | the walk ends on every parent relation and adds all ancestors and nothing else |
| `SafePids.Protection.AddListed` | benchmark/syscall/benchmark.py:61-77 | adds the pids that are numbers and nothing else |
| `SafePids.Protection.InitSafePids` | benchmark/syscall/benchmark.py:35-79 | the set then holds every ancestor, the process group and the script's own processes, and nothing else that it did not hold before |
| `SafePids.Protection.LaunchServer` | benchmark/syscall/benchmark.py:197-202 | the server joins the set |
| `SafePids.Protection.CleanupProcesses` | benchmark/syscall/benchmark.py:86-157 | kills exactly the listed candidates outside the grown set that do not look like the script; a nested cleanup does nothing; the flag is cleared |
| `ResultTable.PrintTable` | benchmark/deepflow/benchmark/run.py:317-332 | prints header, rule and one line for each row, in order |
| `ResultTable.PadIs` | benchmark/deepflow/benchmark/run.py:321-325 | a padded text is the text and spaces up to the width |
| `ResultTable.RowInColumns` | benchmark/deepflow/benchmark/run.py:327-331 | a row whose numbers fit stands in the columns of the header, with its units |
| `ResultTable.HeaderInColumns` | benchmark/deepflow/benchmark/run.py:318-319 | header and rule have those columns |
| `ResultTable.ParseFile` | benchmark/deepflow/benchmark/collect_data.py:6-18 | the rows of the last six lines before the trailing blank ones, or the error that Python raises |
| `ResultTable.ParseLines` | benchmark/deepflow/benchmark/collect_data.py:12-17 | all rows in order, or none if one of them is malformed |
| `ResultTable.DropBlankIs` | benchmark/deepflow/benchmark/collect_data.py:10-11 | the lines kept are those up to the last that is not blank |
| `ResultTable.RowReadIff` | benchmark/deepflow/benchmark/collect_data.py:13-17 | which lines of three cells are read as rows, and as what |
| `ResultTable.RowHasThreeCells` | benchmark/deepflow/benchmark/collect_data.py:13-13 | no line with another number of cells is read |
| `ResultTable.ParsedIff` | benchmark/deepflow/benchmark/collect_data.py:6-18 | which texts are read, whatever their number of lines, and as what: the last six lines that are kept, in order |
| `ResultTable.RowRoundTrip` | benchmark/deepflow/benchmark/run.py:327-331 | a printed row is read back as the same row, with its size in KB |
| `ResultTable.TableRoundTrip` | benchmark/deepflow/benchmark/collect_data.py:6-18 | for any table of six or more rows, any text before it and any blank text after it, parsing gives back the last six rows with their sizes in KB from 1024 on |
| `Text.LinesJoin` | benchmark/deepflow/benchmark/collect_data.py:8-9 | the lines of a text that continues after a newline are the lines of its parts |
| `Text.LinesMakeText` | benchmark/deepflow/benchmark/collect_data.py:8-9 | the lines make up the text again, and newlines stand only at their ends |
| `Text.PartsMakeText` | benchmark/deepflow/benchmark/collect_data.py:13-13 | the parts joined by the separator make up the text again, and it is in none of them |
| `Text.ContainsIff` | benchmark/ssl-nginx/perf_stat_sslsniff.py:218-218 | a text contains a part exactly if it is something before it, the part and something after it |
| `Text.DecimalNotation` | benchmark/deepflow/benchmark/run.py:330-330 | numbers are printed in the usual notation |
| `Text.SignedInt` | benchmark/deepflow/benchmark/collect_data.py:14-14 | int accepts one sign before the digits |
| `Text.IntRoundTrip` | benchmark/deepflow/benchmark/collect_data.py:14-14 | int gives back every number printed by str, with any space on either side |
| `Moments.SquaresExpand` | benchmark/deepflow/benchmark/collect_data.py:100-109 | the sum of squared deviations from any point, from the two accumulated sums |
| `Moments.OnePassVariance` | benchmark/deepflow/benchmark/collect_data.py:105-109 | the one-pass formula is the mean squared deviation |
| `Moments.StatTimesCount` | benchmark/deepflow/benchmark/collect_data.py:106-109 | average and variance, times the number of values, are the sums that define them |
| `Moments.StatBounds` | benchmark/deepflow/benchmark/collect_data.py:98-110 | min <= avg <= max, and the variance lies between 0 and (max - avg) * (avg - min) |
| `Moments.NoDeviationIffAllEqual` | benchmark/deepflow/benchmark/collect_data.py:106-110 | the variance is 0 exactly if all values are equal |
| `Moments.StatReordered` | benchmark/deepflow/benchmark/collect_data.py:98-109 | the statistics of a list do not depend on its order |
| `Collector.AccumulatedStep` | benchmark/deepflow/benchmark/collect_data.py:99-105 | adding a row keeps every accumulator equal to what all rows of its size give |
| `Collector.Accumulate` | benchmark/deepflow/benchmark/collect_data.py:88-105 | one accumulator for every size that occurs, with the count, sum, extremes and sum of squares of all its values |
| `Collector.DivideSums` | benchmark/deepflow/benchmark/collect_data.py:106-110 | every accumulator becomes its quotients |
| `Collector.DividedIsStat` | benchmark/deepflow/benchmark/collect_data.py:106-109 | the quotients are the statistics by definition |
| `Collector.SortBySize` | benchmark/deepflow/benchmark/collect_data.py:111-116 | a strictly ascending list of exactly the given entries |
| `Collector.Collect` | benchmark/deepflow/benchmark/collect_data.py:85-116 | one entry for every size that occurs, in ascending order, with mean, extremes, mean squared deviation and count by definition |
| `Collector.CollectedBounds` | benchmark/deepflow/benchmark/collect_data.py:85-116 | every collected entry counts some row and lies within its bounds |
| `Collector.EveryRowCounted` | benchmark/deepflow/benchmark/collect_data.py:98-101 | the counts add up to the number of rows |
| `Collector.OrderDoesNotMatter` | benchmark/deepflow/benchmark/collect_data.py:98-116 | reordering the rows gives the same list |
| `Collector.FilesReordered` | benchmark/deepflow/benchmark/collect_data.py:69-84 | listing the files in another order gives the same bag of rows |
| `Collector.SummedStep` | benchmark/deepflow/benchmark/plot.py:24-35 | adding an item keeps every sum and count equal to those of all items of its size |
| `Collector.AddItem` | benchmark/deepflow/benchmark/plot.py:25-35 | adds one item to the sums and the count of its size, and changes no other |
| `Collector.AddFile` | benchmark/deepflow/benchmark/plot.py:24-35 | adds all items of one list |
| `Collector.SumBySize` | benchmark/deepflow/benchmark/plot.py:18-35 | sums and counts of every size that occurs |
| `Collector.DivideAll` | benchmark/deepflow/benchmark/plot.py:37-43 | the quotients are the mean request and transfer of each size |
| `Collector.CalculateAverages` | benchmark/deepflow/benchmark/plot.py:16-45 | for every kind of run, the mean request and transfer of every size that occurs |
| `Collector.AggregatorsAgree` | benchmark/deepflow/benchmark/plot.py:16-45 | the plotter and the collector have the same sizes and the same averages, for every data set |
| `Collector.Summarise` | benchmark/uprobe/benchmark.py:87-97 | the summary holds the defined statistics; its guard against a negative variance never applies to reals |
| `Collector.SummaryMeans` | benchmark/uprobe/benchmark.py:87-97 | maximum and minimum are among the timings and bound them, and average and variance are their means |
| `Collector.HandleResult` | benchmark/uprobe/benchmark.py:84-99 | a summary for every name, or the error of an empty list of timings |
| `Victim.ParseVictimOutput` | benchmark/uprobe/benchmark.py:31-45 | the loop never reads out of range except where Python raises, and computes the parse of the lines |
| `Victim.LinesOfStripped` | benchmark/uprobe/benchmark.py:32-32 | strip removes the blank lines at both ends, the indentation of the first line and the space after the last |
| `Victim.ParsedAsPrinted` | benchmark/uprobe/benchmark.py:32-37 | the parser works as on the printed lines, unless the first line is an indented "Benchmarking" |
| `Victim.BlankLast` | benchmark/uprobe/benchmark.py:37-44 | a blank line at the end changes neither the result nor whether the parser raises |
| `Victim.ItemParsed` | benchmark/test.c:76-77 | a printed block enters its name and time, any other line changes nothing |
| `Victim.AllItemsParsed` | benchmark/uprobe/benchmark.py:35-44 | printed items add exactly their map from names to times to any result |
| `Victim.LastBlockWins` | benchmark/uprobe/benchmark.py:40-40 | the map holds exactly the printed names, each with the time of its last block |
| `Victim.PlainRoundTrip` | benchmark/uprobe/benchmark.py:31-45 | without an indented "Benchmarking" first, parsing returns exactly the map from names to times |
| `Victim.VictimRoundTrip` | benchmark/uprobe/benchmark.py:31-45 | for any blocks among any other lines, parsing the output returns exactly the map from names to times if and only if the first line that is not blank is no indented "Benchmarking", or the next line is another line with a time in its fourth field and a later block has the name |
| `Victim.IndentedFirstLine` | benchmark/uprobe/benchmark.py:37-41 | what the parser returns when an indented "Benchmarking" comes first, for all lines that may follow |
| `Victim.FirstLineIff` | benchmark/uprobe/benchmark.py:32-41 | with such a first line, exactly when the output is read back all the same, and exactly when the parser raises |
| `RunStats.FailureBalanced` | benchmark/ssl-nginx/benchmark.py:109-112 | a failure keeps failed_attempts equal to the sum of the reasons exactly if its reason is declared |
| `RunStats.Book.constructor` | benchmark/ssl-nginx/benchmark.py:48-91 | the books start balanced, with the declared reasons |
| `RunStats.Book.MarkValid` | benchmark/ssl-nginx/benchmark.py:106-107 | one more valid run with its stored rate |
| `RunStats.Book.MarkFailed` | benchmark/ssl-nginx/benchmark.py:109-112 | one more failed attempt, and one more of its reason if that is declared |
| `RunStats.Book.AddTrace` | benchmark/ssl-nginx/benchmark.py:142-142 | one more trace summary |
| `RunStats.Book.CountRetry` | benchmark/ssl-nginx/benchmark.py:650-651 | one more retry |
| `SslRuns.RunBaseline` | benchmark/ssl-nginx/benchmark.py:414-444 | every run is counted by what wrk did |
| `SslRuns.RunKernel` | benchmark/ssl-nginx/benchmark.py:497-550 | preflight and runs, to the end or to an exception out of the cleanup |
| `SslRuns.RunAttempts` | benchmark/ssl-nginx/benchmark.py:649-723 | the attempts of one run, up to the first valid one |
| `SslRuns.RunBpftime` | benchmark/ssl-nginx/benchmark.py:590-723 | preflight and runs with retries, to the end or to an exception |
| `SslRuns.BaselineSound` | benchmark/ssl-nginx/benchmark.py:414-444 | on every path valid_runs is the number of stored rates, failed_attempts the sum of the reasons, and every stored rate is positive |
| `SslRuns.KernelSound` | benchmark/ssl-nginx/benchmark.py:497-550 | the same for the kernel phase, also when it ends early |
| `SslRuns.BpftimeSound` | benchmark/ssl-nginx/benchmark.py:590-723 | the same for the bpftime phase, also when it ends early |
| `SslRuns.KernelEvidence` | benchmark/ssl-nginx/benchmark.py:497-502 | rates are stored only if an effective trace summary is recorded |
| `SslRuns.BpftimeEvidence` | benchmark/ssl-nginx/benchmark.py:626-639 | the same for the bpftime phase |
| `SslRuns.BaselineCounts` | benchmark/ssl-nginx/benchmark.py:414-444 | valid and failed runs add up to NUM_RUNS |
| `SslRuns.KernelCounts` | benchmark/ssl-nginx/benchmark.py:504-550 | the same for a completed kernel phase, and never more |
| `SslRuns.AttemptCounts` | benchmark/ssl-nginx/benchmark.py:649-723 | a run counts one more attempt than it has retries, and at most one valid one |
| `SslRuns.RetryAccounting` | benchmark/ssl-nginx/benchmark.py:646-723 | after a completed phase valid + failed = NUM_RUNS + retries exactly if the number of retries is not negative, and there are at most NUM_RUNS * BPFTIME_RETRIES retries |
| `SslRuns.BpftimeResults` | benchmark/ssl-nginx/benchmark.py:689-701 | the stored rates are those of the first successful attempt of each run, in order |
| `SslRuns.FailedIffSomeRunUnmeasured` | benchmark/ssl-nginx/benchmark.py:828-833 | the benchmark counts as failed exactly if some run had no successful attempt |
| `SslOutcomes.BaselineByOutcome` | benchmark/ssl-nginx/benchmark.py:414-444 | the baseline phase stores exactly the non-zero rates of the calls of wrk that exited with 0, in order, and raises each reason by the number of calls in which that happened |
| `SslOutcomes.KernelByOutcome` | benchmark/ssl-nginx/benchmark.py:497-550 | the same for the kernel phase and the runs it made; without events in the preflight one failed attachment is counted and nothing else |
| `SslOutcomes.BpftimeByOutcome` | benchmark/ssl-nginx/benchmark.py:590-723 | the same for the bpftime phase and the attempts it made, with what each outcome of the preflight counts |
| `SyscountRuns.InTableStep` | benchmark/syscount-nginx/benchmark.py:119-132 | one line of the scan keeps in_count_table equal to: a header above, and no blank line since |
| `SyscountRuns.CountRows` | benchmark/syscount-nginx/benchmark.py:119-132 | collects exactly the lines below a header that end in a number, in order |
| `SyscountRuns.IsHeaderIff` | benchmark/syscount-nginx/benchmark.py:126-128 | which lines are headers |
| `SyscountRuns.EndsInNumberIff` | benchmark/syscount-nginx/benchmark.py:130-132 | which lines end in a number |
| `SyscountRuns.RowsInOrder` | benchmark/syscount-nginx/benchmark.py:119-132 | the rows collected are exactly those lines, in the order of the log |
| `SyscountRuns.HasCountsIff` | benchmark/syscount-nginx/benchmark.py:133-135 | there are counts exactly if some line is such a row |
| `SyscountRuns.TerminateAndSummarize` | benchmark/syscount-nginx/benchmark.py:157-175 | a late end counts a timeout; the summary is recorded unless the wait or the reading raises |
| `SyscountRuns.TraceOnce` | benchmark/syscount-nginx/benchmark.py:475-531 | one run from its start to its cleanup |
| `SyscountRuns.RunTraced` | benchmark/syscount-nginx/benchmark.py:564-694 | the loop over all runs, to the end or to an exception |
| `SyscountRuns.RunsSound` | benchmark/syscount-nginx/benchmark.py:459-531 | on every path the books are balanced, and at least as many recorded summaries show a working trace as rates are stored |
| `SyscountRuns.RunsByOutcome` | benchmark/syscount-nginx/benchmark.py:459-531 | a phase stores exactly the rates of the runs whose wrk exited with 0 and whose log shows a working trace, in order, and raises each reason by the number of times that happened |
| `SyscountRuns.OneRunCounts` | benchmark/syscount-nginx/benchmark.py:475-531 | one run adds at most one rate, only with a summary of a working trace recorded, and at most two failures; exactly when it adds two, and exactly when nothing |
| `SyscountRuns.RunsCounts` | benchmark/syscount-nginx/benchmark.py:459-531 | a phase adds at most NUM_RUNS rates and 2 * NUM_RUNS failures, on every path |

## Left out

- The `fcntl`, `newfstatat` and `statfs` handlers: the first looks its arguments up in the wrong map, the others only trace.
- Cache invalidation on unlink: described for the FUSE benchmark but absent from the code, so directories do not change in `DirLoops`.
- Listings that take the kernel several calls: outside the promise of transparency; `DirListing` covers them for safety.
- Path resolution: an uninterpreted function from names to absolute paths; the kernel's side keeps each request, its name and the descriptor number of its directory, unresolved.
- Bits: pids, descriptors and keys are bounded integers, and the packed key is written as arithmetic on 32-bit halves.
- Reuse of the caller's buffer after an early acknowledgement, I/O errors of completions and several threads on one ring: payloads are taken at the call, with one issuer.
- Order of the writes within one batch: the ring may complete them in any order, so only the order of batches is proved.
- `FdTable.FilteredNeverOpened`: speaks of requests relative to the working directory; an openat relative to an untracked descriptor is not filtered by the code at all (`FsCache.OpenatDeniedExactly`).
- `BatchSync.BatchHandlers.Intercept`: requires the condition under which it returns, a `patch_size` below 1024 or a batch that is not full; `BatchSync.OverfullFlushNeverEnds` proves that no flush ends otherwise.
- `ProcessSearch.FindDescendant`: requires the condition under which its loop ends, as a method that does not return has no contract; `ProcessSearch.CycleNeverEnds` proves that the loop goes on for ever without it.
- `Victim.VictimRoundTrip`: asks of Python's float that it rejects the word "thread", which stands in the fourth place of a block's first line.
- Floats: reals, so rounding is not modelled; the standard deviation is left as the variance under its root.
- Parsing of floats: parameters of the parsers; the round trips ask of them to read back what was printed.
- Python's strings: white space and digits are ASCII, `int` takes no underscores, and lines end only in a newline in `Text`.
- Selection of result files by name, and the JSON file between collector and plotter.
- The performance drop and the charts: formulas and presentation.
- Recognising markers and events in trace output: the summaries of `SslRuns` take them as given, while `SyscountRuns` scans its table of counts.
- Exceptions raised by printing, which would count a run twice.
- Launching processes, sleeping, signals and networking: only the outcome of each command is an input.
- The loaders of the BPF programs, the GPU code and the FUSE passthrough file systems: thin wrappers and foreign calls.
