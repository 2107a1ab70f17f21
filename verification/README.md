# Verified models of the SimpleRADOSStriper, its lock, and neighbouring components

This project models six parts of the repository in Dafny and proves what they are for.

- **SimpleRADOSStriper** keeps one growing file in 4 MiB objects.  `Rados.dfy` and
  `OsdRuns.dfy` model the pool: requests queue per object, are served in FIFO order per object
  and in any order across objects, and any of them may fail, in which case it is not applied.
  `Pool.dfy` is the asynchronous interface; it lets the OSDs serve any number of requests
  between any two client actions and records every state the pool was ever in.
  `Striper.dfy` holds the class with the source's fields and methods, `Extents.dfy` and
  `StriperState.dfy` its invariants, `Sessions.dfy` whole runs of calls, and `Leftovers.dfy`
  the take-over from a blocklisted client whose requests are still queued.  Proved: the
  striped file is a flat byte sequence, no dangling extent exists in any intermediate state or
  after any crash, a write or truncate succeeds exactly when nothing it sent was refused and
  nothing it waited for failed, background failures cannot hide from `flush` (zero means durable), errors
  stick until reported whichever call queued the request, any crash leaves a file that the next
  client can open, and versions of applied updates increase over all clients.
- **The exclusive lock** (`LockProtocol.dfy`) is a state machine over any number of clients
  with lease expiry, recovery, blocklisting and renewal, whose accesses to the file travel in
  flight.  Proved: mutual exclusion and non-interleaving of accepted accesses over every run,
  exactly when dead owners are fenced, and exactly as long as the lease covers the recovery;
  and that the lock works: any sequence of clients that unlock in order all get through, and
  nobody is blocklisted for it.
- **The fusetrace inode cache** (`InodeGraph.dfy`, `InodeCache.dfy`) is a heap graph with links
  in both directions.  Proved: links mirror each other and stay acyclic through every
  operation, and rebuilt paths, read off their characters, lead to the inode they were built
  for.
- **krbd mapping** (`UdevMap.dfy`, `Glob.dfy`): the event handler, the wait loop over two
  sources, and glob escaping.
- **PerfHistogram** (`MixedRadix.dfy`, `PerfHistogram.dfy`, `AxisBuckets.dfy`): index
  arithmetic, conservation and marginals, the nested dump, and bucket ranges.
- **libcephsqlite paths** (`SqlitePath.dfy`) and the striper's textual encodings
  (`Encoding.dfy`).

## Conventions

- Data objects are keyed by stripe number.  `Encoding.SoidInjective` shows that the textual
  object names of all files are in one-to-one correspondence with file name and stripe.
  Metadata attributes are kept decoded; `Encoding.MetadataRoundTrip` says when that is exact.
- Three ghost flags follow the calls a client makes.  `covered` stays true as long as every
  allocation change covers what is stored, `intact` as long as every write that grows the
  file was complete and no write left a hole, and `trusted` as long as no call that changes
  the file returned an error.  The methods accept all calls; their contracts say exactly which
  calls keep the flags.  Complete writes of at most 128 MiB that start inside the file, and
  truncates that do not grow it, keep the first two.
- A pool state is `clean` if no request has failed since the client connected.  What a read
  delivers is tied to the flat content in clean states; `Flush` proves the state clean.
- The pool counts, in ghost fields, the submissions it refused together with the waits that
  ended badly (`faults`), the failed reads (`readFaults`), and the error of the latest of them
  (`lastFault`).  The contracts say success exactly if the count did not move, and otherwise
  which error is returned.
- What is assumed about RADOS: requests on one object are served in submission order, a
  compound request takes effect as a whole or not at all, a failed request does not take
  effect, results are not positive, and a removal or read fails with "no such object" exactly
  when there is none.
- What is assumed about the lock: blocklisting is permanent and takes effect at once, and
  clients have distinct addresses.
- The kernel result read by `wait_for_mapping` is not positive, as the source asserts.
- Nondeterministic results (`*`) stand for the OSDs, the monitor and the kernel.

## Where the code does not do what one might expect

- Growth is computed from the old size (src/SimpleRADOSStriper.cc:399).  A write is covered
  exactly when `Fits` holds; otherwise a complete write leaves a dangling extent at once
  (`Striper.Write`), and a growing truncate may lower the allocation below existing objects
  (`GrowByTruncating` and `GrowthDangles` go there from an empty file); it is safe over all runs exactly when
  no object lies beyond the new allocation (`MoveSafeExactly`).
- `write` raises the size to the end of the requested range even if a submission was refused
  (src/SimpleRADOSStriper.cc:464-476); `Written` says exactly when the file stays intact.
- `read` does not look at the size and concatenates short buffers, so a hole moves later bytes
  forward: a read delivers all its bytes exactly when the range is dense (`ReadBytesExact`).
- The owner update in `recover_lock` is unconditional (src/SimpleRADOSStriper.cc:653).  Whatever
  the other clients do before it, the file is exclusive after it if and only if the lease is
  still held (`ExclusiveExactlyUnderLease`); `LostLeaseReached` is a run that loses it.
- A successful `flush`, and therefore `unlock`, waits for everything but removals.  Removals
  are left over only if an earlier `truncate` or `flush` failed half-way and its error was
  ignored; without an ignored error nothing is left in flight (`Striper.Flush`).
- Names with a backslash are not escaped exactly (src/krbd.cc:624-628): the escaped pattern of
  such a name never even matches the name itself (`EscapeExactly`).
- Renaming a cached entry onto itself drops it from the cache (fusetrace/fusetrace_ll.cc:886-887).
- The cache relies on the file system for its invariants.  `Rename` and `Link` keep it valid
  exactly when directory numbers do not clash and nothing is moved below itself.  A lookup or
  a link that reads a different number for a cached inode (fusetrace/fusetrace_ll.cc:266 and
  939) keeps it valid only if the inode is childless and unlisted.
- Histogram arithmetic can leave 64 bits: at the subtraction of a negative minimum, at the
  increment of a linear bucket, at the shift beyond 64 logarithmic buckets, and at the bounds
  of the published ranges.  `Countable` and `Publishable` say exactly when it does not.  The
  dump carries its index as a 32-bit integer (src/perf_histogram.h:211), which suffices exactly
  for histograms of less than 2^31 counters (`DumpValues`).
- Forgetting an unknown inode number leaves a null entry in the map
  (fusetrace/fusetrace_ll.cc:312).  A file created later with that number makes the code
  dereference the null pointer (fusetrace/fusetrace_ll.cc:199-202); `AddInode` returns null
  exactly then.
- The histogram constructor (src/perf_histogram.h:91) leaves the counters to the default
  constructor of `std::atomic`, which promises no value before C++20, so the counting results
  start at `reset()`.

## Model

| member | source | states |
|---|---|---|
| Encoding.SoidInjective | src/SimpleRADOSStriper.cc:99-113 | over all files and 64-bit offsets, two object names are equal exactly when file and stripe are equal |
| Encoding.SoidFormat | src/SimpleRADOSStriper.cc:99-113 | an object name is the file name, a dot, and 16 lower-case hexadecimal digits whose value is the offset divided by 4 MiB |
| Encoding.Uint2BlFormat | src/SimpleRADOSStriper.cc:375-382 | an attribute is the value in decimal digits, filled with zeros up to 16 and longer only without a leading zero |
| Encoding.MetadataRoundTrip | src/SimpleRADOSStriper.cc:264-281 | a written attribute parses back to its value exactly when the value is below 2^63, also beyond 16 digits |
| Encoding.PadRoundTrip | src/SimpleRADOSStriper.cc:375-382 | zero padding to a fixed width keeps the value of a number in any base up to 16 |
| Extents.NextExtent | src/SimpleRADOSStriper.cc:99-113 | an extent addresses the given offset, stays within one object, and is cut only at an object boundary |
| Extents.WrittenByte | src/SimpleRADOSStriper.cc:458-469 | a write request on one extent decides the bytes it covers and leaves every other stored byte alone |
| Extents.SubmitWrite | src/SimpleRADOSStriper.cc:458-469 | a write request on one extent is a write on the flat file |
| Extents.ReadBytesExact | src/SimpleRADOSStriper.cc:490-517 | a read delivers as many bytes as asked for exactly when the range has no hole, and then byte for byte what is stored |
| Extents.ReadRepresents | src/SimpleRADOSStriper.cc:490-517 | a file that represents a flat sequence reads back as that sequence, across object boundaries |
| Extents.HoleShiftsData | src/SimpleRADOSStriper.cc:506-514 | a concrete file with a hole whose later bytes are read at the wrong position |
| Extents.BecomesDurable | src/SimpleRADOSStriper.cc:184-204 | once nothing but removals is queued, an intact file and its size are on the OSDs |
| Extents.DurableSurvivesCrash | src/SimpleRADOSStriper.cc:184-204 | durable content survives every serving order and every failure of what is still in flight |
| OsdRuns.SubmitView | src/SimpleRADOSStriper.cc:444-480 | a submitted request changes the eventual state of its own object only |
| OsdRuns.ServeView | src/SimpleRADOSStriper.cc:444-518 | serving a request without a fault leaves the eventual state of every object and of the metadata alone |
| OsdRuns.ServeSafe | src/SimpleRADOSStriper.cc:286-343 | serving or failing any request keeps every object below every allocation that is or may become persisted |
| OsdRuns.CrashSafe | src/SimpleRADOSStriper.cc:286-343 | from a safe state no serving order and no pattern of failures leads to a dangling extent |
| OsdRuns.MoveSafeExactly | src/SimpleRADOSStriper.cc:397-434 | an update of the allocation is safe over every serving order and failure pattern exactly when no object, stored or in flight, lies beyond the new allocation |
| OsdRuns.ServeStays | src/SimpleRADOSStriper.cc:291-313 | an object disappears only through a queued removal, whatever fails |
| OsdRuns.CrashRecoverable | src/SimpleRADOSStriper.cc:286-442 | whatever is served or fails after a crash, the allocation stays 0 or a whole number of objects of at least 128 MiB, and applied versions only extend the strictly increasing sequence |
| OsdRuns.RefusalsKeepStore | src/SimpleRADOSStriper.cc:620-647 | no run of refusals, whichever requests and in whatever order, changes anything that is stored |
| OsdRuns.RefuseAll | src/SimpleRADOSStriper.cc:620-647 | from every state some run of refusals empties all queues |
| OsdRuns.ServeBlames | src/SimpleRADOSStriper.cc:159-182 | whenever serving a request makes the pool unclean, the result of that request says so |
| OsdRuns.ServeVersions | src/SimpleRADOSStriper.cc:411-421 | applied and queued versions keep increasing strictly when any request is served or fails |
| OsdRuns.SubmitVersions | src/SimpleRADOSStriper.cc:318-341 | a metadata request with the next version extends the strictly increasing sequence |
| OsdRuns.ServeMoves | src/SimpleRADOSStriper.cc:318-341 | a request that changes the allocation moves allocation and version together or not at all |
| OsdRuns.ServeRemoving | src/SimpleRADOSStriper.cc:296-313 | once the removal that is newest on an object succeeded or found nothing, the object is gone and no write to it is in flight |
| StriperState.SequentialWritesFit | src/SimpleRADOSStriper.cc:397-404 | a write of at most 128 MiB that starts inside the file is covered by one growth step |
| StriperState.ShrunkExactly | src/SimpleRADOSStriper.cc:345-366 | the allocation that is kept is 0 for an empty file, the rounded size plus 128 MiB if there was more than the rounded size plus 256 MiB, and otherwise what it was; shrinking again changes nothing |
| StriperState.GrowingTruncateDangles | src/SimpleRADOSStriper.cc:397-404 | a concrete safe pool in which the update of a growing truncate leaves a dangling extent |
| StriperState.FarWriteDangles | src/SimpleRADOSStriper.cc:452-469 | a write request beyond the allocation is a dangling extent |
| StriperState.NeverDangles | src/SimpleRADOSStriper.cc:286-480 | in a covered run the client may crash in any state the pool was ever in without any dangling extent afterwards |
| StriperState.CreatedIsValid | src/SimpleRADOSStriper.cc:218-241 | a created file is empty, safe and ready to be opened |
| StriperState.CrashOpens | src/SimpleRADOSStriper.cc:243-284 | a crash in any state of any call, followed by any fate of the requests in flight, leaves a pool that meets all that the next open needs, with the versions applied before still applied |
| StriperState.FencedHandover | src/SimpleRADOSStriper.cc:620-658 | blocklisting the client at any such point makes that happen: after any run that refuses all its queued requests nothing stored has changed, and the next client can open the file |
| StriperState.DurableReopens | src/SimpleRADOSStriper.cc:184-284 | content that was durable at a crash is what the next client opens |
| StriperState.FirstFailureMeaning | src/SimpleRADOSStriper.cc:159-182 | the reported error is 0 exactly when every request succeeded, else the error of the earliest failed one |
| StriperState.AiosPop | src/SimpleRADOSStriper.cc:173-179 | taking a finished completion off the queue keeps the sticky error equal to the first failure so far |
| StriperState.AccountedEvolves | src/SimpleRADOSStriper.cc:159-182 | while every queued request is accounted for, no failure in the background goes unrecorded in the results |
| StriperState.AccountedRemoved | src/SimpleRADOSStriper.cc:308-313 | removals that all succeeded or found nothing cannot hide a failure |
| StriperState.AccountedClean | src/SimpleRADOSStriper.cc:184-204 | if everything issued is done and the first failure is 0, no request has failed at all |
| StriperState.MovingEnds | src/SimpleRADOSStriper.cc:422-431 | when the awaited update is done, the invariants hold with the new or the old allocation according to its result |
| StriperState.FlatWriteTwice | src/SimpleRADOSStriper.cc:458-469 | writing extent by extent is writing at once |
| SimpleStriper.BeyondDangles | src/SimpleRADOSStriper.cc:397-434 | an allocation below something stored for good is a dangling extent |
| SimpleStriper.SettledBy | src/SimpleRADOSStriper.cc:345-442 | where a truncate leaves the allocation, by case on the rounded new size, and that every object it gives up is gone for good |
| SimpleStriper.ExtendedBy | src/SimpleRADOSStriper.cc:452-478 | what a write makes of allocation, size and dirty flag, also if only part of it was submitted |
| SimpleStriper.GoneBelow | src/SimpleRADOSStriper.cc:291-313 | after the removals everything left lies below the lowered allocation |
| SimpleStriper.MissingExtent | src/SimpleRADOSStriper.cc:507-511 | an intact file has no missing object in a range inside its size |
| SimpleStriper.FlushedDurable | src/SimpleRADOSStriper.cc:192-203 | with nothing but removals queued, an intact file whose size was written back is durable |
| SimpleStriper.Striper.ShrinkAlloc | src/SimpleRADOSStriper.cc:286-343 | removes exactly the objects from max(a, 4 MiB) to the old allocation, then lowers the allocation, all or nothing with the version; in no state in between is another removal submitted, and everything else stored for good stays stored even if requests fail |
| SimpleStriper.Striper.MaybeShrinkAlloc | src/SimpleRADOSStriper.cc:345-366 | succeeds exactly if nothing was refused and nothing failed; the allocation and version it settles on; every object given up is gone, and nothing below and nothing beyond the old allocation is removed |
| SimpleStriper.Striper.SetMetadata | src/SimpleRADOSStriper.cc:384-442 | succeeds exactly if nothing was refused and nothing failed, and else returns the error of what failed; the new size, content, allocation, version and completion queue; when the allocation still covers every object, and that it dangles otherwise; result 0 leaves no unreported failure of its own |
| SimpleStriper.Striper.Truncate | src/SimpleRADOSStriper.cc:143-157 | succeeds exactly if the client is not blocklisted, nothing was refused and nothing failed, and else returns the error of what failed; on success the size is n and is written back, and the allocation is n rounded up plus 128 MiB if more than 256 MiB beyond it were allocated, 0 for n = 0, and otherwise unchanged or grown by one step, with every object given up gone; only those are removed, and earlier requests stay queued; says exactly when the allocation still covers every object, and leaves a dangling extent when it moves the allocation below a stored one |
| SimpleStriper.Striper.WaitForAios | src/SimpleRADOSStriper.cc:159-182 | drains a prefix of the queue, all of it when blocking and otherwise up to the first unfinished request; keeps the sticky first failure and returns it once the queue is empty |
| SimpleStriper.Striper.Flush | src/SimpleRADOSStriper.cc:184-204 | a flush that fails before it waits was blocklisted or had a request refused or failing, and leaves everything queued and every known failure for the next one; a flush that waits returns the first failure in the order of request ids among everything queued since the last report, by whichever call, and forgets it; result 0, with no error reported earlier, makes an intact file durable and leaves nothing in flight |
| SimpleStriper.Striper.SubmitWrites | src/SimpleRADOSStriper.cc:458-469 | all bytes are submitted exactly if no submission was refused; the submitted part of a write is a flat write, its completions follow on the queue extent by extent, and beyond the allocation it leaves a dangling extent |
| SimpleStriper.Striper.Write | src/SimpleRADOSStriper.cc:444-480 | is complete exactly if nothing was refused and the awaited update did not fail, and else returns the bytes submitted or the error of the update; the new content, size and allocation; which completions it adds behind those queued before, and that no finished one is left in front; every state stays safe if the write fits, and a complete write that does not fit dangles at once |
| SimpleStriper.Striper.Read | src/SimpleRADOSStriper.cc:482-518 | delivers what the objects hold; for an intact file and a range inside its size exactly that slice of the content; without faults it fails exactly when an object in the range is missing, and otherwise with the error of the read that failed |
| SimpleStriper.Striper.Open | src/SimpleRADOSStriper.cc:243-284 | succeeds exactly if the read of the metadata does; then size, allocation and version are the persisted ones, which keeps the allocation, never raises the version, and cuts the content at the last size written back; a failure changes nothing |
| SimpleStriper.Striper.constructor | src/SimpleRADOSStriper.cc:243-284 | a client that opens what any crash of an earlier client leaves starts with every invariant, also while requests of a blocklisted one are still queued |
| Leftovers.RefusalUnseen | src/SimpleRADOSStriper.cc:620-658 | refusing a leftover request of a blocklisted client shows nowhere in what the new client sees |
| Leftovers.ServedAlike | src/SimpleRADOSStriper.cc:620-658 | behind the leftover requests the new client's requests are served as if they were alone |
| Leftovers.RunsAlike | src/SimpleRADOSStriper.cc:620-658 | every run of a pool that holds both clients' requests is, for the new client, a run of a pool that holds only its own: same objects, metadata and results |
| Leftovers.OpensAtOnce | src/SimpleRADOSStriper.cc:620-658 | after a crash in any state and any fate of some of the requests, the next client can open at once, with all that is still queued set aside as leftover |
| Sessions.Run | src/SimpleRADOSStriper.cc:143-518 | any sequence of writes, truncates, reads and flushes: if nothing is refused and nothing awaited fails, every write is complete, every truncate succeeds and every flush reports; every request queued stands on exactly one flush report, in order, or is still queued, and each report is the first failure in it; if all calls stay inside the file and worked, the file is what they make of a plain byte sequence, it was durable and all reads so far were right at every flush, and a covered file had no dangling extent in any state |
| Sessions.Session | src/SimpleRADOSStriper.cc:143-518 | the same for any calls closed by a flush, with everything kept that the next session needs |
| Sessions.LedgerSnoc | src/SimpleRADOSStriper.cc:159-204 | a call keeps the account of queued and reported requests balanced |
| Sessions.GrowByTruncating | src/SimpleRADOSStriper.cc:143-157 | a run of calls from an empty file which, if all succeed, ends with a dangling extent |
| Sessions.GrowthDangles | src/SimpleRADOSStriper.cc:384-480 | the requests of these calls can be served one after the other from a created file, and end in a dangling extent |
| LockProtocol.MutualExclusion | src/SimpleRADOSStriper.cc:580-775 | in every run in which recovery stays within its lease, at most one unfenced client is past lock, the owner attribute names it, and accepted accesses of different sessions do not interleave |
| LockProtocol.ExclusiveExactlyWhenFencing | src/SimpleRADOSStriper.cc:620-647 | with leases kept, every run is exclusive exactly when dead owners are blocklisted |
| LockProtocol.NoFenceTwoOwners | src/SimpleRADOSStriper.cc:620-658 | a concrete run without blocklisting that ends with two active clients |
| LockProtocol.ExclusiveExactlyUnderLease | src/SimpleRADOSStriper.cc:649-658 | when a client is about to write itself as the owner and another is free to lock, the file is exclusive after that write, whatever the others do before it, if and only if the lease is still held |
| LockProtocol.LostLeaseBreaks | src/SimpleRADOSStriper.cc:649-658 | without the lease, whether it ran out or another client has it, another client can get past lock first and both are active |
| LockProtocol.LostLeaseReached | src/SimpleRADOSStriper.cc:580-660 | a run from the start that keeps every lease up to that point reaches such a state |
| LockProtocol.NobodyPresent | src/SimpleRADOSStriper.cc:688-699 | when a client gets past lock, no unfenced client is in a session, not even with requests in flight |
| LockProtocol.SessionStartsClean | src/SimpleRADOSStriper.cc:620-658 | whatever earlier clients have in flight when a session starts is refused when it arrives, however late |
| LockProtocol.StepPresentOwns | src/SimpleRADOSStriper.cc:662-775 | every action keeps that a present client owns the attribute and the newest session |
| LockProtocol.StepRecoverySound | src/SimpleRADOSStriper.cc:580-660 | every action keeps that a client recovering under its lease has seen the current owner, or that nobody is present |
| LockProtocol.StepFlightOk | src/SimpleRADOSStriper.cc:741-775 | every action keeps that what is in flight belongs to a session that was not left by unlocking |
| LockProtocol.StepSessions | src/SimpleRADOSStriper.cc:550-578 | every action keeps the access log ordered by session |
| LockProtocol.UnlockReleases | src/SimpleRADOSStriper.cc:741-775 | unlocking releases lock and owner attribute exactly when the client is past lock, unfenced, still holder and owner, and has nothing in flight; otherwise it changes nothing |
| LockProtocol.HandsOver | src/SimpleRADOSStriper.cc:662-775 | after such an unlock any unfenced idle client gets past lock at its first attempt, and nobody is blocklisted for it |
| LockProtocol.VisitsDone | src/SimpleRADOSStriper.cc:662-775 | any clients in any order, each locking, accessing and unlocking: all get through, the accepted accesses are theirs in order, the lock ends up free and nobody is ever blocklisted |
| LockProtocol.NothingToFence | src/SimpleRADOSStriper.cc:598-660 | if the last owner cleaned up before the recovery, the recovering client gets past lock and blocklists nobody |
| LockProtocol.RenewDecides | src/SimpleRADOSStriper.cc:560-574 | a renewal keeps the session exactly when the lease is held and the client is unfenced; any failed renewal loses it |
| LockProtocol.LostForGood | src/SimpleRADOSStriper.cc:564-572 | a client that lost its session stays so over every run, and nothing more of it gets in flight |
| LockProtocol.FencedStaysOut | src/SimpleRADOSStriper.cc:620-739 | over every run a fenced client outside a session never gets past lock again |
| LockProtocol.ArrivalDecides | src/SimpleRADOSStriper.cc:620-647 | an arriving access leaves the pipeline, and is accepted exactly when its client is unfenced |
| LockProtocol.BusyWaits | src/SimpleRADOSStriper.cc:700-708 | a client that finds the lock busy keeps trying and changes nothing |
| LockProtocol.RecoveryTooLate | src/SimpleRADOSStriper.cc:711-714 | a recovery that finds the lock taken by another goes back to trying |
| LockProtocol.AttemptEnds | src/SimpleRADOSStriper.cc:589-607 | an attempt of a fenced client, or of one that still has the lock from an earlier failed attempt, fails without effect on the lock |
| LockProtocol.FaultEndsAttempt | src/SimpleRADOSStriper.cc:598-658 | any other failure ends the attempt, and leaves the lock to its lease |
| LockProtocol.SendingNeedsSession | src/SimpleRADOSStriper.cc:444-450 | only a client past lock that has not lost its session sends accesses, also if it was fenced without knowing |
| InodeGraph.AddEdgeAcyclic | fusetrace/fusetrace_ll.cc:149-158 | hanging an inode under a parent keeps the graph acyclic exactly when it is not the parent or one of its ancestors |
| InodeGraph.RehangAcyclic | fusetrace/fusetrace_ll.cc:149-158 | the same when the replaced entry and the entry that is moved away disappear at the same time |
| InodeGraph.AcyclicNoCycle | fusetrace/fusetrace_ll.cc:92-107 | no climb through parent links leads back to its start |
| InodeCache.RemoveDentry | fusetrace/fusetrace_ll.cc:135-147 | drops one entry and its mirror link and nothing else |
| InodeCache.AddDentry | fusetrace/fusetrace_ll.cc:149-158 | the new links exactly; the two-way links survive exactly when no other parent with that number links the child under that name |
| InodeCache.Attach | fusetrace/fusetrace_ll.cc:149-158 | without a clash, the cache stays acyclic exactly when the child is not above the parent |
| InodeCache.UnlinkInode | fusetrace/fusetrace_ll.cc:160-181 | terminates with no link to or from the inode, and all other links kept |
| InodeCache.NoLinks | fusetrace/fusetrace_ll.cc:160-181 | once an inode has no links, no live inode refers to it |
| InodeCache.Childless | fusetrace/fusetrace_ll.cc:201-213 | only an inode itself climbs to an inode that has no entries |
| InodeCache.Cache.RemoveInode | fusetrace/fusetrace_ll.cc:183-192 | drops the inode from cache and map; no live inode refers to it and only links to it are lost |
| InodeCache.Cache.AddInode | fusetrace/fusetrace_ll.cc:194-213 | caches or reuses an inode under one entry; the cache stays valid exactly when the child is not the parent itself; null exactly when a null entry would be dereferenced |
| InodeCache.Cache.Renumber | fusetrace/fusetrace_ll.cc:263-275 | a cached inode may take another number exactly when it has no entries, is not the root and is not the one listed under its old number |
| InodeCache.Cache.Lookup | fusetrace/fusetrace_ll.cc:260-289 | changes nothing if the stat fails; otherwise returns the cached entry with the current number, or caches a new inode that takes over the number; all other links kept; exactly when the cache stays valid |
| InodeCache.Cache.Unlink | fusetrace/fusetrace_ll.cc:798-806 | drops the entry and its mirror link if it is cached, and no other link |
| InodeCache.MoveDentry | fusetrace/fusetrace_ll.cc:884-887 | the two-way links survive a move exactly when directory numbers do not clash, and then the graph stays acyclic exactly when the entry is not moved below itself |
| InodeCache.Cache.Rename | fusetrace/fusetrace_ll.cc:880-890 | the new entries and parent links of all inodes, and the exact condition under which the cache stays valid |
| InodeCache.Cache.Link | fusetrace/fusetrace_ll.cc:932-939 | adds one entry and its mirror link, replacing what had that name, takes over the re-read number, and the exact condition under which the cache stays valid |
| InodeCache.Cache.Forget | fusetrace/fusetrace_ll.cc:308-326 | drops the inode and every link to it exactly when its references run out, ignores the root, changes nothing else, and keeps the cache valid |
| InodeCache.Cache.MakeInodePath | fusetrace/fusetrace_ll.cc:92-107 | terminates; on success the text starts with the base directory and a slash, and walking from the root by what stands between its slashes leads to the inode, for cached names that are not empty and hold no slash; otherwise some climb ends without a parent elsewhere than at the root |
| InodeCache.ResolvesSnoc | fusetrace/fusetrace_ll.cc:92-107 | a resolved path extended by an entry resolves to that entry |
| InodeCache.PiecesSnoc | fusetrace/fusetrace_ll.cc:99-104 | in a path cut at its slashes, a slash and a name add exactly that name |
| InodeCache.RenderReads | fusetrace/fusetrace_ll.cc:92-107 | the text that is built starts with the base directory and a slash, and cutting the rest at its slashes gives back the names |
| UdevMap.CompleteStays | src/krbd.cc:364-400 | no later event undoes a complete pair |
| UdevMap.SpecMatches | src/krbd.cc:82-120 | an rbd device compares equal exactly when pool and name are those of the image, a missing namespace counts as none and an empty snapshot as the head |
| UdevMap.CompleteFinds | src/krbd.cc:364-400 | a history is complete exactly when the first matching rbd device exists and has a block device |
| UdevMap.CandidatesSuffice | src/krbd.cc:376-381 | buffering only block devices with the prefix loses nothing |
| UdevMap.KnownAfter | src/krbd.cc:368-381 | handling an event keeps enough of the history to find the pair |
| UdevMap.Settle | src/krbd.cc:383-398 | the pair is complete exactly when the partner is buffered, and otherwise the buffer can be cleared |
| UdevMap.MapHandler.Handle | src/krbd.cc:364-400 | returns true at exactly the event that completes the history, and then reports the node, major and minor number of the first block device of the first rbd device whose pool, namespace, image and snapshot attributes are those asked for |
| UdevMap.UdevResultMeaning | src/krbd.cc:318-343 | a stream of events reports success exactly if it completes the pair |
| UdevMap.ItemsArrive | src/krbd.cc:317-344 | each wake-up adds its devices to the stream in order, then the error that ended the round, whether or not the kernel reported with it |
| UdevMap.UdevDecides | src/krbd.cc:318-343 | a stream succeeds exactly if the devices before its first error complete the pair, and otherwise ends with that error |
| UdevMap.CombineSays | src/krbd.cc:277-347 | what each result says about the wake-ups: not mapped is the kernel error, mapped is kernel success with the outcome of the stream, waiting is that one of them has not decided |
| UdevMap.DrainBatch | src/krbd.cc:317-344 | one round of receiving yields the stream's outcome or continues it; the handler is not called again after it accepted |
| UdevMap.WaitForMapping | src/krbd.cc:283-347 | stated on the wake-ups: a kernel error is returned as not mapped; after kernel success the result is mapped, with 0 if the devices completed the pair and else with the first udev error; it waits while the kernel has not reported or, after its success, the stream has decided nothing; how the two sources interleave does not matter |
| Glob.EscapedMatches | src/krbd.cc:623-628 | one escaped character other than a backslash matches exactly itself |
| Glob.EscapeOnly | src/krbd.cc:623-628 | names without metacharacters are left alone |
| Glob.EscapeExact | src/krbd.cc:623-628 | the escaped form of a name without backslashes matches that name and nothing else |
| Glob.BackslashesHalve | src/krbd.cc:623-628 | the pattern of a run of backslashes wants only half of it |
| Glob.EscapeExactly | src/krbd.cc:645-669 | an escaped name matches exactly that name if and only if the name contains no backslash |
| MixedRadix.RawIndexOffset | src/perf_histogram.h:190-205 | the index is the start block plus an offset below the block size |
| MixedRadix.RankUnrank | src/perf_histogram.h:190-205 | every position below the size is the index of its own valid bucket vector |
| MixedRadix.UnrankRank | src/perf_histogram.h:190-205 | every valid bucket vector is recovered from its index, which is below the size |
| PerfHistogram.Conservation | src/perf_histogram.h:104-124 | the counters sum to the number of calls since the reset |
| PerfHistogram.Marginal | src/perf_histogram.h:66-72 | summing over all axes but one gives the one-axis histogram fed only that axis's buckets |
| PerfHistogram.SumsMatch | src/perf_histogram.h:104-124 | any selection of counters adds up to the number of recorded vectors that fall into it |
| PerfHistogram.CountIsMultiplicity | src/perf_histogram.h:126-131 | no two bucket vectors share a counter |
| PerfHistogram.DumpReadsBack | src/perf_histogram.h:207-226 | the dump is properly nested, lists every counter once in index order, and a reader going by the nesting finds each counter at its bucket vector |
| PerfHistogram.Histogram.GetRawSize | src/perf_histogram.h:161-168 | computes the number of bucket vectors |
| PerfHistogram.Histogram.Reset | src/perf_histogram.h:104-110 | afterwards the counters record an empty history |
| PerfHistogram.Histogram.IncBucket | src/perf_histogram.h:119-124 | records one bucket vector |
| PerfHistogram.Histogram.Inc | src/perf_histogram.h:112-117 | records the vector of the values' buckets, for any bucket evaluator |
| PerfHistogram.Histogram.ReadBucket | src/perf_histogram.h:126-131 | returns how often exactly this bucket vector was recorded |
| PerfHistogram.Histogram.VisitValues | src/perf_histogram.h:207-226 | exactly when the 32-bit start index suffices, and that the recursive visitor then produces the specified nested dump |
| PerfHistogram.Histogram.DumpValues | src/perf_histogram.h:155-159 | the whole histogram is dumped exactly when it has less than 2^31 counters or no axis |
| AxisBuckets.BucketUnique | src/common/perf_histogram.cc:93-121 | the ranges of two buckets do not overlap |
| AxisBuckets.BucketBounds | src/common/perf_histogram.cc:59-67 | an inner bucket is one quant wide on a linear axis, and on a logarithmic axis doubles from one quant on |
| AxisBuckets.OuterBuckets | src/common/perf_histogram.cc:93-121 | the first bucket holds what is below the minimum and the last one everything above |
| AxisBuckets.QuantCompare | src/common/perf_histogram.cc:75-86 | comparing the quantised value is comparing the value with the scaled bound |
| AxisBuckets.GetBucketForAxis | src/common/perf_histogram.cc:69-91 | exactly when no step leaves 64 bits, and that the chosen bucket is then the one whose range contains the value, on both scales |
| AxisBuckets.BoundsFit | src/common/perf_histogram.cc:99-108 | if the last bounded bucket ends within 64 bits, so does every earlier one |
| AxisBuckets.GetAxisBucketRanges | src/common/perf_histogram.cc:93-121 | exactly when no step leaves 64 bits, and that the published range of a bucket then contains exactly the 64-bit values of that bucket |
| AxisBuckets.CountedWhereShown | src/common/perf_histogram.cc:69-121 | exactly when neither overflows, one published range contains a value, and it is the range of the bucket that is incremented |
| SqlitePath.ParseMatches | src/libcephsqlite.cc:382-398 | a path is accepted with a location exactly when one of the two expressions matches with these captures, given by the positions of the slashes in front, the colon and the slash behind it; the captures are unique |
| SqlitePath.PrintedMatches | src/libcephsqlite.cc:382-398 | the paths that match are exactly the printed locations behind any number of slashes |
| SqlitePath.RoundTrip | src/libcephsqlite.cc:668-675 | the canonical form parses back to the same location |
| SqlitePath.CanonicalForm | src/libcephsqlite.cc:661-687 | canonicalisation is idempotent, and two accepted paths have the same canonical form exactly when they name the same location |
| SqlitePath.FullPathnameMeaning | src/libcephsqlite.cc:661-687 | not found exactly if nothing matches; otherwise pool, colon, namespace, slash and name, if that leaves room for the terminating zero, and else cannot open |
| SqlitePath.CanonicalShortest | src/libcephsqlite.cc:382-398 | the canonical form is the only shortest accepted path for its location |

## Left out

- Striper `remove`, `stat`, `print_lockers`, logging and counters: they would only add easy members.
- The retry loop of `lock` as running code: it need not terminate; its steps are the actions of the lock protocol, and a failed final `open` inside `lock` is not one of them.
- One state for the lock and the pool together: the lock protocol follows accesses in flight without their content, and the pool model follows the content of one client's requests; `SessionStartsClean` and `RunsAlike` state the same refusal on either side.
- Leftover removals of a client that ignored an error are not part of the lock protocol, where `unlock` has waited for everything.
- Wrap-around of 64-bit offsets, sizes, versions and counters: numbers are unbounded in the striper, in the counters of the histogram and in the product of its axes.
- Address vectors with several addresses and the fallback spelling of the blocklist command: a client is one address.
- Cached inode attributes other than the number, permission checks, and the file system calls of fusetrace other than the stats of a lookup and of a link: the cache methods model what follows a successful call.
- The loop that closes the stray descriptors of an unlinked inode is a single assignment.
- The order of `std::map` in path rebuilding: any parent link may be taken, which covers the first one.
- The assertions that compare major and minor numbers in the udev handler, and everything in krbd outside mapping and enumeration patterns.
- Character classes, equivalence classes and collating symbols in bracket expressions: no escaped name produces one.
- SQLite VFS methods other than path handling, including the zero-filling of short reads.
- Extents.HoleShiftsData: shows one failing file; the exact condition for all files is in Extents.ReadBytesExact.
- StriperState.GrowingTruncateDangles: shows one failing pool; Sessions.GrowByTruncating gets to such a pool by calls, and the exact condition for all pools is in OsdRuns.MoveSafeExactly.
- Sessions.GrowByTruncating: says what follows if all its calls succeed; that they can is stated on the requests they send, in Sessions.GrowthDangles.
- SimpleStriper.Striper.ShrinkAlloc: asks for a target that covers the size and is 0 or a whole number of objects of at least 128 MiB; these are the only targets its two call sites pass (src/SimpleRADOSStriper.cc:352 and 362).
