# tcmu-runner in Dafny

tcmu-runner is the user-space half of a SCSI target: commands arrive in a ring shared with
the kernel, are dispatched to a storage handler and go back through the same ring.  This
project models the parts of it that carry state across calls and threads, and proves what
they keep in every run.  `dafny verify dfyconfig.toml` checks all of it.

| module | models |
|---|---|
| `Iovec` | the scatter-gather helpers of `api.c` and `qcow.c`, on addresses and bytes |
| `Refcount`, `TableCache` | packed reference counts; the least-used table cache of `qcow.c` |
| `QcowImage`, `QcowSteps`, `QcowCounts`, `QcowDisk`, `Qcow`, `QcowReplay`, `QcowOpen` | the qcow block mapper, versions 1 and 2, as a class over a file of bytes |
| `Ring` | the command ring of `libtcmu.c`, with the kernel's end of it |
| `Wakeup` | in-flight accounting and coalesced wakeups of `tcmur_aio.c` |
| `Commands` | a command's life from `main.c` through `tcmur_cmd_handler.c` to its completion |
| `Unmap`, `Compound`, `Caw` | splitting UNMAP; the WRITE SAME, EXTENDED COPY and COMPARE AND WRITE chains |
| `DeviceState`, `Recovery` | lock, reopen and stop of a device; the recovery lists of `target.c` |
| `Zbc`, `ZbcOpenAll`, `ZbcRead`, `ZbcView`, `ZbcReport` | the zoned device of `file_zbc.c` |
| `Arith`, `Bytes`, `Blocks` | division by a variable, powers of two; big-endian numbers and files; stores of blocks |

How the models are built:

- Code that changes things in place is a class whose methods follow the source's branches;
  each method's `ensures` ties the new state to the old one.
- Threads are steps of a transition system.  A critical section or a handler callout is one
  step, and steps of different threads interleave freely.
- A qcow image is a sequence of bytes with the two tables the driver keeps in memory.  Its
  meaning is `QcowImage.Disk`, the flat guest disk.  A ghost map says which table, block or
  guest cluster owns each host byte; `QcowImage.Inv` is the invariant over both.
- Bytes are numbers below 256, block contents are integers, and integers are unbounded
  except where wrap-around is written out (`Unmap`, table entries, report fields).
- Answers from outside are parameters, and what is proved holds for every such answer: in
  `Commands`, `Compound` and `Caw` what handlers report and whether requests are scheduled; in
  `Unmap` how many pieces are scheduled; in `DeviceState` what open, lock and the recovery list
  answer; in `Recovery` whether memory and ALUA groups are there; in `Zbc` what `pwrite`
  accepts; in `TableCache` where the file ends.  In `Qcow` the host's reads, writes and
  `fallocate` succeed.

## Main results

- Every sequence of reads and writes of a qcow image behaves like the same sequence on a
  flat disk: what each returns, what it leaves in memory and what it leaves on the disk
  (`QcowReplay.Replay`, `QcowReplay.LastWrite`).  Any number of sessions, each opening the file
  the one before left, share that disk (`QcowReplay.Sessions`), because every cluster in use is
  counted whenever the file is closed, full images included (`QcowCounts.CountStep`,
  `QcowCounts.TookNext`).  The host bytes of a cluster that may be shared are never
  written (`Qcow.QcowState.Pwritev`), because allocation only hands out bytes nobody owns
  (`Qcow.QcowState.GetClusterOffset`, `Qcow.QcowState.BlockAlloc2`).
- `qcow2_set_refcount` and the allocator recurse into each other and end; afterwards the
  target has its count, the blocks added on the way have count one and no other count has
  changed (`Qcow.QcowState.SetRefcount`).
- In every interleaving of the ring's four steps the mailbox tail stays behind the device
  tail and the kernel gets back exactly the ids completed, in that order (`Ring.EveryRun`).
- No wakeup is lost for any number of completing threads (`Wakeup.NoLostWakeup`).
- In every interleaving of dispatches, callbacks, UNMAP pieces and any number of workers, which
  finish in any order (`Commands.SecondFirst`), each fetched command has been completed at most
  once, and exactly if nobody holds it any more (`Commands.EveryRun`); the code with its
  reference counts does the same (`Commands.Serve`).
- Every device that loses its connection is reopened as often as it was put on a recovery
  list (`Recovery.Serve`).
- A reopen closes the handler with no command in flight, open and close alternate, and a lost
  lock is not held again without a reopen (`DeviceState.CalloutsAreSafe`,
  `DeviceState.OpenCloseAlternate`, `DeviceState.LossNeedsReopen`).
- EXTENDED COPY is a copy, whatever the blocks hold, if and only if the ranges are disjoint,
  the destination does not come after the source, or one chunk suffices
  (`Compound.CopyExactly`).
- COMPARE AND WRITEs that overlap in time give what they give one at a time, in the order in
  which they release `caw_lock` (`Caw.EveryRun`), and every one of them ends
  (`Caw.EveryCommandEnds`).
- In every run of a zoned device each command does what it should and the counters, write
  pointers and tiling hold (`Zbc.Serve`); the budget of open zones holds throughout if and only
  if no OPEN ALL overruns it (`ZbcOpenAll.RunBudget`).  A write is seen by the guest as exactly
  that write if and only if it leaves no gap that the file fills with something else
  (`Zbc.WriteIsWrite`).

## Where a natural statement fails

- OPEN ALL can exceed the budget of open zones: `ZbcOpenAll.OpenAllOverrun` gives a device with
  two zones.  `ZbcOpenAll.OpenAllExact` says for every device whether it does, by one scan of
  the zones before the command.
- A lock can be held while `lock_lost` is set once the device is being stopped:
  `DeviceState.StoppingSkipsReopen` gives the run.  `DeviceState.LockedIsNotLost` says that this
  is so exactly after a reopen the lock thread has skipped.
- With an unmap alignment of zero, the default, a range that starts past the granularity is
  not split at all (`Unmap.ZeroAlignment`); the comment in the code expects the alignment to
  equal the granularity.
- A command whose CDB length is unknown is dropped and never returned to the kernel;
  `Ring.Drained` says that everything comes back exactly when the kernel queued no such command.
- COMPARE AND WRITE is not atomic against a plain WRITE, which does not take `caw_lock`:
  `Caw.Intruder` says of every such write whether some order of the two explains the outcome.
- After a failed table read the cache keeps the victim's old offset over a buffer that has
  been overwritten; `TableCache.Cache.Lookup` says exactly when the cache then disagrees with
  the file, `TableCache.LookupLoses` runs into it with all sixteen slots in use, and `Qcow`
  shows that its own lookups never fail that way.
- A zone that is reset and then finished shows what was written before the reset
  (`ZbcView.FinishAfterReset`, with a run in `ZbcView.ComesBack`).
- A read of a zoned device that goes past one zone may show zeros where there is data
  (`ZbcRead.HidesNextZone`), and a turn of its loop may ask for more blocks than are left
  (`ZbcRead.AsksTooMuch`).  `ZbcRead.ReadIsView` says of every read whether it delivers what the
  guest should see; inside one zone it does (`ZbcRead.InsideZone`).

## Model

| member | source | states |
|---|---|---|
| Iovec.Length | api.c:171-182 | the number of addresses the vector denotes |
| Iovec.Seek | api.c:142-160 | the vector left over denotes the old addresses without the first `count`; the result is the number of descriptors used up |
| Iovec.Compare | api.c:103-137 | -1 if memory and vector agree, otherwise the least index at which they differ |
| Iovec.MemcpyInto | api.c:260-285 | exactly min(length, capacity) bytes are stored at the vector's first addresses, nothing else changes, and those addresses are consumed |
| Iovec.MemcpyFrom | api.c:290-315 | exactly min(length, capacity) bytes of the buffer are the vector's first bytes, the rest is untouched, and they are consumed |
| Iovec.Segment | qcow.c:1171-1197 | the result denotes the addresses [off, off + len) of its input with no more descriptors |
| Iovec.Scatter | qcow.c:1199-1208 | bytes stored at distinct addresses are found there and nowhere else |
| Refcount.GetSet | qcow.c:805-861 | for every order, 0 to 6, setting one packed count sets that count and no other |
| Refcount.GetZeros | qcow.c:805-827 | a zeroed refcount block counts nothing |
| TableCache.Cache.Find | qcow.c:728-740 | the slot holding an offset, or that no slot holds it |
| TableCache.Cache.Victim | qcow.c:742-747 | the least used slot |
| TableCache.Cache.Lookup | qcow.c:719-755 | a hit or a miss yields the table as the file holds it, so the result does not depend on earlier evictions; a failed read leaves its bytes under the victim's old offset, and the cache then agrees with the file if and only if some slot was unused or the bytes are the same |
| TableCache.Overwrite | qcow.c:747-750 | a cached table overwritten in place agrees with the file if and only if its slot is unused or nothing changed |
| TableCache.LookupLoses | qcow.c:747-750 | from an unused cache, sixteen lookups of tables in a row succeed and leave no slot unused, the seventeenth is cut short by the end of the file, and the cache then disagrees with the file; every lookup of the sequence does what `Lookup` promises |
| TableCache.CoherentStore | qcow.c:975-981 | writing a cached table through keeps every slot equal to the file, and no two slots share an offset |
| QcowImage.L1IndexInRange | qcow.c:487-492 | every offset of the disk has an L1 index below l1_size |
| QcowOpen.Open1 | qcow.c:436-550 | a version 1 header that is accepted yields a geometry the model covers |
| QcowOpen.Open2 | qcow.c:552-699 | an accepted version 2 header yields the configured size and exactly the L1 size it states, which is an int and the least that covers the disk |
| QcowOpen.Open2Geometry | qcow.c:594-660 | that geometry is one the model covers, for every refcount order the code can count with |
| QcowOpen.Blank1 | qcow.c:503-515 | a blank version 1 image meets the invariant and reads as zeros |
| QcowOpen.Blank2 | qcow.c:636-655 | a blank version 2 image, each cluster in use counted once, meets the invariant and reads as zeros |
| QcowReplay.Reopen | qcow.c:624-684 | a file opened again shows the same disk; the allocator, starting at zero, is safe if and only if the image is of version 1 or every cluster in use is counted |
| QcowReplay.ReopenAfter | qcow.c:624-684 | an image that was opened and used can be opened again, with the same disk |
| QcowReplay.Session | qcow.c:505-540 | open, any sequence of requests, close: the file can be opened again and shows the disk the last request left; shared bytes are untouched |
| QcowReplay.Sessions | qcow.c:505-540 | any number of such sessions in a row: each begins with the memory and the disk the one before left, bytes that may be shared stay as they were before the first, and the file left behind can be opened again |
| QcowCounts.ScanSteady | qcow.c:996-999 | the scan for a free cluster enters a span without a refcount block only at its first cluster |
| QcowCounts.TookNext | qcow.c:960-967 | so the cluster behind it is free for that block, which then counts the whole span |
| QcowCounts.TakeStep | qcow.c:986-1011 | handing out a cluster leaves every cluster in use counted |
| QcowCounts.ClaimStep | qcow.c:1103-1110 | putting it to use leaves every cluster but itself counted |
| QcowCounts.CountStep | qcow.c:943-983 | counting it leaves every cluster in use counted, the new refcount blocks included; an exhausted image stays exhausted |
| Qcow.QcowState.constructor | qcow.c:505-540 | a freshly opened image is valid: tables read from the file, caches empty, the allocator at zero |
| Qcow.QcowState.RcLookup | qcow.c:863-898 | the cached refcount block is the one in the file, through hits and evictions |
| Qcow.QcowState.GetRefcount | qcow.c:900-922 | the count of a cluster as the refcount tree in the file has it |
| Qcow.QcowState.FindFree | qcow.c:996-999 | the first cluster at or after first_free_cluster with count zero; all before it are counted |
| Qcow.QcowState.BlockAlloc2 | qcow.c:986-1011 | the cluster handed out is zeroed, aligned, and no header, table, block or data byte of the image lies in it; failure means no free cluster is left |
| Qcow.QcowState.BlockAlloc1 | qcow.c:764-776 | version 1 hands out zeroed space past the end of the file |
| Qcow.QcowState.BlockAlloc | qcow.c:757-782 | either version's allocation leaves every owned byte and the guest disk alone |
| Qcow.QcowState.RcTableUpdate | qcow.c:924-941 | hanging a zeroed block into the refcount table changes no count and no guest byte |
| Qcow.QcowState.WriteCount | qcow.c:969-982 | one count changes, in cache and file, and nothing else |
| Qcow.QcowState.NewRefblock | qcow.c:960-967 | a missing refcount block is allocated, hung in and counts itself once |
| Qcow.QcowState.SetRefcount | qcow.c:943-983 | the recursion ends; the target has the given count, blocks added on the way have count one, all other counts are unchanged; for a cluster just handed out no allocation on the way fails |
| Qcow.QcowState.L1TableUpdate | qcow.c:784-801 | installing a zeroed L2 table maps nothing new; memory and file agree |
| Qcow.QcowState.EnsureL2 | qcow.c:1100-1113 | the L2 table of an index, allocated, zeroed and counted on demand, with the map unchanged |
| Qcow.QcowState.CountOnce | qcow.c:244-248 | afterwards the new cluster and every refcount block added are counted; no guest byte changes; version 1 counts nothing |
| Qcow.QcowState.L2Lookup | qcow.c:719-755 | the cached L2 table is the one in the file |
| Qcow.QcowState.L2TableUpdate | qcow.c:1013-1033 | the guest cluster's host is the new one, written through cache and file; the guest disk is unchanged |
| Qcow.QcowState.MapCluster | qcow.c:1127-1128 | mapping and counting a new host cluster keeps the guest disk |
| Qcow.QcowState.CopyOnWrite | qcow.c:1140-1165 | a possibly shared cluster gets a fresh host cluster with the same bytes; the old one is untouched |
| Qcow.QcowState.NewCluster | qcow.c:1123-1128 | an unallocated guest cluster gets a zeroed host cluster nobody used |
| Qcow.QcowState.ClusterIn | qcow.c:1115-1168 | zero, the mapped host, or a newly owned one, as the entry and `allocate` demand |
| Qcow.QcowState.GetClusterOffset | qcow.c:1090-1168 | the host of a guest offset; for writing, one owned by that guest cluster alone, unused before unless it was COPIED; the guest disk does not change |
| Qcow.QcowState.Preadv | qcow.c:1210-1268 | the guest disk's bytes reach memory, unallocated ranges as zeros, and the image does not change |
| Qcow.QcowState.ReadPiece | qcow.c:1231-1262 | the bytes of one cluster's share of a read are the guest disk's |
| Qcow.QcowState.Pwritev | qcow.c:1270-1320 | the guest disk is the old one with the bytes spliced in up to its end; header and shared bytes are untouched; the return value and the partial write on failure are exact |
| QcowReplay.Replay | qcow.c:1210-1320 | any sequence of requests, one moment after the other: a read fills exactly its buffers with the flat disk's bytes, a write splices its clipped bytes in, the return values are these lengths, and a write fails part way only when the allocator has nothing left |
| QcowReplay.LastWrite | qcow.c:1210-1320 | a read delivers to memory the byte that the last write before it took from memory |
| Ring.CommandRing.Enqueue | target_core_user_local.h:22-32 | the kernel's entry is the last of the queue the memory holds |
| Ring.CommandRing.GetNextCommand | libtcmu.c:959-1022 | the first command whose CDB is understood is handed out once; entries are passed in order, across wrap-around and PAD entries |
| Ring.CommandRing.CommandComplete | libtcmu.c:1148-1177 | the entry reused lies before the device tail and carries the id back; the mailbox tail does not pass the device tail |
| Ring.CommandRing.Reap | target_core_user_local.h:34-39 | the kernel reads exactly the ids the mailbox tail has passed |
| Ring.FetchMeans | libtcmu.c:966-1018 | a fetch hands out the first understood command, and only that one joins those outstanding |
| Ring.FetchFlags | libtcmu.c:1011-1014 | exactly the passed entries with an unknown opcode are flagged; no other entry changes |
| Ring.FetchDrops | libtcmu.c:978-985 | exactly the commands passed over for their CDB are dropped |
| Ring.CompleteAccounts | libtcmu.c:1153-1168 | a completion returns exactly its own id, whatever entry it reuses |
| Ring.EveryRun | libtcmu.c:937-1177 | in every interleaving: tails in order, command entries between them number those handed out and not completed (plus dropped), ids come back as completed, and no id is lost or doubled |
| Ring.NothingDropped | libtcmu.c:976-985 | if every CDB length is known nothing is ever dropped |
| Ring.DroppedExactly | libtcmu.c:978-985 | in every run the ids dropped and still to be dropped are those of the commands queued with a CDB of unknown length |
| Ring.Drained | libtcmu.c:978-985 | in every run, when all is fetched and completed, every id is back exactly once if and only if no command with a CDB of unknown length was queued |
| Ring.OneLost | libtcmu.c:978-985 | a run in which a command is queued, passed for its CDB and never returned |
| Wakeup.AioTrack.RequestStart | tcmur_aio.c:37-48 | one more operation in flight |
| Wakeup.AioTrack.RequestFinish | tcmur_aio.c:50-74 | one operation fewer; the caller owns the wakeup exactly when none was pending; a waiter is signalled exactly at zero |
| Wakeup.AioTrack.WakeupFinish | tcmur_aio.c:76-94 | the owner kicks again exactly when a wakeup was asked for meanwhile |
| Wakeup.StepKeeps | tcmur_cmd_handler.c:67-79 | every step keeps: one owner exactly while a wakeup is pending, and what its last kick has not seen is still pending |
| Wakeup.NoLostWakeup | tcmur_aio.c:50-94 | in every run with any number of threads: one owner exactly while pending, and once none is pending every counted completion is followed by a kick that began after it |
| Wakeup.AssertionsHold | tcmur_aio.c:58-87 | the two assertions in the code never fail |
| Wakeup.OwnerMoves | tcmur_cmd_handler.c:75-78 | while a wakeup is pending its owner can take its next step |
| Commands.Runner.Schedule | tcmur_aio.c:210-225 | a request is either owed a callback or queued, once, or refused and owed nothing |
| Commands.Runner.Finish | tcmur_cmd_handler.c:67-79 | a command nobody holds is completed and no longer tracked |
| Commands.Runner.Put | tcmur_cmd_handler.c:241-264 | the command is completed by the last reference and by no other |
| Commands.Runner.Callback | tcmur_cmd_handler.c:584-627 | the command is completed exactly by its last callback: a single request's, a chain's that does not go on, the last piece's; a chain that goes on holds one request again |
| Commands.Runner.HandlerDone | tcmur_cmd_handler.c:81-86 | an asynchronous handler's callback completes the command exactly if it is the last |
| Commands.Runner.TakeWork | tcmur_aio.c:152-164 | a free worker takes the oldest request, which changes hands and is held by as many as before |
| Commands.Runner.WorkerDone | tcmur_aio.c:167-173 | the callback of any worker that has a request completes the command exactly if it is the last |
| Commands.Runner.UnmapGet | tcmur_cmd_handler.c:365-367 | the submitter holds one more reference until the piece is scheduled or refused |
| Commands.Runner.UnmapInit | tcmur_cmd_handler.c:214-239 | the submitter holds the first reference |
| Commands.Runner.UnmapPiece | tcmur_cmd_handler.c:369-391 | the reference goes to the piece if it is accepted and is given back if it is refused |
| Commands.Runner.UnmapEnd | tcmur_cmd_handler.c:440-454 | dropping the submitter's reference completes the command exactly when no piece is left |
| Commands.Runner.Track | tcmur_aio.c:37-48 | a fetched command becomes tracked |
| Commands.Runner.Untrack | tcmur_cmd_handler.c:2199-2202 | a command answered at once stops being tracked |
| Commands.Runner.FirstRequest | tcmur_cmd_handler.c:743-749 | the first request is in flight, or refused with the command still in hand |
| Commands.Runner.TryPassthrough | tcmur_cmd_handler.c:2284-2302 | the command stays tracked exactly if the handler took it |
| Commands.Runner.CmdHandler | tcmur_cmd_handler.c:2115-2203 | in flight and tracked exactly if not in recovery, supported, permitted, checked and accepted; otherwise answered and untracked |
| Commands.Runner.GenericHandle | tcmur_cmd_handler.c:2366-2394 | the same over pending unit attentions, formatting, passthrough and emulated commands |
| Commands.Runner.CompleteNow | main.c:796-799 | a command answered at once is completed once by the dispatch loop |
| Commands.Runner.Dispatch | main.c:772-800 | the command is completed at once or left in flight, exactly as its route says; the invariant holds on every path |
| Commands.Runner.ExactlyOnce | main.c:788-799 | completed at most once, and completed exactly when nobody holds it; tracked_aio_ops is the number of commands started and not finished |
| Commands.StepKeeps | tcmur_cmd_handler.c:203-276 | every event keeps: a fetched command that is held is not completed, one that nobody holds is completed once, and only a split command has several holders |
| Commands.EveryRun | main.c:788-799 | in every run, with any number of workers, the commands on the books are those fetched, each completed at most once, and completed exactly if nobody holds it |
| Commands.SomethingToCome | tcmur_aio.c:141-178 | while a fetched command is not completed a callback for it or a step of its submission is still to come, or it waits in the work queue and a free worker can take the oldest request or, if none is free, a busy one can call back |
| Commands.SecondFirst | tcmur_aio.c:141-178 | with two workers the command fetched second can be completed first |
| Commands.Serve | tcmur_cmd_handler.c:203-276 | the code, with its reference counts, does exactly what these rules say for any sequence of events, and tracks exactly the commands not completed |
| Unmap.AlignAndSplit | tcmur_cmd_handler.c:288-391 | the pieces' blocks are exactly the range's, in order, in wrapping arithmetic; only the first may be empty, later ones are at most the granularity and all but the last equal to it; a refusal leaves a prefix |
| Unmap.WrapIsMod | tcmur_cmd_handler.c:293-326 | the arithmetic used is that of uint64_t |
| Unmap.AndMask | tcmur_cmd_handler.c:322-325 | masking with a power of two less one is the remainder |
| Unmap.Aligned | tcmur_cmd_handler.c:302-326 | with alignment equal to a power-of-two granularity every later piece starts on a boundary and no piece crosses one |
| Unmap.ZeroAlignment | tcmur_cmd_handler.c:320-326 | with alignment zero the mask is all ones: the first piece is cut at the granularity, or is the whole range if it starts past it |
| Compound.WriteLbasInRange | tcmur_cmd_handler.c:727-729 | the first WRITE SAME request is at least one block and at most the range |
| Compound.WriteSame.constructor | tcmur_cmd_handler.c:706-750 | nothing is written yet and the first request is in range |
| Compound.WriteSame.Link | tcmur_cmd_handler.c:584-627 | one request and its callback: more blocks done, or the chain ends with its status |
| Compound.WriteSame.Write | tcmur_cmd_handler.c:568-582 | a successful request fills its blocks and appends them to what is written |
| Compound.WriteSame.Spoil | tcmur_cmd_handler.c:594-596 | a failed request touches only blocks of the range |
| Compound.WriteSame.Run | tcmur_cmd_handler.c:584-627 | the chain ends; on success each block of the range has been written once, in order, and nothing else; on failure nothing outside the range has changed |
| Compound.Xcopy.constructor | tcmur_cmd_handler.c:1483-1552 | the chunk limit is the smaller of the two devices' and the copy has not begun |
| Compound.Xcopy.Link | tcmur_cmd_handler.c:1392-1480 | a read, a write and their callbacks move one chunk or end the chain; blocks outside the destination stay as they are |
| Compound.Xcopy.Spoil | tcmur_cmd_handler.c:1392-1400 | a failed write touches only blocks of the destination |
| Compound.Xcopy.Copy | tcmur_cmd_handler.c:1426-1480 | one chunk read and written brings the store one chunk nearer its goal |
| Compound.Xcopy.Run | tcmur_cmd_handler.c:1392-1480 | the chain ends; on success the store is that of the chunked copy, and a copy of the original source whenever the copy is safe; in any case nothing outside the destination has changed |
| Compound.SafeCopy | tcmur_cmd_handler.c:1408-1420 | disjoint ranges, destination not after source, or a single chunk: destination equals original source, nothing else changes |
| Compound.UnsafeCopy | tcmur_cmd_handler.c:1408-1420 | otherwise some store is not copied |
| Compound.CopyExactly | tcmur_cmd_handler.c:1392-1480 | the copy is right for every store if and only if it is safe |
| Caw.FirstDifference | api.c:103-137 | -1 exactly if the two agree, otherwise the index before which they agree and at which they differ |
| Caw.StepKeeps | tcmur_cmd_handler.c:1554-1691 | every step keeps: only the lock's holder is between its read and its end, what it read is still there, and the log so far is serial |
| Caw.EveryRun | tcmur_cmd_handler.c:1554-1691 | in every interleaving whose plain writes change nothing a command has read and not yet acted on, contents and results are those of the commands one at a time in order of unlocking, each listed once, with the plain writes between them |
| Caw.EveryCommandEnds | tcmur_cmd_handler.c:1681-1690 | while a command is not completed some command can move, and together they move at most four times each |
| Caw.Intruder | tcmur_cmd_handler.c:1586-1610 | after a plain write between read and write, WRITE first explains the outcome if and only if it agrees with the expected bytes, WRITE last if and only if it agrees with the written ones |
| Compound.BetweenDevices | tcmur_cmd_handler.c:1524-1528 | between different devices every copy is safe |
| DeviceState.StepKeeps | tcmur_device.c:41-148 | every step of commands, reopen, acquisition and stop keeps the six invariants |
| DeviceState.CalloutsAreSafe | tcmur_device.c:80-115 | when a reopen closes the handler no command that passed the recovery test is in flight; close meets an open handler and open a closed one |
| DeviceState.OpenCloseAlternate | main.c:583-623 | in every run open and close alternate, stop included |
| DeviceState.LockingIsAcquiring | alua.c:552-599 | LOCKING holds exactly while one acquisition is in flight; only its end leaves that state, only an implicit transition enters it |
| DeviceState.LockedIsNotLost | tcmur_device.c:366-476 | while LOCKED, lock_lost is set if and only if the lock thread has skipped a reopen since the last open, which happens only on a device being stopped |
| DeviceState.LossNeedsReopen | tcmur_device.c:217-232 | between a loss and the next time the lock is held there is a successful open, unless the device is stopping |
| DeviceState.StoppingSkipsReopen | tcmur_device.c:50-53 | a run in which a stopping device holds the lock with lock_lost set |
| Recovery.Lists.OnList | target.c:161-170 | the listed group of a port group, or that there is none |
| Recovery.Lists.FindGroup | target.c:297-318 | the first port whose group is being recovered, else the last enabled port, else none |
| Recovery.Lists.AddTo | target.c:340-341 | a device joins one group, which has not been unlinked |
| Recovery.Lists.NewGroup | target.c:320-338 | a new group joins the list; no two listed groups are of the same port group |
| Recovery.Lists.NotifyConnLost | target.c:279-346 | the device joins the group of its first port that is being recovered, else a new group of its last enabled port, exactly if it is not stopping or in recovery and a group is there or can be set up; otherwise nothing changes |
| Recovery.Lists.SetFlag | tcmur_device.c:179-207 | IN_RECOVERY is set before state_lock is released |
| Recovery.Lists.Unlink | target.c:230-234 | an unlinked group keeps its devices and gets no more |
| Recovery.Lists.TakeDevice | target.c:252-253 | devices come off the list one by one |
| Recovery.Lists.BeginReopen | target.c:254-254 | IN_RECOVERY is visible at the reopen's first step |
| Recovery.Lists.EndReopen | target.c:252-262 | the device is reopened once more and is at no group |
| Recovery.Lists.FreeGroup | target.c:275-277 | a group is freed with no device left at it |
| Recovery.Lists.LockerBegins | tcmur_device.c:135-148 | a lock thread reopens exactly if IN_RECOVERY is clear |
| Recovery.Totals | target.c:215-346 | how often a device was put on a list and how often it was reopened is the number of such steps of the run |
| Recovery.Serve | target.c:215-346 | every event does its step, and in every interleaving a device was put on a list as often as it was reopened, and once more if its flag is set or being set; with no group left no flag is |
| Zbc.FormatMeta | file_zbc.c:628-741 | a fresh format: refused exactly for too many conventional zones; otherwise zone i at i times the zone size, conventional then empty, a positive budget |
| Zbc.FormatZones | file_zbc.c:702-734 | the zones tile the capacity, conventional ones first, each sequential one empty |
| Zbc.ZonedDevice.Format | file_zbc.c:628-741 | a fresh device meets the invariant with no zone open |
| Zbc.ZonedDevice.InitMeta | file_zbc.c:748-769 | opening an existing device closes every open zone and zeroes the counters |
| Zbc.ZoneOf | file_zbc.c:1197-1211 | every block lies in the zone its number names |
| Zbc.ZonedDevice.GetZone | file_zbc.c:1197-1211 | the zone of a block; with `lowest`, found exactly when some zone starts there |
| Zbc.CloseZone | file_zbc.c:1364-1382 | a closed zone is EMPTY or CLOSED as its write pointer demands |
| Zbc.FinishZone | file_zbc.c:1528-1548 | finishing keeps a zone's condition and write pointer consistent |
| Zbc.ResetZone | file_zbc.c:1590-1603 | so does resetting |
| Zbc.ZonedDevice.Close | file_zbc.c:1364-1382 | one zone is closed and its counter falls |
| Zbc.ZonedDevice.CloseImpOpen | file_zbc.c:1387-1397 | whenever a zone is implicitly open the first such zone is found and closed |
| Zbc.ZonedDevice.Open | file_zbc.c:1402-1422 | one zone is opened; at most one other, implicitly open, is closed to make room, exactly when the budget is used up |
| Zbc.ZonedDevice.OpenOne | file_zbc.c:1459-1486 | status and zones after OPEN ZONE are exact; no more zones are open than the budget allows or than were before |
| Zbc.ZonedDevice.OpenExplicitly | file_zbc.c:1466-1486 | refused exactly when explicitly open zones fill the budget; otherwise the zone is explicitly open unless full |
| Zbc.ZonedDevice.OpenShut | file_zbc.c:1402-1422 | the zone is explicitly open, the first implicitly open zone evicted exactly when there is no room |
| Zbc.ZonedDevice.OpenAll | file_zbc.c:1437-1457 | refused exactly when explicitly open and closed zones exceed the budget; otherwise the zones are those of one pass that opens each zone it finds closed |
| ZbcOpenAll.OpenAllOverrun | file_zbc.c:1451-1454 | a device on which OPEN ALL exceeds the budget |
| ZbcOpenAll.OpenAllCounts | file_zbc.c:1451-1454 | how many zones are explicitly and implicitly open after OPEN ALL, from one scan of the zones before it |
| ZbcOpenAll.OpenAllExact | file_zbc.c:1437-1457 | from within the budget OPEN ALL exceeds it if and only if that scan counts more zones to open than are not explicitly open |
| ZbcOpenAll.OpenAllFits | file_zbc.c:1451-1454 | when open and closed zones fit the budget every closed zone is opened and nothing else changes |
| ZbcOpenAll.RunBudget | file_zbc.c:1364-2193 | a run that begins within the budget stays within it throughout if and only if no OPEN ALL in it overruns |
| Zbc.ZonedDevice.CloseCommand | file_zbc.c:1491-1523 | closes the named zone or all of them, nothing else; the status says exactly whether the zone may be named |
| Zbc.ZonedDevice.FinishCommand | file_zbc.c:1528-1585 | finishes the named zone, or all that are not empty, nothing else |
| Zbc.ZonedDevice.ResetCommand | file_zbc.c:1590-1640 | resets the named zone or all sequential ones, nothing else |
| Zbc.ZonedDevice.CheckZones | file_zbc.c:2017-2096 | the status of the first zone passed over that forbids the write, or that none does |
| Zbc.MayWriteExactly | file_zbc.c:2017-2096 | inside one zone a write may begin exactly if the zone is not full and a required sequential write starts at the write pointer and stays in the zone |
| Zbc.ZonedDevice.Prepare | file_zbc.c:2139-2148 | refused exactly if the zone is shut and explicit zones fill the budget; otherwise the zone is open, and the first implicitly open zone has been closed for it exactly when the budget was used up |
| Zbc.ZonedDevice.Store | file_zbc.c:2150-2188 | blocks stored, write pointer advanced, the zone FULL exactly at its end |
| Zbc.ZonedDevice.Write | file_zbc.c:2101-2193 | status, zones and blocks after a write are exact, also when it stops part way; counters and tiling hold, and no more zones are open than the budget allows or than were before |
| ZbcRead.Read | file_zbc.c:1913-1969 | for a read over any zones: refused exactly if a host managed device shows it two kinds of zone, too many blocks in a turn exactly if its last zone is too long for it, and otherwise the data up to the first blank block and zeros from there on |
| ZbcRead.ReadIsView | file_zbc.c:1936-1951 | a read delivers what the guest should see if and only if it is permitted, its last zone is not too long for it and only zeros should be seen after its first blank block |
| ZbcRead.InsideZone | file_zbc.c:1936-1951 | inside one zone every read delivers what the guest should see |
| ZbcRead.HidesNextZone | file_zbc.c:1936-1941 | two zones of which the second is hidden by the first |
| ZbcRead.AsksTooMuch | file_zbc.c:1947-1950 | two zones and a read whose second turn asks for more than is left |
| Zbc.WriteSeen | file_zbc.c:2159-2185 | after a write the guest sees the blocks written, old contents elsewhere, and the file's bytes in a gap |
| Zbc.WriteIsWrite | file_zbc.c:2174-2177 | what a WRITE stored is seen as exactly that write if and only if no gap shows nonzero bytes |
| Zbc.ResetAndFinishSeen | file_zbc.c:1528-1603 | a reset zone reads as zeros; a finished one shows the file from the old write pointer on |
| Zbc.SameView | file_zbc.c:1364-1422 | opening, closing and eviction change nothing the guest reads |
| Zbc.Serve | file_zbc.c:1364-2193 | in any sequence of commands each does what its contract says to zones, data and counters, and after each the counters count, the zones tile the capacity and only OPEN ALL can have exceeded the budget |
| ZbcView.EveryBlock | file_zbc.c:1913-2193 | after any sequence of commands a block shows what was last written to it, whatever resets came between, if it is shown, and zeros if not; a reset of its zone hides it, a finish or a write beyond it shows it |
| ZbcView.FinishAfterReset | file_zbc.c:1528-1603 | a block reset and then finished without a write in between shows zeros and then what it held before the reset |
| ZbcView.ComesBack | file_zbc.c:1528-1603 | such a run: a block is written, its zone reset and then finished, and the block shows 7, 0 and 7 again |
| ZbcReport.CountPass | file_zbc.c:1290-1315 | stays in the zone array; counts all matching zones, or with PARTIAL those that fit the allocation length |
| Zbc.NextZone | file_zbc.c:1312-1315 | zone i ends at the start of zone i + 1, or at the capacity if it is the last |
| ZbcReport.EmitPass | file_zbc.c:1327-1354 | stays in the zone array; emits the longest prefix of the matching zones that fits |
| ZbcReport.Report | file_zbc.c:1252-1359 | header and descriptors as bytes; with PARTIAL and buffer equal to allocation length the two passes agree |
| ZbcReport.DescriptorReads | file_zbc.c:1334-1346 | a host that reads a descriptor finds the zone's type, condition, flags, length, start and write pointer |
| ZbcReport.HeaderReads | file_zbc.c:1317-1325 | the header's length field reads 64 bytes for each zone counted while that fits 32 bits, and its last field the last block |
| ZbcReport.MatchingOnly | file_zbc.c:1216-1247 | every zone reported matches, in zone order |

## Left out

- Qcow: backing files, compressed and zero-flag clusters, snapshots that share L2 tables and growth of the refcount table; host I/O is taken to succeed. For refcount order 6 the assertion before a count is set shifts by 64, which C leaves undefined; it is taken to hold. Past the end of the refcount table the code reads outside its table, where the model reports that nothing is free.
- Qcow.QcowState.SetRefcount: a count of zero is only set below first_free_cluster; no caller sets one.
- Qcow.QcowState.Preadv: reads stay inside the disk, as the SCSI layer checks before; buffers do not overlap.
- TableCache.Cache.Lookup: use counts are unbounded; the loop that halves them at INT_MAX is not modelled.
- QcowOpen.Open2Geometry: assumes a refcount table that counts clusters below the flag bits; the code does not check it.
- Ring: the contents of commands (CDB, iovecs, sense data), memory barriers and the kernel's own checks; the kernel is taken never to fill the ring completely.
- Wakeup: spurious wakeups, and two waiters for an empty queue.
- Commands: a dispatch and a callback are one step each; handlers that only pass commands through without worker threads, which are not tracked; which status an UNMAP reports; timeouts; memory lifetime.
- Compound.WriteSame.Run: other commands writing the same blocks meanwhile.
- Compound.Xcopy.Run: parameter list parsing; other commands writing the same blocks meanwhile.
- Unmap.AlignAndSplit: works in blocks; the shift to bytes and the debug output are not modelled.
- Caw: the data-out buffer is one iovec; the checks before the chain (zero blocks, the largest length, the LBA range) are not modelled, and a handler's read or write takes effect when it completes.
- WRITE AND VERIFY and FORMAT UNIT: they are chains like those modelled, with a progress counter or a second read added.
- DeviceState: explicit failover, failing queue waits, and EXTENDED COPY issued through another device; a recovery thread may also give up, which allows more runs than the code.
- Recovery: the target-layer calls that disable and enable a port group.
- ZbcRead.Read: one buffer of a command, with a `pread` that succeeds; the model stops where a turn asks for more blocks than are left, and the code goes on.
- Zbc.ZonedDevice.Write: pwrite accepts whole blocks; the check of the buffer length against the transfer length is not modelled.
- Mode pages, inquiry pages, sense tables, ALUA group state, configfs, netlink, D-Bus, logging, configuration files and the rbd, glfs, ram, dbd and optical handlers: fixed data or wrappers that would only add easy members.
