# xv6-pdx in Dafny

This project models the parts of the xv6-pdx teaching kernel whose correctness is hard to see from
the code, and proves what they promise. It follows the default build, in which `CS333_P1` to
`CS333_P5` are on: processes live on state lists, scheduling is a multi-level feedback queue, and
inodes have ten direct blocks. Sizes such as NPROC, NBUF, LOGSIZE, MAX and BUDGET are parameters, so
the results hold for every choice of them.

Code that changes things step by step is written as classes and loops, and each method is proved
against a function on values. Whole-system results are theorems about those functions over every
run.

| files | what they cover |
|---|---|
| `Common` | the option type, bytes and small functions that the other modules share |
| `LogMachine`, `LogTheorems`, `LogReservation`, `LogCode` | the write-ahead log: a state machine with one atomic block write per step, crash atomicity over all runs, log space reservation, and log.c with its loops |
| `BufferRing`, `BufferCache`, `LogBuffers` | bio.c and the request queue of ide.c: the LRU ring, recycling, agreement with the cache that the log's model uses, and a commit that finds no buffer |
| `SchedModel`, `SchedInvariant`, `SchedTheorems`, `SchedStarvation`, `SchedScans`, `SchedLaws`, `SchedLists`, `SchedLoops`, `SchedCode` | proc.c: state lists, MLFQ, fork, exit, wait, kill; invariants of every run, a starvation bound, agreement with the table scans, laws of dispatch, promotion, charging, sleep, wait and fork over runs, and the linked-list code |
| `MallocModel`, `Malloc` | umalloc.c, the allocator of Section 8.7 of The C Programming Language, 2nd edition |
| `FsModel`, `FsCode` | fs.c and file.c: block ownership, files as byte sequences, free blocks needed, what each write logs, filewrite's chunks |
| `FsCrash` | the file system as disk blocks, filewrite's transactions as the log's history, and what a crash leaves of the file |
| `FsImage`, `Mkfs`, `FsShipped` | mkfs.c: building the image, what it holds, and runs with the shipped sizes |
| `Directory`, `DirCode`, `Path` | directories as finite maps on names, dirlookup, dirlink and unlink through readi and writei, path names as folds of lookup from directory file to directory file |
| `ShellModel`, `ShellLines`, `Shell` | the shell's parser: exactly the lines of a grammar, each read as what it means, and NUL termination in place |
| `Pipe` | the pipe ring with 32-bit counters |
| `Grep` | the matcher of Chapter 9 of The Practice of Programming, against the language of its patterns |

## Hypotheses

- A critical section (from acquiring a lock to releasing it or sleeping) is one step. In the log, the
  two checks at the start of `log_write`, which read the header length before the lock is taken, are
  part of the same step as the rest of it.
- The file system changes a buffer's contents only inside an operation, and hands the buffer to
  `log_write` before it releases it or ends the operation.
- Block reads and writes succeed, and a block write is atomic (BSIZE is the sector size).
- A file system operation hands at most MAXOPBLOCKS different blocks to `log_write`, each as often as it
  likes. This is a hypothesis of the reservation results; `filewrite` does not keep to it (see Findings).
- While it commits, a thread finds the buffers of the logged blocks and of the log free; buffers of
  other blocks may be held by anyone. That another thread holds one of the former is a step of the
  state machine in which the committing thread waits.
- `ticks` and `nextpid` do not wrap, and a process runs for less than 2^31 ticks at a time.
- kalloc, copyuvm and sbrk either succeed or fail; which one is not determined. sbrk's memory is
  aligned to headers, lies above the allocator's static `base`, and as much of it as was asked for has
  not been handed out before.
- In the results about a crash during `filewrite`, no other operation is in the history.
- An UNUSED slot may keep a stale pid and killed flag after a failed fork; no result assumes that it
  is cleared.

## Findings

- `mkfs` gives the log LOGSIZE blocks including the header block (mkfs.c:25), but `log_write` panics
  when `n >= size - 1` (log.c:215), so three operations within their budgets can reach the panic.
  `PanicIffLogTooSmall` proves that the panic is unreachable for blocks that an operation has not logged
  yet if and only if the log has at least LOGSIZE + 1 blocks.
- `log_write` tests for a full header before it looks whether the block is in it. Even with that block
  added, an operation that logs one of its blocks again panics exactly when the header holds LOGSIZE
  blocks; every operation has then used up its budget (`RepeatPanicsIff`). Such a run exists for every
  log size (`RepeatCanPanic`).
- With that block added, a commit of LOGSIZE blocks is reachable (`FullCommitReachable`). A commit finds
  a buffer for its log blocks, when no clean buffer is held, if and only if fewer blocks are logged than
  there are buffers (`CommitServedIff`). NBUF equals LOGSIZE (param.h:11-12), and `CommitWithoutBuffer`
  is a run to a commit that finds none.
- `kill` on lists and `kill` by table scan differ exactly on pids that an UNUSED or ZOMBIE slot
  carries (`KillAgreesIff`); `KillsDiffer` is a run from boot that ends with such a zombie.
- Rounding up the root directory's size (mkfs.c:158-163) leaves an unmapped block exactly when the
  entries fill their last block (`RoundUp`, `Make`); with thirty files they do (`RootWithHole`).
- `mkfs` does not count inodes. Its inode blocks have room for 208 (mkfs.c:24), the next eight land in the
  bitmap block, which is written over them at the end, and those after that in data blocks. Every file
  is there if and only if their number plus two is at most 208; what the kernel sees obeys the ownership
  invariant if and only if the files that are lost are empty (`Make`). With 207 files the last one is
  lost and its block leaks (`LostInode`).
- `mkfs` does not count blocks either, but reads each block before it writes it (mkfs.c:285, 293), so it
  exits when the image is full: it runs to its end only if the blocks in use fit FSSIZE (`Make`);
  `ImageFull` is an input for which they do not.
- `malloc` computes its number of units in 32 bits: the block has room for the request if and only if
  the request is at most 2^32 - 8 bytes (`RoomIff`). sbrk, which takes a signed int, is asked for what
  is used if and only if the request is at most 2^31 - 16 bytes or wraps (`AskIff`); a request for
  2^31 bytes hands it a negative number (`NegativeRequest`). `Malloc` uses memory it was not given
  exactly when sbrk succeeds on such a request.
- `filewrite` sizes its chunks from LOGSIZE, while `begin_op` reserves MAXOPBLOCKS per operation. One
  chunk always fits LOGSIZE (`ChunkBound`). `FileWrite` counts what each transaction logs, from the
  offset, the length and the size of the file. A chunk of up to 127 blocks stays within MAXOPBLOCKS at
  every offset if and only if it is at most (MAXOPBLOCKS - 4) * 512 + 1 bytes (`WithinBudgetIff`), and
  the first full chunk of a new file never does (`FullChunkOverBudget`): with the shipped sizes it logs 16 blocks
  (`OverBudget`). The budget is the one of the reservation: it counts different blocks.
- A read with no operation open panics exactly when it meets a hole (`Readi`): `fileread` opens none, and
  a read of the root directory of the image with thirty files at its hole does (`ReadAtHole`).
- A killed writer that fills a pipe and leaves does not wake a sleeping reader. `Pipe.Write` states,
  from the state before the call, exactly when a write leaves a reader asleep beside bytes it could
  read; `StuckReader` reaches it.

## Model

| member | source | states |
|---|---|---|
| `LogTheorems.CrashAtomicity` | xv6-pdx/log.c:68-121 | crash after any run, recover, crash again inside recovery any number of times: when recovery ends the home blocks are exactly the effect of the groups whose write_head had finished, and no operation is partly included |
| `LogTheorems.CommitSurvives` | xv6-pdx/log.c:144-199 | what the file system had done when a committing end_op returned is a prefix of every later history, crashes included |
| `LogTheorems.ReadsAreCurrent` | xv6-pdx/log.c:174-230 | in every phase of a commit, bread of a home block returns the effect of all log_writes so far |
| `LogTheorems.CommitRunsAlone` | xv6-pdx/log.c:125-171 | in every reachable state: while a commit runs no operation is outstanding, and header entries are distinct home blocks |
| `LogTheorems.RunKeeps` | xv6-pdx/log.c:68-230 | every legal run of begin_op, log_write, end_op, commit steps, evictions and crashes keeps the invariant that ties cache, disk, header and history together |
| `LogTheorems.RunDurable` | xv6-pdx/log.c:190-199 | the durable prefix of the history only grows and is never rewritten |
| `LogMachine.DiskHoldsCommitted` | xv6-pdx/log.c:84-121 | at every moment the disk alone, read through its log header, determines the committed contents of every home block |
| `LogMachine.LogWriteKeeps` | xv6-pdx/log.c:211-230 | absorbing or recording a block keeps the invariant |
| `LogMachine.WriteLogKeeps` | xv6-pdx/log.c:174-187 | copying one cached block to the log keeps the invariant |
| `LogMachine.WriteHeadKeeps` | xv6-pdx/log.c:100-112 | the header write that makes a group durable keeps the invariant |
| `LogMachine.InstallKeeps` | xv6-pdx/log.c:68-81 | installing one block keeps the invariant, during commit and during recovery |
| `LogMachine.EraseHeadKeeps` | xv6-pdx/log.c:114-121 | clearing the header on disk keeps the invariant |
| `LogMachine.CrashKeeps` | xv6-pdx/log.c:84-121 | losing memory at any moment leaves a state from which recovery starts |
| `LogMachine.ReadHeadKeeps` | xv6-pdx/log.c:84-97 | reading the header back after a crash keeps the invariant |
| `LogReservation.ReservationHolds` | xv6-pdx/log.c:125-142 | in every run in which each operation logs at most MAXOPBLOCKS different blocks, header length plus unused reservations never exceeds LOGSIZE |
| `LogReservation.EnoughLogBlocks` | xv6-pdx/log.c:211-218 | with LOGSIZE + 1 log blocks no operation that has logged fewer than MAXOPBLOCKS different blocks meets a log_write panic |
| `LogReservation.PanicIffLogTooSmall` | xv6-pdx/log.c:215-218 | those panics are unreachable if and only if the log has a block for the header beside LOGSIZE data blocks |
| `LogReservation.RepeatPanicsIff` | xv6-pdx/log.c:215-226 | with that block, a log_write within budget panics if and only if LOGSIZE blocks are logged; then the operation has logged this block before and every operation has used its whole budget |
| `LogReservation.RepeatCanPanic` | xv6-pdx/log.c:215-226 | for every log size a run within budget reaches a log_write that panics, with LOGSIZE + 1 blocks one of a block already logged |
| `LogReservation.FullCommitReachable` | xv6-pdx/log.c:124-171 | with LOGSIZE + 1 log blocks, a run within budget reaches a commit of LOGSIZE blocks with every buffer released |
| `LogReservation.ShippedImageCanPanic` | xv6-pdx/mkfs.c:25 | the image mkfs builds, with nlog = LOGSIZE, does not have that block |
| `LogCode.Log.Invariant` | xv6-pdx/log.c:37-50 | the log object is always in a state that a legal run of the state machine reaches, so every theorem above applies to it |
| `LogCode.Log.constructor` | xv6-pdx/log.c:52-66 | a log over any disk image with a readable header starts such a run, about to recover |
| `LogCode.Log.BeginOp` | xv6-pdx/log.c:124-142 | an operation is admitted exactly when no commit runs and LOGSIZE covers one more MAXOPBLOCKS; otherwise nothing changes |
| `LogCode.Log.Record` | xv6-pdx/log.c:220-228 | the absorption loop leaves the header as it was if the block is in it, and appends the block if not |
| `LogCode.Log.LogWrite` | xv6-pdx/log.c:210-230 | panics exactly when the checks say so, and otherwise takes the state machine's step |
| `LogCode.Log.WriteLogBlocks` | xv6-pdx/log.c:174-187 | the loop copies every logged block and ends ready to write the header, history unchanged |
| `LogCode.Log.WriteHeader` | xv6-pdx/log.c:100-112 | the first header write makes the whole history durable, the second adds nothing |
| `LogCode.Log.InstallTrans` | xv6-pdx/log.c:68-81 | the loop installs every logged block, history unchanged |
| `LogCode.Log.CopyHeader` | xv6-pdx/log.c:91-94 | the header in memory becomes the one decoded from the block |
| `LogCode.Log.ReadHeader` | xv6-pdx/log.c:84-97 | recovery goes on to install exactly when the header on disk is not empty |
| `LogCode.Log.Commit` | xv6-pdx/log.c:189-199 | the whole history is durable afterwards and the header is empty |
| `LogCode.Log.EndOp` | xv6-pdx/log.c:144-171 | the last operation of a group commits it, also while other threads hold buffers of other blocks: afterwards the home blocks are exactly the effect of the whole history |
| `LogCode.Log.RecoverFromLog` | xv6-pdx/log.c:114-121 | after recovery the home blocks are exactly the effect of the durable history |
| `BufferCache.BCache.constructor` | xv6-pdx/bio.c:39-57 | the ring holds every buffer once and none is in use |
| `BufferCache.BCache.Bget` | xv6-pdx/bio.c:61-95 | finds the block's only buffer or recycles the least recently used one that is neither busy nor dirty; panics exactly when the block is not cached and every buffer is busy or dirty |
| `BufferCache.BCache.FindBlock` | xv6-pdx/bio.c:69-80 | the forward scan finds a buffer of the block exactly when there is one |
| `BufferCache.BCache.FindSpare` | xv6-pdx/bio.c:85-93 | the backward scan stops at the spare buffer that was used longest ago |
| `BufferCache.BCache.Brelse` | xv6-pdx/bio.c:122-141 | the buffer moves to the front, the others keep their order, and the ring stays a permutation of all buffers |
| `BufferCache.BCache.Bwrite` | xv6-pdx/bio.c:111-118 | the buffer is dirty and last in the disk queue |
| `BufferCache.BCache.Iderw` | xv6-pdx/ide.c:132-162 | the append loop adds the request at the end of the queue |
| `BufferCache.BCache.Ideintr` | xv6-pdx/ide.c:99-128 | the first request is carried out in its direction and leaves the queue; buffer and disk block agree afterwards |
| `BufferCache.RecentFirst` | xv6-pdx/bio.c:122-141 | after any sequence of releases, a buffer released later stands nearer to the front of the ring |
| `BufferCache.LongestAgo` | xv6-pdx/bio.c:82-93 | the buffer that bget recycles was released longest ago of all that can be recycled |
| `BufferCache.DoneOk` | xv6-pdx/ide.c:109-121 | carrying out a request keeps one buffer per block and every clean, idle buffer equal to its disk block |
| `BufferCache.RecycleOk` | xv6-pdx/bio.c:85-93 | recycling keeps at most one buffer per block and touches no queued buffer |
| `BufferCache.RecycleIsEvict` | xv6-pdx/bio.c:82-93 | recycling a valid buffer is an eviction that the log's model allows, also while other buffers are on their way to the disk |
| `BufferCache.FillIsBread` | xv6-pdx/bio.c:98-108 | the disk read that fills a recycled buffer is the log model's bread of an uncached block, during recovery too |
| `BufferCache.ClaimIsBread` | xv6-pdx/bio.c:69-76 | claiming a cached buffer is the log model's bread, during recovery too |
| `BufferCache.ReleaseIsBrelse` | xv6-pdx/bio.c:122-141 | releasing a buffer is the log model's brelse |
| `BufferCache.ChangeIsModify` | xv6-pdx/log.c:201-209 | changing the contents of a held buffer is the log model's step |
| `BufferCache.MarkIsLogWrite` | xv6-pdx/log.c:228 | the dirty mark of log_write is the log model's, on the same buffer |
| `BufferCache.FillIsSilent` | xv6-pdx/bio.c:111-118 | between bwrite and the interrupt the buffer is in flight and the log's model stands still |
| `BufferCache.WriteIsBwrite` | xv6-pdx/ide.c:99-128 | the interrupt that ends a write is the log model's bwrite of buffer and disk block at once |
| `BufferCache.NoSpareIff` | xv6-pdx/bio.c:82-94 | no buffer can be recycled if and only if the logged blocks and the clean buffers in use are as many as the buffers |
| `BufferCache.CommitServedIff` | xv6-pdx/log.c:174-187 | while a commit copies blocks, some buffer can be recycled if and only if the logged blocks and the clean buffers in use are fewer than the buffers; with no clean buffer in use, the next log block is served if and only if fewer blocks are logged than there are buffers |
| `LogBuffers.CommitWithoutBuffer` | xv6-pdx/param.h:11-12 | with LOGSIZE + 1 log blocks and NBUF = LOGSIZE, a run within budget reaches a commit whose first log block no buffer holds while none can be recycled, all of them idle |
| `BufferRing.Unlink` | xv6-pdx/bio.c:130-131 | the two pointer writes take the buffer out of the circle, forwards and backwards |
| `BufferRing.Splice` | xv6-pdx/bio.c:132-135 | the four pointer writes put it in behind the head |
| `SchedTheorems.ReachableInv` | xv6-pdx/proc.c:111-1062 | in every run from boot: each slot is on exactly one list, once, the one for its state and priority; priorities and budgets are in range; pids are distinct; the parent tree is rooted at init; no lost wakeup in wait |
| `SchedTheorems.AllDescendFromInit` | xv6-pdx/proc.c:391-480 | following parents from any process, zombies included, ends at init |
| `SchedTheorems.StepKeeps` | xv6-pdx/proc.c:111-1378 | every critical section keeps that invariant |
| `SchedTheorems.BootedInv` | xv6-pdx/proc.c:194-249 | userinit establishes it |
| `SchedStarvation.NoStarvation` | xv6-pdx/proc.c:690-758 | a process that stays RUNNABLE and is not moved by setpriority is dispatched after at most MAX passes of the scheduler at or after the promotion time of their own table, and fewer than NPROC further passes |
| `SchedStarvation.StepNotBehind` | xv6-pdx/proc.c:690-958 | under any step, (priority, number ahead in the queue) of a waiting process never increases lexicographically |
| `SchedStarvation.PromotionsLift` | xv6-pdx/proc.c:690-731 | each pass at or after the promotion time lowers its priority number until it is 0 |
| `SchedStarvation.DispatchesAdvance` | xv6-pdx/proc.c:732-758 | at priority 0 each dispatch takes one process from in front of it |
| `SchedLaws.PassLaw` | xv6-pdx/proc.c:677-767 | a pass dispatches, at its tick, the process that stands before every other (higher level, or earlier in the same queue) and idles only when none waits; with PromoteAtTime <= ticks every sleeping, waiting and running process goes up one level and the next promotion is TICKS_TO_PROMOTE later, before that no level changes; nothing else changes |
| `SchedLaws.PassOrder` | xv6-pdx/proc.c:709-758 | of two processes that go on waiting, the one before the other stays before it, promotion or not |
| `SchedLaws.PromotionClock` | xv6-pdx/proc.c:690-731 | in every run from boot promotions are at least TICKS_TO_PROMOTE apart, and the next is never further away than that |
| `SchedLaws.BootLaw` | xv6-pdx/proc.c:194-249 | after userinit: init waits alone with pid 1, level 0 and a full budget, all other slots are free in order, and the first promotion is TICKS_TO_PROMOTE away |
| `SchedLaws.TimeCharged` | xv6-pdx/proc.c:816-901 | a process dispatched at one tick that gives up the processor at another, by yield, sleep or wait, whatever happens between: its budget is lower by exactly the ticks between, or, with nothing left, full again and the process one level down (MAX is the last); on yield it is last in its queue; no other process changes |
| `SchedLaws.RunAccount` | xv6-pdx/proc.c:690-758 | while a process runs, its budget and the tick of its dispatch stay, and its level goes up once per promotion |
| `SchedLaws.SleepThenWakeup` | xv6-pdx/proc.c:872-958 | for every channel: after sleep on it, wakeup of it makes the process RUNNABLE on the queue of its level, and wakeup of any other leaves it asleep |
| `SchedLaws.SleepsUntilWoken` | xv6-pdx/proc.c:872-958 | over every run: a process that goes to sleep, in wait too, sleeps until a step wakes its channel or kills it, and the waking step puts it on the queue of its level |
| `SchedLaws.SleeperStep` | xv6-pdx/proc.c:937-958 | a step wakes a sleeper if and only if it is a wakeup of its channel, the exit of a child it waits for, an exit that passes a zombie to init while init waits, or a kill of it |
| `SchedLaws.SleepsFirst` | xv6-pdx/proc.c:890-909 | the last to go to sleep is the first on the sleep list |
| `SchedLaws.WokenOrder` | xv6-pdx/proc.c:937-958 | of two sleepers on one channel and level, the one nearer to the head of the sleep list stands before the other once woken |
| `SchedLaws.ExitsFirst` | xv6-pdx/proc.c:469-478 | the last to exit is the first on the zombie list |
| `SchedLaws.WaitFrees` | xv6-pdx/proc.c:541-562 | reaping takes the zombie child nearest to the head of the zombie list, puts its slot on the free list, cleared, and the caller has exactly that zombie child fewer |
| `SchedLaws.ReapedOnce` | xv6-pdx/proc.c:527-621 | in every run no pid is returned twice by wait |
| `SchedLaws.ForkLaw` | xv6-pdx/proc.c:279-343 | fork, whatever steps of others come between its critical sections: a free slot becomes the RUNNABLE child of the caller with the next pid, level 0 and a full budget, last in queue 0 |
| `SchedLaws.SetPriorityLaw` | xv6-pdx/proc.c:1316-1378 | succeeds exactly for a level in range and the pid of a sleeping, waiting or running process, which gets the level and a full budget, and joins the new queue last if it waits at another level; nothing else changes |
| `SchedLaws.KillLaw` | xv6-pdx/proc.c:996-1062 | succeeds exactly for the pid of a process that is neither free nor a zombie, which is marked and, if asleep, joins the queue of its level last; nothing else changes |
| `SchedModel.WakeupPartition` | xv6-pdx/proc.c:937-958 | wakeup1 keeps every slot on exactly the list of its state |
| `SchedModel.PromotePartition` | xv6-pdx/proc.c:690-731 | the promotion keeps every slot on exactly the list of its state and new priority |
| `SchedInvariant.ExitKeeps` | xv6-pdx/proc.c:391-480 | exit keeps the invariant: children go to init, and no process sleeps in wait over a zombie child |
| `SchedInvariant.WaitKeeps` | xv6-pdx/proc.c:527-621 | reaping, failing or sleeping in wait keeps it |
| `SchedInvariant.ForkAllocKeeps` | xv6-pdx/proc.c:111-146 | taking a free slot keeps it, and the new pid is above that of every slot, stale pids of free slots included |
| `SchedInvariant.ForkFinishKeeps` | xv6-pdx/proc.c:279-343 | the child joins its queue with a live, older parent |
| `SchedInvariant.ForkFailKeeps` | xv6-pdx/proc.c:148-163 | giving the slot back on failure keeps it |
| `SchedInvariant.KillKeeps` | xv6-pdx/proc.c:996-1062 | kill keeps it |
| `SchedInvariant.SetPriorityKeeps` | xv6-pdx/proc.c:1316-1378 | setpriority keeps it |
| `SchedInvariant.ScheduleKeeps` | xv6-pdx/proc.c:677-767 | a pass of the scheduler keeps it |
| `SchedScans.ExitAgrees` | xv6-pdx/proc.c:349-480 | exit on lists and exit by table scan leave the same states and parents |
| `SchedScans.WaitAgrees` | xv6-pdx/proc.c:486-621 | wait on lists and by scan reap, fail or sleep in the same cases; in both, reaping frees the slot of a zombie child that carried the pid returned (UNUSED, pid 0, no parent, not killed) and leaves every other slot as it was |
| `SchedScans.KillAgreesIff` | xv6-pdx/proc.c:976-1062 | kill on lists and by scan agree if and only if no UNUSED or ZOMBIE slot carries the pid |
| `SchedScans.KillsDiffer` | xv6-pdx/proc.c:976-1062 | a run from boot (fork, run, exit) after which kill of the zombie's pid answers -1 on lists and succeeds by scan |
| `SchedLoops.WokenAll` | xv6-pdx/proc.c:927-958 | the walk of wakeup1, taken to its end, is the table scan with the lists kept in order |
| `SchedLoops.AdoptedMore` | xv6-pdx/proc.c:411-466 | passing children to init and waking init commute, so the order of exit's walks does not matter |
| `SchedLoops.WakeupTwice` | xv6-pdx/proc.c:435-443 | waking init again for every zombie child changes nothing |
| `SchedCode.ProcTable.constructor` | xv6-pdx/proc.c:194-249 | userinit builds the table in which init is ready and every other slot is free, in order |
| `SchedCode.ProcTable.AddHead` | xv6-pdx/proc.c:40-44 | the list grows by one at its head and every list stays NUL-terminated and acyclic |
| `SchedCode.ProcTable.AddTail` | xv6-pdx/proc.c:46-61 | the same at its tail |
| `SchedCode.ProcTable.Remove` | xv6-pdx/proc.c:63-90 | returns -1 exactly when the slot is not on the list; otherwise takes out that slot only |
| `SchedCode.ProcTable.Transfer` | xv6-pdx/proc.c:132-142 | a change of state takes the slot from its old list, where it always is, to its new one; the removal panic is unreachable |
| `SchedCode.ProcTable.Wakeup1` | xv6-pdx/proc.c:937-958 | the walk wakes exactly the sleepers on the channel, in order |
| `SchedCode.ProcTable.Promote` | xv6-pdx/proc.c:690-731 | the nested walks move every ready queue up one level and age sleepers and running processes |
| `SchedCode.ProcTable.Scheduler` | xv6-pdx/proc.c:677-767 | one pass promotes when due and dispatches the head of the first non-empty queue; idle only when nothing is RUNNABLE |
| `SchedCode.ProcTable.Yield` | xv6-pdx/proc.c:816-843 | charges the time used, demotes when the budget is gone, and queues the process at its level, as the step that TimeCharged is about |
| `SchedCode.ProcTable.Sleep` | xv6-pdx/proc.c:872-922 | the same with the sleep list, on the channel given, as the step that SleepThenWakeup is about |
| `SchedCode.ProcTable.AllocProc` | xv6-pdx/proc.c:111-146 | takes the first free slot, or fails exactly when there is none |
| `SchedCode.ProcTable.ForkFail` | xv6-pdx/proc.c:148-163 | gives an embryo's slot back to the free list |
| `SchedCode.ProcTable.ForkSetup` | xv6-pdx/proc.c:308-312 | gives the embryo its parent, priority and budget |
| `SchedCode.ProcTable.ForkFinish` | xv6-pdx/proc.c:279-343 | the embryo becomes runnable at the tail of queue 0 |
| `SchedCode.ProcTable.Exit` | xv6-pdx/proc.c:391-480 | the walks over all lists add up to passing every child to init, waking init once if a child is a zombie |
| `SchedCode.ProcTable.Wait` | xv6-pdx/proc.c:527-621 | one pass of wait: reap the first zombie child, fail, or sleep, as the step that WaitAgrees and WaitFrees are about |
| `SchedCode.ProcTable.Kill` | xv6-pdx/proc.c:996-1062 | marks the one process with the pid and wakes it, or returns -1 |
| `SchedCode.ProcTable.SetPriority` | xv6-pdx/proc.c:1316-1378 | sets priority and budget and requeues a runnable process, or returns -1 |
| `Malloc.Heap.Free` | xv6-pdx/umalloc.c:24-44 | exactly the block's units become free; other live blocks keep their place; the list stays circular, ascending and without abutting blocks |
| `Malloc.Heap.Search` | xv6-pdx/umalloc.c:30-32 | the search loop ends, at the last free block below the one freed |
| `Malloc.Heap.Coalesce` | xv6-pdx/umalloc.c:33-42 | the pointer and size writes give the joined list |
| `Malloc.Heap.Morecore` | xv6-pdx/umalloc.c:46-61 | all of the memory asked for becomes free, at least 4096 units and at least as many as needed; it uses memory it was not given exactly when sbrk grants a number other than the one used |
| `Malloc.Heap.Malloc` | xv6-pdx/umalloc.c:63-90 | returns a block of the right size clear of every live one, the first that fits going round from freep; asks sbrk only when nothing fits and fails only when sbrk does; uses memory it was not given exactly when nothing fits, sbrk succeeds and the request is over 2^31 - 16 and at most 2^32 - 8 bytes |
| `Malloc.Heap.Fit` | xv6-pdx/umalloc.c:74-89 | the search loop ends and calls morecore at most once, with the memory it grants becoming free |
| `Malloc.RoomIff` | xv6-pdx/umalloc.c:69 | the block has room for the bytes asked for if and only if the rounding does not wrap |
| `Malloc.WrappedRequest` | xv6-pdx/umalloc.c:69 | a request for 2^32 - 1 bytes wraps to a block with no room |
| `Malloc.AskIff` | xv6-pdx/umalloc.c:52-54 | sbrk's signed argument is the number of bytes used if and only if the request is at most 2^31 - 16 bytes or so large that it wraps |
| `Malloc.NegativeRequest` | xv6-pdx/umalloc.c:52-54 | a request for 2^31 bytes hands sbrk a negative number |
| `MallocModel.FreedShaped` | xv6-pdx/umalloc.c:24-44 | free keeps the order, the gaps, the links, the live blocks and the tiling of all memory obtained |
| `MallocModel.TakenShaped` | xv6-pdx/umalloc.c:74-86 | taking a block, whole or from the end of a larger one, keeps the same |
| `MallocModel.GrownShaped` | xv6-pdx/umalloc.c:52-59 | fresh memory keeps the same |
| `MallocModel.GiveBackUnits` | xv6-pdx/umalloc.c:33-42 | joining on either side, both or neither adds exactly the freed units |
| `MallocModel.SearchStops` | xv6-pdx/umalloc.c:30-32 | the loop's tests hold at one block of the circle only, also across the wrap |
| `FsModel.Attach` | xv6-pdx/fs.c:369-397 | a free block entering one empty slot keeps: no block in two places, every block in use marked, no marked block without an owner |
| `FsModel.Detach` | xv6-pdx/fs.c:404-432 | giving up slots and clearing exactly their bits keeps the same |
| `FsModel.EntrySet` | xv6-pdx/fs.c:386-392 | writing one entry of an indirect block changes that entry only |
| `FsModel.PutBytes` | xv6-pdx/fs.c:494-500 | overwriting part of a block changes those bytes of that file and no byte of any other |
| `FsModel.WroteFile` | xv6-pdx/fs.c:478-508 | after a write the file is the splice and every other file is unchanged |
| `FsModel.WroteNoHole` | xv6-pdx/fs.c:478-508 | a write that starts within a file without holes leaves no hole in any file |
| `FsModel.WroteTight` | xv6-pdx/fs.c:478-508 | where every file has exactly the blocks its size needs, it still has after a write that starts within the file |
| `FsModel.DataSetSize` | xv6-pdx/fs.c:369-397 | a range of a file's blocks is as many different disk blocks |
| `FsModel.RefilledContent` | xv6-pdx/fs.c:461-474 | blocks that reading adds to files change no byte of them |
| `FsCode.FileSystem.Balloc` | xv6-pdx/fs.c:53-75 | the first clear bit, found across bitmap blocks, its block zeroed; panics exactly when no bit is clear; all it changes is in blocks it logs |
| `FsCode.FileSystem.Bmap` | xv6-pdx/fs.c:369-397 | the block number, through direct or indirect slots, adding an owner only where one was missing: number bn of the inode, or of the indirect block that its last number names; no byte of any file changes; logs exactly the new block, its bitmap blocks and the indirect block with a new entry; panics exactly when fewer blocks are free than are missing |
| `FsCode.FileSystem.Readi` | xv6-pdx/fs.c:451-475 | returns the file's bytes from the offset across block boundaries, holes as zeroes; fails exactly past the end or on overflow; changes no byte of any file, and in a file without holes allocates nothing; with no operation open it panics exactly at a hole, inside one exactly when a block past MAXFILE is asked for or fewer blocks are free than the range is missing |
| `FsCode.FileSystem.Writei` | xv6-pdx/fs.c:478-508 | the file becomes the splice and other files stay; if there were no holes there are none afterwards, and the inode on disk equals the one in memory although iupdate is conditional; every data block of the range is logged, and the inode block when the file grows; in all, LogCost blocks where files have exactly their blocks and the bitmap is one block; panics exactly when fewer blocks are free than the range is missing, and takes exactly those; all it changes on disk is in blocks it logs |
| `FsCode.NeededOver` | xv6-pdx/fs.c:369-397 | what a range of a file is missing, taken in two parts, adds up, the indirect block counted once |
| `FsCode.FileSystem.Itrunc` | xv6-pdx/fs.c:404-432 | frees exactly the inode's own blocks; the "freeing free block" panic is unreachable |
| `FsCode.FileSystem.FileWrite` | xv6-pdx/file.c:115-152 | a successful call writes exactly the caller's bytes in order, a failed one a prefix of them; in files without holes each transaction logs at most LOGSIZE blocks; each logs at least its data blocks, and exactly LogCost of its offset, length and size where files have exactly their blocks and the bitmap is one block; panics exactly when fewer blocks are free than the whole range is missing; what each transaction changes on disk is in the blocks it logs, and the disk between transactions holds a file with whole chunks and leaks no block |
| `FsCode.ChunkBound` | xv6-pdx/file.c:125-131 | data, bitmap, indirect and inode blocks of one chunk, at any offset, are at most LOGSIZE |
| `FsCode.WithinBudgetIff` | xv6-pdx/file.c:125-131 | a chunk of up to 127 blocks logs at most MAXOPBLOCKS different blocks, the budget of the reservation, at every offset of every file if and only if it is at most (MAXOPBLOCKS - 4) * 512 + 1 bytes |
| `FsCode.FullChunkOverBudget` | xv6-pdx/file.c:131 | with LOGSIZE = 3 * MAXOPBLOCKS the first full chunk of a new file logs more than MAXOPBLOCKS blocks, for every MAXOPBLOCKS of at least 2 |
| `FsCrash.FileAfterCrash` | xv6-pdx/file.c:122-152 | filewrite in a file system without holes, a crash at any moment of it or of the commits it causes, recovery: in whatever file system is read off the disk the file has a prefix of whole chunks, every other file is as before, and no block is leaked or shared |
| `FsCrash.CrashInFileWrite` | xv6-pdx/file.c:122-152 | the recovered disk is, outside the log, the one between two chunks |
| `FsCrash.CrashBetween` | xv6-pdx/log.c:84-199 | for any operations of one thread, each taking one disk to the next, and a last one that may never end: after a crash and recovery the disk is one of them |
| `FsCrash.CutIsBoundary` | xv6-pdx/log.c:144-171 | a prefix of the history that no operation straddles is a number of whole operations |
| `FsCrash.JournaledTakes` | xv6-pdx/log.c:201-230 | a transaction that logs every block it changes, in any order and each as often as it likes, takes the disk from one file system to the next |
| `FsCrash.UnloggedSame` | xv6-pdx/fs.c:53-75 | a disk block that is not logged holds the same bitmap bits, inodes or data as before |
| `FsCrash.DiskTells` | xv6-pdx/fs.h:54-78 | the blocks outside the log determine every inode, every bitmap bit and every data block |
| `FsShipped.OverBudget` | xv6-pdx/param.h:10-14 | with the shipped sizes, 13 blocks written to a new file are one transaction that logs 16 blocks, over the 10 reserved |
| `FsImage.Image.constructor` | xv6-pdx/mkfs.c:104-113 | an image of zeroes with the meta blocks taken satisfies the ownership invariant |
| `FsImage.Image.Iappend` | xv6-pdx/mkfs.c:260-302 | the file grows by exactly the bytes, taking exactly the blocks it needs, and keeps the invariant; it stops exactly when the file gets too long or a block lies past the end of the image |
| `FsImage.Image.AddFile` | xv6-pdx/mkfs.c:129-156 | one file and its directory entry are added, other files unchanged; it stops exactly when either gets too long or the blocks do not fit the image |
| `FsImage.Image.RoundUp` | xv6-pdx/mkfs.c:158-163 | the rounded root directory has no hole if and only if its entries do not fill their last block |
| `FsImage.Image.WriteBitmap` | xv6-pdx/mkfs.c:242-256 | the one bitmap block written last completes an image that satisfies the ownership invariant; the assertion fails exactly when the blocks in use do not fit it |
| `Mkfs.Make` | xv6-pdx/mkfs.c:67-168 | runs to its end exactly when names, lengths, blocks and inodes fit, the inodes including those in the bitmap block; then the image holds every file and a root directory that lists them if and only if the inodes fit the inode blocks, obeys the ownership invariant if and only if every file lost is empty, and has a hole in the root if and only if its entries fill their last block |
| `Mkfs.FinishedOwned` | xv6-pdx/mkfs.c:242-256 | when inodes past the inode blocks are lost to the bitmap, the rest obeys the ownership invariant if and only if those files are empty |
| `Mkfs.KeptLeaks` | xv6-pdx/mkfs.c:183-195 | a lost inode with a block leaks it |
| `Mkfs.RootLists` | xv6-pdx/mkfs.c:118-149 | the root directory's entries are the dots, then the files with inode numbers from 2 on, then dead ones |
| `Mkfs.FilesAreFound` | xv6-pdx/fs.c:619-652 | on an image that holds every file, a file given as "name" or as "_name" is at "/name", which resolves to the inode that holds its bytes |
| `FsShipped.RootWithHole` | xv6-pdx/mkfs.c:158-163 | thirty files fill the root's block, and the shipped mkfs gives it a size with an unmapped block |
| `FsShipped.ReadAtHole` | xv6-pdx/fs.c:451-475 | on that image, reading the root at its hole with no operation open panics |
| `FsShipped.LostInode` | xv6-pdx/mkfs.c:183-195 | with 207 files of one byte the shipped mkfs runs to its end, inode 208 lands in the bitmap block, the image does not hold the files and leaks a block |
| `FsShipped.ImageFull` | xv6-pdx/mkfs.c:210-221 | files whose blocks are more than FSSIZE but fit the bitmap make the shipped mkfs exit |
| `Directory.Namecmp` | xv6-pdx/fs.c:512-516 | 0 exactly when the names agree in their first DIRSIZ bytes |
| `Directory.Dirlookup` | xv6-pdx/fs.c:520-544 | the first live entry with the name; with unique names, lookup in the finite map that the live entries form |
| `Directory.FoundBinding` | xv6-pdx/fs.c:529-541 | with unique names the first live entry is the binding of the name |
| `DirCode.Dirlookup` | xv6-pdx/fs.c:520-544 | the same of the directory's file, entry by entry through readi; panics only on a full disk, and in a directory with all its blocks never, changing nothing |
| `DirCode.Dirlink` | xv6-pdx/fs.c:547-575 | adds exactly the new binding, keeps names unique and every other file as it was; in a directory with all its blocks it fails exactly when the name is bound and panics exactly when no entry is free and the directory is as long as a file can be or fewer blocks are free than one more entry needs |
| `DirCode.FullIff` | xv6-pdx/fs.c:558-572 | where the directory has its blocks, its first free slot cannot be written if and only if there is no room |
| `DirCode.Unlink` | xv6-pdx/sysfile.c:181-221 | refuses only dots, unbound names and directories that are not empty, and otherwise removes exactly the binding and keeps every other file; without holes it never panics |
| `DirCode.IsDirEmpty` | xv6-pdx/sysfile.c:165-178 | true exactly when the first two entries are the only bindings |
| `DirCode.WriteEntry` | xv6-pdx/fs.c:569-572 | one entry of the directory changes and no other file; it is not written exactly when the file is full or blocks are missing |
| `DirCode.PerformAll` | xv6-pdx/fs.c:547-575 | after any sequence of dirlink and unlink names are unique, the directory holds what the operations make of the map one after another, and every other file is as before; without holes only a dirlink of an unbound name stops it |
| `Directory.DirentWord` | xv6-pdx/fs.h:81-88 | the inode number of an entry is the low half of the little-endian word it starts with |
| `Directory.BindingsAre` | xv6-pdx/fs.c:520-544 | the map holds exactly the live entries |
| `Directory.PutEntry` | xv6-pdx/fs.c:569-572 | writing one entry's bytes changes that entry only |
| `Path.Skipelem` | xv6-pdx/fs.c:590-613 | the next component, cut to DIRSIZ, and the rest without leading slashes |
| `Path.Namex` | xv6-pdx/fs.c:619-652 | folds lookup over the slash-separated components, or over all but the last, where each directory is the finite map that its file's bytes hold |
| `Path.ComponentsSlash` | xv6-pdx/fs.c:577-613 | a slash separates: the components of both sides, one after the other |
| `Path.ComponentsWord` | xv6-pdx/fs.c:577-613 | a string without slashes is one component |
| `ShellLines.AcceptsExactly` | xv6-pdx/sh.c:424-543 | parsecmd accepts a string without NULs if and only if it spells a line of the grammar: words and redirections in any order, groups, pipelines, lists, background marks, blanks between tokens, and at most 9 words per simple command |
| `ShellLines.CmdBack` | xv6-pdx/sh.c:424-543 | every such line is read as what it means: redirections nested in order, the first innermost, around all words or the group; pipelines and lists to the right; and it is refused exactly when a simple command has ten words or more |
| `ShellLines.CmdOnly` | xv6-pdx/sh.c:424-543 | whatever parsecmd accepts spells a line of the grammar, and the tree returned is its meaning |
| `ShellLines.LineBack` | xv6-pdx/sh.c:441-543 | the same as for a whole command, in front of an end or a closing parenthesis |
| `ShellLines.LineOnly` | xv6-pdx/sh.c:441-543 | what parseline reads is a line, and means what it returns |
| `ShellLines.PiecesBack` | xv6-pdx/sh.c:471-543 | any words and redirections in any order are read into the list of all words and the list of all redirections, in order |
| `ShellLines.WrapNests` | xv6-pdx/sh.c:476-492 | one redirection node per redirection, the later ones outside |
| `ShellLines.RoundTrip` | xv6-pdx/sh.c:424-543 | writing any command with at most 9 words per simple command, with parentheses around sub-commands, and parsing the line gives back the command |
| `Shell.LineGood` | xv6-pdx/sh.c:362-543 | for every line that parses, every recorded token lies in the line where it says and ends where words end |
| `Shell.EndsOutside` | xv6-pdx/sh.c:546-590 | every recorded end pointer lies outside all recorded tokens |
| `Shell.TerminateIsSafe` | xv6-pdx/sh.c:424-590 | after the whole tree is terminated in place, every word and file name reads back as exactly the token that was parsed |
| `Shell.Nulterminate` | xv6-pdx/sh.c:546-590 | writes NULs at the recorded ends and nowhere else |
| `Shell.Parser.Gettoken` | xv6-pdx/sh.c:362-405 | advances the pointer past the token that the grammar gives |
| `Shell.Parser.PeekAt` | xv6-pdx/sh.c:407-416 | skips white space and looks at one character |
| `Shell.Parser.Parseredirs` | xv6-pdx/sh.c:471-494 | reads the redirections at the front |
| `Shell.Parser.Parseexec` | xv6-pdx/sh.c:512-543 | reads a simple command or a block |
| `Shell.Parser.Parseblock` | xv6-pdx/sh.c:496-509 | reads a line in parentheses and the redirections behind it |
| `Shell.Parser.Parsepipe` | xv6-pdx/sh.c:458-468 | reads a pipeline |
| `Shell.Parser.Parseline` | xv6-pdx/sh.c:441-455 | reads a line; every call consumes input, so parsing ends |
| `Shell.ParseAndTerminate` | xv6-pdx/sh.c:424-439 | for every line: the tree that the grammar gives, or a panic; in the buffer every word of the tree reads back as parsed |
| `Shell.Parser.Parsecmd` | xv6-pdx/sh.c:424-439 | panics on anything left over |
| `Pipe.Pipe.Write` | xv6-pdx/pipe.c:75-94 | the bytes written are appended in order; a writer sleeps exactly on a full pipe with its read end open; from the state before the call: a reader is left asleep beside data if and only if one sleeps, the writer is killed or the read end closed, and it brings more than PIPESIZE bytes |
| `Pipe.Pipe.Read` | xv6-pdx/pipe.c:97-118 | the bytes read are the oldest sent and not yet received, for any interleaving and across counter wrap |
| `Pipe.Pipe.Close` | xv6-pdx/pipe.c:57-73 | closes one end, keeps the bytes in flight, wakes everyone asleep on the other side and nobody else |
| `Pipe.Stored` | xv6-pdx/pipe.c:90 | a byte stored goes behind the bytes held, at any counter value |
| `Pipe.Fetched` | xv6-pdx/pipe.c:113 | a byte fetched is the oldest one held |
| `Pipe.FullTest` | xv6-pdx/pipe.c:82 | the wrapping comparison holds exactly when PIPESIZE bytes are held |
| `Pipe.StuckReader` | xv6-pdx/pipe.c:82-88 | a killed writer can leave a reader asleep beside bytes |
| `Grep.Match` | xv6-pdx/grep.c:72-82 | true exactly when some substring of the text, or prefix after '^', is in the language of the pattern |
| `Grep.Matchhere` | xv6-pdx/grep.c:85-96 | true exactly when a prefix of the text, all of it before a final '$', is in the language |
| `Grep.Matchstar` | xv6-pdx/grep.c:99-106 | tries the rest of the pattern after every run of fitting characters |
| `Grep.HereIs` | xv6-pdx/grep.c:85-106 | the mutual recursion decides membership in the language of the items |

## Left out

- Assembly, context switching, interrupts and hardware drivers: a switch is the end of one step and the start of another.
- Virtual memory, exec and the kernel allocator: they appear as steps that succeed or fail.
- Spinlock internals and memory ordering: mutual exclusion is assumed.
- Printing and reporting (procdump, getprocs, console listings) and user test programs.
- Permissions, uid and gid, chmod, chown and chgrp: each compares or sets one field of an inode or a process.
- Device inodes in readi and writei, and the fields of an inode other than its size and block numbers.
- The packing of bitmap bits into bytes in fs.c's own loops; as words of a disk block, bits, inodes, indirect entries and directory entries are modelled.
- The inode cache (iget, idup, ilock, iput) and link counts.
- Log initialisation from the super block beyond the position and size of the log.
- grep's read loop, which drops a partial line when a chunk has no newline.
- The original round-robin scheduler, except the table scans of exit, wait, kill and wakeup1.
- Running a parsed command, and the shell's builtins.
- Pipe.Pipe.Write: the reader's side is stated as an if-and-only-if rather than promised, because the code does not wake readers when a killed writer leaves.
- Mkfs.Make: says nothing of an image in which inodes have been written over data blocks (more than eight past the inode blocks).
- FsCrash.FileAfterCrash: other operations are not in the history, so a group of several operations in one commit is covered by CrashAtomicity only.
- DirCode.Dirlookup: in a directory with holes, when filling them meets a full disk is said of each readi only.
- DirCode.PerformAll: the directories that are looked into for emptiness are other ones than the directory itself.
- DirCode.Unlink: the link counts, and the panic when one is less than 1; that the inode looked in is a directory is required, as in dirlookup, where the code panics otherwise.
- SchedCode.ProcTable.Scheduler: is one pass of the endless loop; idle waiting and the time between passes are steps of their own.
