# MINIX in Dafny

A model of parts of MINIX 1.2 and of its IIgs port, with proofs.  Tables and
pointers of the C code are arrays and indices here, with -1 for the nil
pointer; each method that works on them is proved to do what a function of the
abstract state says, and what the system promises is proved about those
functions, for all inputs and, where it is a protocol, for all runs.

* **Messages and scheduling** (`links`, `rendezvous*`, `proc_table`,
  `minix_kernel`).  The port's kernel is a machine of interrupts and system
  calls over a process table with three ready queues and one queue of blocked
  senders per process.  `rendezvous.dfy` gives the steps on sequences,
  `rendezvous_inv.dfy` and `rendezvous_runs.dfy` the invariant of every run,
  `rendezvous_delivery.dfy` and `rendezvous_ledger.dfy` exactly-once delivery,
  `rendezvous_turns.dfy` the round-robin bounds, `rendezvous_answers.dfy` what
  a process finds in its frame and in its buffer.  `proc_table.dfy` is the table
  with its intrusive lists, whose stale links are never cleared, for the port
  and for the original kernel; `minix_kernel.dfy` gives the original's calls,
  `minix_answers.dfy` their codes and the turns of users.
* **Interrupts** (`interrupts`, `interrupt_table`).  How the original kernel
  keeps messages of devices for tasks that do not wait, and that it loses none.
* **Block cache** (`buffer_pool`, `buffer_runs`, `buffer_cache`, `map_loads`,
  `counter_run`, `cache_writes`).  A write-back cache with reference counts, an LRU
  list and hash chains; its runs look like a plain store of blocks, unless a mark
  is lost, and blocks of the kinds that matter are on the disk when released.
* **Files** (`bitmap`, `blocks`, `volume`, `zone_tree`, `file_blocks`,
  `file_bytes`, `file_writes`, `zone_space`, `tree_steps`, `write_steps`,
  `files`, `stale_run`).  Bit maps, zone trees and files, over the cache above.
  The invariant is that the bits set are exactly the zones reachable from files,
  each reached from one place; reads and writes refine slicing and splicing of
  byte sequences for any block size and zone scale, and a write stops exactly
  where the zones still needed exceed the free ones.
* **Inode table, directories and pipes** (`inode_table`, `directory`,
  `directory_file`, `pipe`, `pipe_run`), **clock** (`clock`).  A directory is searched as a
  sequence of slots in blocks, and as a file of the file system above.
* **Commands**: `diff` (`diff`, `diff_search`) and the FAT part of `dosread`
  (`fat`).

## What was found

* A write that fails for lack of space beyond the end of a file leaves the size
  at the position reached (`read.c`, line 145), with no zone there.  If the
  next write starts exactly at that end, in the middle of a zone, `new_block`
  (`write.c`, line 203) does not clear the new zone, because the position
  equals the size; blocks before it, which read as zeros until then, now show
  what the zone held when it was last in use.  `Files.FileSystem.Write` says
  when, exactly and from the state before: the contents are the splice if and
  only if not `Spoils`, that is, unless the write begins at the end of the file
  in the middle of a missing zone, there is room for it, and the zone that the
  bit map will yield is not blank in that gap.  `StaleRun.Run` goes there on a
  small device.  Only such a failed write leads there: `AllAnchored` holds of a
  new file system and after every truncation, read and write except one that
  wrote nothing past the end, and `AnchoredNotSpoiled` says that it suffices.
  `FileBytes.BadGap` is a check that needs no bit map (`WrittenIsSpliced`).
* In the port the head of the task queue always runs, so a task at place k waits
  at most k quanta (`RoundRobin`).  That rests on `kmain()` starting tasks only:
  behind a running server the head can be rotated to the back before it has run
  (`HeadCanMoveBack`), and then a task waits for at most a turn of all others and
  one tick (`EveryTaskRuns`).
* In the original kernel a combined send and receive can leave the machine idle
  although a process has become ready: the receiving half readies a sender
  without picking again (`SendrecMayIdle` gives the exact condition,
  `SendrecIdles` two calls that lead there).
* In the port a receive into a buffer that begins inside the message of the
  sender repeats the first words of that message (`CopyMessAt`), so unless they
  repeat anyway it arrives changed (`CopyMessDelivers`, `CopyMessChanges`).
* In the original kernel a message of a device whose task does not wait is kept
  for the next interrupt of any device, not until the task waits; a second
  interrupt of the same device replaces it.  With that reading none is lost
  (`NoInterruptLost`, `InterruptPrompt`).
* In the cache the test for a free buffer is an equality and hits are not
  checked, so with map blocks counted twice (`super.c`, lines 51-61) the counter
  can pass the number of buffers (`CounterPasses` says when).  While it is past,
  nobody is refused; when the buffer is released again, a get is refused again
  although buffers are free (`RefusedIff`).  `CounterExample` is a run through
  all three.  `BufferPool.CanGet` is the exact condition for no panic, `SomeFree`
  the bound under which a free buffer is found.
* A write into an empty pipe wakes one reader only.  With one reader that is
  enough (`TurnLively`); with two, bytes that the first leaves stay in the pipe
  while the second sleeps, and the writer may sleep too (`TwoReaders`).
* `diff` gives up its search when either file ends: three equal lines that begin
  further on in one file than the other is long are not found, and all that is
  left becomes one hunk.  `DiffSearch.InReach` says exactly which are.
* `load_bit_maps` sets the busy bits without marking the buffers dirty
  (`super.c`, lines 59-60).  On a disk where they are clear, the cache shows them
  set and will not write them (`LoadFromDisk`, `LoadLosesMark`), and when the
  buffers are dropped they are gone (`MarkForgotten`).  The theorems about runs
  of the cache take the loads that lose no mark (`LoadKeeps` is the exact
  condition); a file system that mkfs made has the bits of inode 0 and zone 0
  set, and that of inode 1 with the root directory.

## Assumptions

* Device transfers and copies to and from user space succeed.
* Sizes, positions and counters are unbounded integers; zone numbers and bit
  numbers are sixteen bits wide where the code takes them modulo that width.
* A message is eight words, the number the copy loop moves and the comment at
  `port/kernel/proc.h`, line 48, gives; the struct there lists seven.
* In the port a process passes buffers of its own memory; `OwnRun` says so where
  a theorem needs it.  The original uses one buffer for both halves of a
  combined call, so contents are not claimed there.
* `lock`, `restore` and the return from an interrupt are the boundaries of
  atomic steps.
* One device is modelled at a time, with regular files only.

## Model

| member | source | states |
|---|---|---|
| Rendezvous.CopyMessDelivers | port/kernel/proc.c:268-277 | for any two buffers the copy touches no word outside the destination, and the stamped message arrives if and only if the destination does not begin inside the source, or the message repeats itself from there |
| Rendezvous.CopyMessChanges | port/kernel/proc.c:268-277 | a message that is moved on by one word, and arrives changed |
| Rendezvous.CopyWordsAt | port/kernel/proc.c:268-277 | for any two buffers, overlapping or not, each word the ascending loop copies is the one then in its place in the source: an old one, or one the loop has written |
| Rendezvous.CopyMessAt | port/kernel/proc.c:268-277 | what is left for any two buffers: the source behind the number of the sender or, when the destination begins n words into the source, the first n words of the new message over and over |
| RendezvousInvariants.SendKeeps | port/kernel/proc.c:110-140 | sending keeps the queue invariants: ready iff no flag is up, on one sender queue iff SENDING, no wakeup lost |
| RendezvousInvariants.ReceiveKeeps | port/kernel/proc.c:145-177 | receiving keeps the same invariants, whether a queued sender is taken or the caller blocks |
| RendezvousInvariants.PickKeeps | port/kernel/proc.c:182-198 | picking always leaves the running process at the head of its queue, or idle when all queues are empty |
| RendezvousInvariants.SchedKeeps | port/kernel/proc.c:248-263 | the rotation keeps all queue invariants |
| RendezvousRuns.TrapKeeps | port/kernel/proc.c:78-105 | a system call, blocking or not, with numbers and buffers that exist, keeps the invariant of the whole machine |
| RendezvousRuns.TickKeeps | port/kernel/proc.c:57-73 | a clock interrupt keeps it, tick lost or delivered, rotation or not |
| RendezvousRuns.StepKeeps | port/kernel/proc.c:57-177 | every step of the machine keeps it |
| RendezvousRuns.BootIsGood | port/kernel/proc.c:32-45 | it holds after the three tasks have been started |
| RendezvousRuns.Run | port/kernel/proc.c:57-263 | every sequence of events leads from a good state to a good state |
| RendezvousRuns.EveryRun | port/kernel/proc.c:57-263 | it holds after every sequence of interrupts, calls and stores: each live process is on one ready queue iff its flags are clear and on one sender queue iff SENDING, no process waits for a sender already queued, proc_ptr is a queue head or the idle slot |
| RendezvousDelivery.SendMoves | port/kernel/proc.c:110-140 | a send either delivers the stamped message at once or appends it to what waits for the destination, and changes nothing else that waits |
| RendezvousDelivery.ReceiveMoves | port/kernel/proc.c:145-177 | a receive delivers the first acceptable waiting message unaltered and leaves the others in their order, or delivers nothing |
| RendezvousLedger.StepMoves | port/kernel/proc.c:57-177 | each event moves messages only from offered to waiting to delivered |
| RendezvousLedger.StepConserves | port/kernel/proc.c:57-177 | for any two processes, what waited plus what was accepted is what was delivered plus what waits, in order, at every step |
| RendezvousLedger.Conservation | port/kernel/proc.c:57-177 | over every run: the messages accepted from one process for another are those delivered, unaltered and in order, followed by those still waiting (exactly once) |
| RendezvousLedger.StepFifo | port/kernel/proc.c:145-177 | one step of a receiver that asks for ANY keeps all its messages in arrival order |
| RendezvousLedger.FifoFromAny | port/kernel/proc.c:145-177 | over every run in which a process receives from ANY only, it gets all messages in the order they were accepted |
| RendezvousTurns.NeverMovesBack | port/kernel/proc.c:248-263 | a ready task not at the head of the task queue never moves back; a rotating tick moves it up one place; at the head it has the processor |
| RendezvousTurns.GetsTheProcessor | port/kernel/proc.c:57-73 | a ready task behind the head of the task queue, at place k, has the processor within k - 1 quanta and what is left of the current one, whatever the others do |
| RendezvousTurns.EveryTaskRuns | port/kernel/proc.c:57-73 | any ready task, the head and one rotated back included, servers running or not, has the processor within 1 + (tasks - 2) * SCHED_RATE ticks |
| RendezvousTurns.HeadRuns | port/kernel/main.c:12-56 | in every run from kmain() the head of the task queue is the process that runs |
| RendezvousTurns.RoundRobin | port/kernel/main.c:12-56 | so in every run from kmain() a task at place k, 0 included, has the processor within k * SCHED_RATE ticks |
| RendezvousTurns.HeadRunsNext | port/kernel/proc.c:57-73 | exactly when the next tick runs the head of the task queue |
| RendezvousTurns.HeadCanMoveBack | port/kernel/proc.c:248-263 | with a server running, as kmain() sets up none, a rotation puts the head to the back before it has run; the bound of EveryTaskRuns covers that |
| RendezvousTurns.StepForemost | port/kernel/proc.c:182-198 | at every step: at a tick, and whenever the processor changes hands, it goes to a process than which none that can run is more important, tasks before servers before users |
| RendezvousAnswers.StepAnswers | port/kernel/proc.c:78-105 | the code of a trap is in the frame of the process that trapped, blocked or not, and its other registers are as it pushed them; all other frames, and all frames at a tick or a store, are as they were |
| RendezvousAnswers.AnswerTells | port/kernel/proc.c:110-140 | a sender finds OK if and only if its message has been accepted, and E_BAD_DEST if and only if the slot is free, when nothing else has happened |
| RendezvousAnswers.TickTells | port/kernel/proc.c:57-73 | HARDWARE is told E_OVERRUN if and only if the clock task is there and does not wait, and OK if and only if the tick is accepted and delivered |
| RendezvousAnswers.FramesHoldAnswers | port/kernel/proc.c:78-105 | over every run, whoever runs in between, what a process has in its frame is the answer to its own last call |
| RendezvousAnswers.StepServes | port/kernel/proc.c:110-177 | one step: a process gets a message only when it has asked for one, from the source it named and in the buffer it named; until then it waits for just that |
| RendezvousAnswers.GetsWhatItAsks | port/kernel/proc.c:110-177 | over every run a process gets one message for each receive, one that fits, and none that it did not ask for |
| MinixKernel.SysCallKeeps | old-minix-1.2/src/kernel/proc.c:83-120 | SEND, RECEIVE and both in one call, from any caller to any number in the table, and from a user also to ANY, keep the queue invariants, refusals included |
| MinixKernel.SysCallHead | old-minix-1.2/src/kernel/proc.c:83-120 | for the same calls the running process stays the head of its ready queue |
| MinixKernel.SendrecMayIdle | old-minix-1.2/src/kernel/proc.c:109-120 | exactly when a combined call leaves the machine idle although a process is ready |
| MinixKernel.SendrecIdles | old-minix-1.2/src/kernel/proc.c:109-120 | two calls, a send of SYSTASK to FS and then a combined call of FS to SYSTASK, after which SYSTASK is ready and nobody runs; from a given sound state in which SYSTASK runs and FS is ready |
| MinixKernel.SendIdle | old-minix-1.2/src/kernel/proc.c:125-180 | exactly when a send by the running process leaves nobody to run |
| MinixKernel.ReceiveIdle | old-minix-1.2/src/kernel/proc.c:186-234 | exactly when a receive readies a sender on a machine already idle |
| MinixKernel.SchedUsersKeeps | old-minix-1.2/src/kernel/proc.c:340-360 | rotating the users keeps the invariants and the head |
| MinixKernel.KillLeavesNoTrace | old-minix-1.2/src/kernel/system.c:223-272 | after an exit no ready queue and no sender queue names the process |
| MinixKernel.KillKeeps | old-minix-1.2/src/kernel/system.c:223-272 | the exit of a process, blocked or not, keeps the queue invariants of all others |
| MinixKernel.EnterKeeps | old-minix-1.2/src/kernel/proc.c:83-360 | any one call, message from HARDWARE, pick, rotation or exit keeps the queues sound |
| MinixKernel.Entries | old-minix-1.2/src/kernel/proc.c:83-360 | so does every sequence of them |
| MinixAnswers.SysCallAnswers | old-minix-1.2/src/kernel/proc.c:83-120 | which code each call leaves, in the frame of its caller and in no other: bad number, no permission, bad destination, bad address, OK |
| MinixAnswers.CallTakesMessage | old-minix-1.2/src/kernel/proc.c:125-180 | a call that is refused changes nothing but the code; of any other that sends, the destination waits no longer or the caller is at the end of its queue |
| MinixAnswers.QuantumTurns | old-minix-1.2/src/kernel/proc.c:340-360 | at the end of a quantum the first user goes to the back, all others move up one place in the same order, the other queues stay, and the processor goes to the most important process, the second user when there are only users |
| MinixAnswers.UserMovesUp | old-minix-1.2/src/kernel/proc.c:340-360 | a ready user not at the head never moves back, whatever the others do, and a quantum moves it up one place |
| MinixAnswers.UserGetsItsTurn | old-minix-1.2/src/kernel/proc.c:340-360 | over every run a ready user at place k that does not exit is at the head of its queue within k quanta |
| MinixAnswers.KillFrame | old-minix-1.2/src/kernel/system.c:223-272 | an exit leaves all other processes alone, and the order of those in every queue |
| Interrupts.TellKeeps | old-minix-1.2/src/kernel/proc.c:46-70 | a message of a device that is taken keeps the queues sound, and changes for no other task whether it waits |
| Interrupts.InterruptKeeps | old-minix-1.2/src/kernel/proc.c:29-77 | interrupt() keeps the queues sound; when it is done a task that is ready has the processor, unless another task has it |
| Interrupts.TellDelivers | old-minix-1.2/src/kernel/proc.c:46-70 | the task finds the words of the message of the device in its buffer, with HARDWARE as the sender |
| Interrupts.InterruptYields | old-minix-1.2/src/kernel/proc.c:74-76 | an interrupt takes the processor only from a user, a server or nobody, and gives it only to the first ready task |
| Interrupts.InterruptBooked | old-minix-1.2/src/kernel/proc.c:46-73 | it keeps the books: the busy map holds exactly the tasks, the clock excepted, with an interrupt they have not been told of, task_mess the message of the last one, and lost_ticks the ticks the clock task was not told |
| Interrupts.InterruptPrompt | old-minix-1.2/src/kernel/proc.c:63-73 | after any interrupt, of whatever device, no task waits for an interrupt kept for it, and what was kept for a task that waited has been told |
| Interrupts.DoKeeps | old-minix-1.2/src/kernel/proc.c:29-360 | interrupts, calls, rotations and exits in any order keep all that |
| Interrupts.NoInterruptLost | old-minix-1.2/src/kernel/proc.c:46-73 | over every run: an interrupt of a device other than the clock is in the busy map with the last message of that device, or its task has been told since; each thing told is the last interrupt before it, and nothing is told twice; the ticks are those told and those counted as lost |
| ProcTable.ProcTable.constructor | port/kernel/proc.c:32-45 | all slots free and all lists empty |
| ProcTable.ProcTable.StartTask | port/kernel/proc.c:282-311 | a started task has clear flags and is ready, at the back of its queue |
| ProcTable.ProcTable.PickProc | port/kernel/proc.c:182-198 | over the linked queues: the abstract pick; the previous process is remembered |
| ProcTable.ProcTable.Ready | port/kernel/proc.c:203-218 | links the process in at the tail of its queue: the abstract queue grows by it |
| ProcTable.ProcTable.Unready | port/kernel/proc.c:223-243 | unlinks it from wherever it is, with the tail right again, or does nothing when it is not there; re-picks when it was the head |
| ProcTable.ProcTable.Bypass | port/kernel/proc.c:236-240 | bypassing a member of a list ends at the last of the others |
| ProcTable.ProcTable.Sched | port/kernel/proc.c:248-263 | moves the head of the task queue to the tail and picks |
| ProcTable.ProcTable.CpMessFrom | port/kernel/proc.c:268-277 | the copy loop writes exactly the abstract copy |
| ProcTable.ProcTable.MiniSend | port/kernel/proc.c:110-140 | with stale links never cleared, the linked lists implement the abstract send and its return code |
| ProcTable.ProcTable.MiniRec | port/kernel/proc.c:145-177 | the same for receive |
| ProcTable.ProcTable.FindSender | port/kernel/proc.c:152-169 | the search finds the first queued sender that is acceptable |
| ProcTable.ProcTable.BrkDispatch | port/kernel/proc.c:78-105 | a trap does the abstract step; the code goes to the frame of the caller even when the call blocks it |
| ProcTable.ProcTable.IrqDispatch | port/kernel/proc.c:57-73 | an interrupt does the abstract step |
| ProcTable.ProcTable.Kmain | port/kernel/main.c:12-56 | the booted machine is the initial state of the runs |
| ProcTable.ProcTable.CheckedMiniSend | old-minix-1.2/src/kernel/proc.c:125-180 | the send of the original, with its permission, destination, buffer and deadlock checks |
| ProcTable.ProcTable.SysCall | old-minix-1.2/src/kernel/proc.c:83-120 | the combined call implements the abstract one, codes included |
| ProcTable.ProcTable.SchedUsers | old-minix-1.2/src/kernel/proc.c:340-360 | moves the head of the user queue to the tail and picks |
| ProcTable.ProcTable.PurgeCallers | old-minix-1.2/src/kernel/system.c:248-262 | the search over all sender queues takes the process off the one queue it is on |
| ProcTable.ProcTable.DoXit | old-minix-1.2/src/kernel/system.c:223-272 | an exit implements the abstract removal, or refuses a bad number |
| InterruptTable.Controller.Send | old-minix-1.2/src/kernel/proc.c:46-58 | over the process table: a message from HARDWARE is taken if and only if the task is there and waits for it |
| InterruptTable.Controller.Attempt | old-minix-1.2/src/kernel/proc.c:44-61 | the first message: taken, counted as a lost tick, or kept in the busy map; with the map of those busy before |
| InterruptTable.Controller.RetryAll | old-minix-1.2/src/kernel/proc.c:63-73 | the loop over the tasks that were busy implements the abstract retries |
| InterruptTable.Controller.Interrupt | old-minix-1.2/src/kernel/proc.c:29-77 | interrupt() over the linked queues, the busy map and task_mess does the abstract step |
| BufferPool.SomeFree | old-minix-1.2/src/fs/cache.c:68-72 | with fewer than all buffers in use the eviction scan ends at a free one |
| BufferPool.GetKeeps | old-minix-1.2/src/fs/cache.c:30-102 | get_block returns a buffer of the block with its current contents, unless they are to be overwritten, and changes nobody else's view; the pool stays coherent |
| BufferPool.GetFrame | old-minix-1.2/src/fs/cache.c:30-102 | it touches one buffer and counts one user more |
| BufferPool.PutKeeps | old-minix-1.2/src/fs/cache.c:108-180 | put_block changes nobody's view, also when it drops or writes the block |
| BufferPool.PutFrame | old-minix-1.2/src/fs/cache.c:108-180 | it touches one buffer and counts one user fewer |
| CacheWrites.PutWrites | old-minix-1.2/src/fs/cache.c:171-176 | the last release with WRITE_IMMED leaves the block on the disk and the buffer clean; no other release writes anything, and none writes any other block |
| CacheWrites.KindsOfBlocks | old-minix-1.2/src/fs/buf.h:54-61 | so an indirect block is on the disk when it is released, and a data block is not written |
| CacheWrites.GetWrites | old-minix-1.2/src/fs/cache.c:89-101 | a get writes at most the block that it evicts |
| CacheWrites.PutDrops | old-minix-1.2/src/fs/cache.c:178-179 | a super block is not cached after its last release, any other block is |
| CacheWrites.OneShotGoesFirst | old-minix-1.2/src/fs/cache.c:145-157 | a buffer released as not needed again is the next victim |
| CacheWrites.OthersGoFirst | old-minix-1.2/src/fs/cache.c:158-169 | any other is the next victim if and only if no other buffer is free |
| CacheWrites.ImportantOnDisk | old-minix-1.2/src/fs/cache.c:171-176 | over every run in which blocks of a kind are always released with WRITE_IMMED, each of them that nobody holds is on the disk as it is seen |
| BufferPool.WriteBackKeeps | old-minix-1.2/src/fs/cache.c:246-277 | writing a buffer back changes no view and makes it agree with the disk |
| BufferPool.EditKeeps | old-minix-1.2/src/fs/cache.c:30-102 | a holder's edit shows at that block only |
| BufferPool.FlushCleans | old-minix-1.2/src/fs/misc.c:99-112 | after the flush every buffer of a device is clean and the disk shows the view |
| BufferPool.InvalidateShows | old-minix-1.2/src/fs/cache.c:283-292 | dropping a device is invisible if and only if its buffers agree with the disk |
| BufferPool.SyncThenInvalidate | old-minix-1.2/src/fs/open.c:251-255 | sync, then invalidate: no view changes |
| BufferRuns.StepKeeps | old-minix-1.2/src/fs/cache.c:30-292 | every cache operation keeps structure and coherence; of the loads of bit maps, those that lose no mark |
| BufferRuns.CacheIsStore | old-minix-1.2/src/fs/cache.c:30-292 | over every run of such operations, gets show what a plain block store would hold, in which an edit changes one block and a load sets the busy bits |
| BufferRuns.EvictsLeastRecent | old-minix-1.2/src/fs/cache.c:126-169 | over every run without one-shot releases, the victim is the free buffer released longest ago |
| BufferRuns.EvictsFromStart | old-minix-1.2/src/fs/cache.c:126-169 | in particular over every such run from the pool that buf_pool() makes |
| BufferPool.CounterPasses | old-minix-1.2/src/fs/cache.c:49-72 | from a counter that is not past the number of buffers: a get takes it past if and only if every buffer is counted and the block is cached in a free one |
| BufferPool.PutCounts | old-minix-1.2/src/fs/cache.c:124-129 | a put lowers the counter if and only if it is the last of its buffer |
| BufferPool.RefusedIff | old-minix-1.2/src/fs/cache.c:68-72 | while a buffer is free, a block that is not cached is refused exactly when the counter is the number of buffers, neither below nor past it |
| CounterRun.CounterExample | old-minix-1.2/src/fs/cache.c:49-72 | a run from the pool that buf_pool() makes, with the bit maps loaded: a get is refused with two buffers free; after a hit, which passes the counter, it is not; after the put of that buffer it is refused again |
| MapLoads.MapsHeldKeep | old-minix-1.2/src/fs/super.c:51-57 | getting the map blocks shows nothing, keeps the pool coherent, and leaves each of them in a buffer in use |
| MapLoads.MarkKeeps | old-minix-1.2/src/fs/super.c:59-60 | a change of a buffer without a dirty mark keeps the cache coherent if and only if the buffer was dirty, was yet to be overwritten, or agrees with the disk afterwards |
| MapLoads.MarkForgotten | old-minix-1.2/src/fs/super.c:59-60 | of a clean buffer, it shows until the buffer is dropped, and is gone then |
| MapLoads.LoadShows | old-minix-1.2/src/fs/super.c:34-63 | loading the bit maps of a device shows the busy bits of inodes 0 and 1 and of zone 0, and nothing else |
| MapLoads.LoadKeeps | old-minix-1.2/src/fs/super.c:34-63 | the cache stays coherent if and only if both bits are set already or their buffers are to be written anyway |
| MapLoads.LoadFromDisk | old-minix-1.2/src/fs/super.c:34-63 | for a device of which no buffer is to be written: if and only if the bits are set on the disk; loading does not set them there |
| MapLoads.LoadLosesMark | old-minix-1.2/src/fs/super.c:59-60 | a disk with the bits clear: after loading the cache shows them set, and is not coherent with the disk |
| BufferCache.BufferCache.LoadBitMaps | old-minix-1.2/src/fs/super.c:34-63 | over the linked lists: all map blocks are taken, marked and counted twice; or nothing changes, exactly when too few buffers are left, and it panics for more blocks than there are slots exactly when enough are |
| BufferCache.BufferCache.constructor | old-minix-1.2/src/fs/main.c:158-208 | buf_pool links every buffer once, on the list and on the chain of block 0 |
| BufferCache.BufferCache.SearchHash | old-minix-1.2/src/fs/cache.c:49-63 | the walk of a hash chain finds the block iff it is there |
| BufferCache.BufferCache.ScanFree | old-minix-1.2/src/fs/cache.c:70-72 | the scan from the front stops at the first free buffer |
| BufferCache.BufferCache.Unhash | old-minix-1.2/src/fs/cache.c:74-87 | a buffer leaves its chain, from the front or from the middle |
| BufferCache.BufferCache.GetBlock | old-minix-1.2/src/fs/cache.c:30-102 | the linked lists implement the abstract get; it panics if and only if the abstract one is impossible |
| BufferCache.BufferCache.Relink | old-minix-1.2/src/fs/cache.c:129-169 | a released buffer moves to the front or the rear of the doubly linked list |
| BufferCache.BufferCache.PutBlock | old-minix-1.2/src/fs/cache.c:108-180 | the linked lists implement the abstract put |
| BufferCache.BufferCache.Invalidate | old-minix-1.2/src/fs/cache.c:283-292 | the loop drops exactly the buffers of the device |
| BufferCache.BufferCache.FlushBlocks | old-minix-1.2/src/fs/misc.c:99-112 | the two passes implement the abstract flush |
| BitMaps.SetBitAt | old-minix-1.2/src/fs/super.c:132-133 | setting a bit of a word changes that bit only |
| BitMaps.ClearBitAt | old-minix-1.2/src/fs/super.c:166-167 | clearing a bit of a word changes that bit only |
| BitMaps.BitMap.constructor | old-minix-1.2/src/commands/mkfs.c:301-312 | a map as mkfs leaves it when its bits fill its blocks: bit 0 set and no other |
| BitMaps.BitMap.ScanBlock | old-minix-1.2/src/fs/super.c:117-137 | the search of one block finds its first clear bit below the end of the map, or there is none |
| BitMaps.BitMap.AllocBit | old-minix-1.2/src/fs/super.c:90-143 | for any origin and any number of blocks: sets and returns one clear bit below map_bits, the first from the origin's word on after wrapping around; NO_BIT iff all are set |
| BitMaps.BitMap.FreeBit | old-minix-1.2/src/fs/super.c:149-168 | clears that bit only; panics iff it was clear |
| Volumes.SessionKeeps | old-minix-1.2/src/fs/cache.c:30-180 | taking, changing and releasing a block is a read or a write of a plain store, whatever is evicted |
| Volumes.Volume.ReadBlock | old-minix-1.2/src/fs/cache.c:30-102 | through the real cache: the data is the current block |
| Volumes.Volume.WriteWhole | old-minix-1.2/src/fs/write.c:155-159 | an unread block overwritten is a plain write |
| Volumes.Volume.WritePart | old-minix-1.2/src/fs/read.c:219-232 | a read, patched and released block is a partial write |
| Volumes.Volume.ReadHole | old-minix-1.2/src/fs/read.c:206-209 | a buffer of no device, cleared, reads as zeros and disturbs nothing |
| Blocks.PutIndAt | old-minix-1.2/src/fs/write.c:112-114 | storing an entry of an indirect block changes that entry only |
| ZoneTree.AttachOwned | old-minix-1.2/src/fs/write.c:36-118 | a tree place that gets a free zone owns it; all other zones keep their one owner |
| ZoneTree.AttachDirect | old-minix-1.2/src/fs/write.c:60-64 | a direct entry changes one place of one tree |
| ZoneTree.AttachIndirect | old-minix-1.2/src/fs/write.c:76-94 | a fresh, zeroed single or double indirect zone changes one place of one tree |
| ZoneTree.AttachLeaf | old-minix-1.2/src/fs/write.c:96-111 | so does a fresh single indirect zone under the double one |
| ZoneTree.AttachEntry | old-minix-1.2/src/fs/write.c:108-117 | so does an entry for a data zone, across the single and double indirect ranges |
| ZoneTree.HolderUnique | old-minix-1.2/src/fs/read.c:269-290 | two relative zones never share an entry |
| FileBlocks.WriteData | old-minix-1.2/src/fs/read.c:214-233 | rewriting a data block of a file changes that block of that file, no tree and no other file |
| FileBlocks.MapKeepsBlocks | old-minix-1.2/src/fs/write.c:36-118 | a change of the map alone leaves every other block of every file as it was |
| FileBytes.DirectBlock | old-minix-1.2/src/fs/read.c:241-294 | the blocks of the first seven zones are where the inode says, zeros where it says nothing |
| FileBytes.SingleBlock | old-minix-1.2/src/fs/read.c:269-290 | the next ones are where the entries of the block in zone 7 say, two bytes each, low byte first |
| FileBytes.DoubleBlock | old-minix-1.2/src/fs/read.c:269-290 | the rest are where the entries of the blocks say that the block in zone 8 names |
| FileBytes.ByteAt | old-minix-1.2/src/fs/read.c:176-212 | byte j of a file is byte j mod the block size of its block j / block size |
| FileWrites.ClearIndices | old-minix-1.2/src/fs/write.c:145-152 | the positions and zones clear_zone computes, for any block size and zone scale |
| FileWrites.ClearedTail | old-minix-1.2/src/fs/read.c:103-107 | after clear_zone at the end of a file nothing but zeros follows the end |
| FileWrites.ChunkInNew | old-minix-1.2/src/fs/write.c:166-213 | a chunk in a new zone: zeros around it, unless it is at the very end of the file |
| FileWrites.ChunkInPlace | old-minix-1.2/src/fs/read.c:214-233 | a chunk in an existing block, read first or not |
| FileWrites.UnderwayNext | old-minix-1.2/src/fs/read.c:114-139 | each chunk brings the file nearer to the wanted contents, and keeps zones and tail in order |
| FileWrites.WriteRightIff | old-minix-1.2/src/fs/read.c:46-169 | once the zone of the position is known, a write of k bytes is the splice if and only if no byte in the gap shows through that zone; Write says it in terms of the state before |
| FileWrites.WrittenIsSpliced | old-minix-1.2/src/fs/read.c:46-169 | in particular whenever the caller's check BadGap is false |
| FileWrites.GapByte | old-minix-1.2/src/fs/write.c:202-203 | the bytes of a bad gap read as zero before the write and show the freed zone's old contents after it |
| FileWrites.AnchoredNoGap | old-minix-1.2/src/fs/write.c:202-203 | there is no bad gap while the last byte of the file has a zone |
| FileWrites.WroteBack | old-minix-1.2/src/fs/read.c:46-169 | the bytes written are in the file afterwards, whatever shows in the gap before them |
| ZoneSpace.NextZone | old-minix-1.2/src/fs/cache.c:186-220 | the zone alloc_zone() yields for a hint, as a function of the zones in use: 0 iff all are, else a free one |
| ZoneSpace.NextZoneIs | old-minix-1.2/src/fs/super.c:107-137 | it is the only free zone before which, from the word of the hint on with wraparound, all are in use |
| ZoneSpace.NewZoneNear | old-minix-1.2/src/fs/write.c:188-195 | a new zone is the first free one from the word of the bit map on that has the first zone of the file, if there is one there; else, and for a file without contents or first zone, the first free zone of all |
| ZoneSpace.PlacesAre | old-minix-1.2/src/fs/write.c:36-118 | the places of a file that own a zone are those with an entry in its tree |
| ZoneSpace.GotZone | old-minix-1.2/src/fs/write.c:166-213 | when a zone was found, exactly the missing places on the way to it have been paid for |
| ZoneSpace.NoZone | old-minix-1.2/src/fs/write.c:186-199 | when none was found, the missing places exceed the room there was, and at most a new double indirect zone stays |
| ZoneSpace.FitsMono | old-minix-1.2/src/fs/read.c:114-139 | fewer bytes need no more zones |
| ZoneSpace.RoomReached | old-minix-1.2/src/fs/read.c:114-139 | stopping at the first chunk without room is stopping exactly where the zones still needed exceed the free ones |
| WriteSteps.GoingOn | old-minix-1.2/src/fs/read.c:114-139 | a chunk that found room: more bytes written, zones paid for, nothing else changed |
| WriteSteps.GoingStops | old-minix-1.2/src/fs/read.c:114-139 | a chunk that found none: what was written stays, and all of it with the next chunk had no room at the start |
| WriteSteps.WriteJudged | old-minix-1.2/src/fs/write.c:202-203 | the write was the splice if and only if, in the state before, there was not room for it, or the zone the bit map would yield was blank in the gap |
| WriteSteps.AnchoredNotSpoiled | old-minix-1.2/src/fs/write.c:202-203 | no write spoils a file whose last byte has a zone |
| WriteSteps.StillAllAnchored | old-minix-1.2/src/fs/read.c:143-147 | a write that wrote something, or did not begin past the end, leaves every file with its last zone |
| Files.FileSystem.constructor | old-minix-1.2/src/commands/mkfs.c:233-320 | a file system just made, with bit 0 and any bits past the end set, satisfies the invariant |
| Files.FileSystem.AllocZone | old-minix-1.2/src/fs/cache.c:186-220 | the first free zone from the word of the hint on, with wraparound, or NO_ZONE iff none is; the bit map records it |
| Files.FileSystem.FreeZone | old-minix-1.2/src/fs/cache.c:226-240 | frees that zone; panics iff it was free |
| Files.FileSystem.ReadMap | old-minix-1.2/src/fs/read.c:241-294 | the block of a position by the abstract tree, through direct, single and double indirect zones |
| Files.FileSystem.HangTop | old-minix-1.2/src/fs/write.c:76-94 | a single or double indirect zone is made, or nothing is and the zone set aside was the last |
| Files.FileSystem.HangLeaf | old-minix-1.2/src/fs/write.c:96-106 | the same for a single indirect zone under the double one |
| Files.FileSystem.PutEntry | old-minix-1.2/src/fs/write.c:108-117 | the new zone is entered; every other relative zone of every file maps as before |
| Files.FileSystem.WriteMap | old-minix-1.2/src/fs/write.c:36-118 | on OK the position maps to the new zone and everything else as before; on ENOSPC the indirect zone is missing, no zone is left for it and no data zone has moved; only places on the way to the position got zones; ownership and bit map agree on every path |
| Files.FileSystem.ClearZone | old-minix-1.2/src/fs/write.c:123-160 | zeroes exactly the blocks from the position to the end of its zone |
| Files.FileSystem.NewBlock | old-minix-1.2/src/fs/write.c:166-213 | a zone for a position that has none, the next of the bit map, if and only if there is room for it and its indirect zones; on failure it is given back, and exactly a new double indirect zone can stay |
| Files.FileSystem.WriteChunk | old-minix-1.2/src/fs/read.c:176-234 | part of one block, in place or in a new zone; other files unchanged |
| Files.FileSystem.ReadChunk | old-minix-1.2/src/fs/read.c:176-234 | part of one block, zeros where there is none |
| Files.FileSystem.Write | old-minix-1.2/src/fs/read.c:46-169 | file refinement: EFBIG exactly when too long; as many bytes as there is room for, and no more; size and position; contents spliced and zero-extended if and only if, in the state before, the write does not spoil the file; other files unchanged; bit map equals owned zones afterwards; files keep their last zone unless nothing was written past the end |
| Files.FileSystem.Read | old-minix-1.2/src/fs/read.c:46-169 | exactly the bytes asked for, up to the end of the file, holes as zeros |
| Files.FileSystem.WriteThenRead | old-minix-1.2/src/fs/read.c:46-169 | a read gives back what a write has put into the file, all of it or the part there was room for |
| StaleRun.Run | old-minix-1.2/src/fs/write.c:202-203 | a run of the FileSystem class on one zone: a write fails past the end of file 1, file 0 is truncated, the next write at the end of file 1 shows bytes of file 0: what file 1 then holds, and reads as, is not the splice |
| TreeSteps.LeftLess | old-minix-1.2/src/fs/link.c:164-180 | each place of a tree accounts for one zone in use, so no zone is freed twice |
| Files.FileSystem.FreeData | old-minix-1.2/src/fs/link.c:162-168 | the walk by positions frees exactly the data zones |
| Files.FileSystem.FreeLeaves | old-minix-1.2/src/fs/link.c:172-182 | the walk over the double indirect block frees exactly the single indirect zones |
| Files.FileSystem.Truncate | old-minix-1.2/src/fs/link.c:142-189 | frees exactly the zones of the file, each once (the free_bit panic is out of reach), and empties it; other files keep their contents and their last zones |
| EditScripts.ReachesPatch | old-minix-1.2/src/commands/diff.c:198-292 | hunks that account for two prefixes patch the one into the other, and back |
| EditScripts.HunkAdded | old-minix-1.2/src/commands/diff.c:262-292 | the hunk printed for the next lines is right and apart from those before |
| EditScripts.ScriptComplete | old-minix-1.2/src/commands/diff.c:250-260 | hunks accounting for both files are an edit script |
| Diff.Window.Next | old-minix-1.2/src/commands/diff.c:156-177 | the next line of the file, from those put aside or from the file; nothing at its end |
| Diff.Window.Advance | old-minix-1.2/src/commands/diff.c:125-138 | drops the first line of the window and counts it |
| Diff.Window.Aside | old-minix-1.2/src/commands/diff.c:140-154 | puts the lines after one aside, to be read again in order |
| Diff.Window.Update | old-minix-1.2/src/commands/diff.c:188-196 | prints and drops the lines before the end of the window |
| Diff.Window.WLen | old-minix-1.2/src/commands/diff.c:294-305 | the number of those lines |
| DiffSearch.MeetingUnique | old-minix-1.2/src/commands/diff.c:212-246 | there is one place where two files first meet, in the order of the search |
| DiffSearch.RoundOver | old-minix-1.2/src/commands/diff.c:212-246 | a round that finds nothing: no three equal lines begin within that many lines of both files |
| DiffSearch.HeadingReads | old-minix-1.2/src/commands/diff.c:262-292 | what a heading says in line numbers from 1 on is what the hunk holds |
| DiffSearch.OneScript | old-minix-1.2/src/commands/diff.c:198-260 | there is only one output that accounts for both files and of which every hunk begins where they differ and ends where they first meet again, or with both files when they do not |
| Diff.Equal3 | old-minix-1.2/src/commands/diff.c:83-93 | three lines in a row are there and equal |
| Diff.FindSame3 | old-minix-1.2/src/commands/diff.c:222-229 | the first place where three lines agree, or none |
| Diff.Comparison.Differ | old-minix-1.2/src/commands/diff.c:262-292 | prints one truthful hunk, or none when both windows are empty |
| Diff.Comparison.Round | old-minix-1.2/src/commands/diff.c:219-245 | one round: the files meet at the line reached in one of them, at the first such pair in the order of the search, or a file ends and they do not meet at all, or no pair is within reach of this round |
| Diff.Comparison.Search | old-minix-1.2/src/commands/diff.c:212-246 | the search ends where three equal lines first begin in both files, the longer of the two ways as short as can be, with the hunk up to there printed; or at the end of a file, exactly when there is no such place that both files reach |
| Diff.Comparison.Compare | old-minix-1.2/src/commands/diff.c:198-260 | for any two line sequences: applying the hunks to the first gives the second and back, hunks are increasing and apart, diffs is 0 iff the files are equal, every hunk begins where the files differ and ends where they first meet again (so the output is the one of OneScript); it terminates |
| Fat.PackedEntries | old-minix-1.2/src/commands/dosread.c:870-878 | three bytes of the table, low byte first, hold two entries of twelve bits |
| Fat.ClusterValues | old-minix-1.2/src/commands/dosread.c:880-885 | the eight values from FF8 on end a chain, the eight before them tell of a bad cluster, and any other is the next cluster |
| Fat.LinkedEntry | old-minix-1.2/src/commands/dosread.c:854-886 | link_fat changes exactly one twelve-bit entry, as read by next_cluster |
| Fat.Diskette.LinkFat | old-minix-1.2/src/commands/dosread.c:854-868 | the two bytes changed in place are the abstract update |
| Fat.Diskette.FreeCluster | old-minix-1.2/src/commands/dosread.c:837-852 | the next free cluster from the static index on, or past the end when there is none |
| Fat.Diskette.Fill | old-minix-1.2/src/commands/dosread.c:617-639 | the next cluster full of input, short only at its end |
| Fat.Diskette.MakeFile | old-minix-1.2/src/commands/dosread.c:483-537 | stores the input in formerly free, distinct clusters, linked in order and closed, all of it or as much as there are free clusters; everything else is unchanged |
| Fat.Diskette.Extract | old-minix-1.2/src/commands/dosread.c:391-421 | follows a chain for the size given, with the outcomes for short, long and bad chains |
| Fat.RoundTrip | old-minix-1.2/src/commands/dosread.c:391-421 | extracting a made file gives the stored bytes, without a complaint |
| Fat.OtherChains | old-minix-1.2/src/commands/dosread.c:483-537 | every chain that was there is intact, links and bytes |
| InodeTables.InodeTable.Search | old-minix-1.2/src/fs/inode.c:41-51 | the search finds the slot that holds an inode, or a free slot when there is one |
| InodeTables.InodeTable.GetInode | old-minix-1.2/src/fs/inode.c:30-66 | one more user of the current contents, in the one slot of that inode; nobody else sees a change; nil iff the table is full and the inode is not in it |
| InodeTables.InodeTable.DupInode | old-minix-1.2/src/fs/inode.c:229-237 | one more user, and no view changes |
| InodeTables.InodeTable.PutInode | old-minix-1.2/src/fs/inode.c:72-92 | one user less; the last one frees an inode without links, exactly once (the free_bit panic is out of reach), and writes back one that changed; all other views stay |
| InodeTables.InodeTable.AllocInode | old-minix-1.2/src/fs/inode.c:97-148 | the lowest free number in a free slot, with nothing in it but the mode; or nothing changes and the bit is given back |
| InodeTables.Regained | old-minix-1.2/src/fs/inode.c:30-66 | a slot that gets an inode with its current contents changes no view |
| InodeTables.Released | old-minix-1.2/src/fs/inode.c:80-91 | when the last user is gone the disk shows the inode, and nobody holds it |
| Directories.Erased | old-minix-1.2/src/fs/path.c:263-266 | erasing the slot of a name removes that name from the listing |
| Directories.Filled | old-minix-1.2/src/fs/path.c:299-307 | filling a free slot adds the name, if and only if it was absent the names stay unique |
| Directories.Directory.SearchBlock | old-minix-1.2/src/fs/path.c:255-278 | the search of one block, for a name or a free slot |
| Directories.Directory.Scan | old-minix-1.2/src/fs/path.c:248-283 | the search of all blocks |
| Directories.Directory.SearchDir | old-minix-1.2/src/fs/path.c:214-309 | LOOK_UP, ENTER and DELETE refine lookup, insert and remove on a finite map; erased slots are used again; growth is by one slot, only when none is free |
| DirectoryFiles.EntryBytes | old-minix-1.2/src/fs/path.c:299-301 | an entry is the inode number, low byte first, and the fourteen characters of the name |
| DirectoryFiles.SpliceEntry | old-minix-1.2/src/fs/path.c:294-308 | sixteen bytes written at a slot, or at the end, of a directory file are that slot, and all other slots are as before |
| DirectoryFiles.EntryWhole | old-minix-1.2/src/fs/path.c:287-292 | an entry lies in one block, so it is written whole or not at all, the latter exactly when there is no room for the zone it needs |
| DirectoryFiles.Erase | old-minix-1.2/src/fs/path.c:263-266 | erasing the slot of a name in a file needs no zone, removes that name, and changes no other file |
| DirectoryFiles.EnterAt | old-minix-1.2/src/fs/path.c:285-309 | a name goes into the first free slot or one past the end; ENOSPC if and only if that slot has no zone and there is no room for one; a failure changes the contents of no file |
| DirectoryFiles.SearchDir | old-minix-1.2/src/fs/path.c:236-309 | over the FileSystem class: LOOK_UP, ENTER and DELETE on a directory in a file refine lookup, insert and remove on a finite map; the code of a failed ENTER is determined by the state before; the contents of all other files stay |
| Pipes.UpUpdate | old-minix-1.2/src/fs/pipe.c:208-212 | counting flags: one flag changed changes the count by one |
| Pipes.PipeTable.Revive | old-minix-1.2/src/fs/pipe.c:189-218 | marks a suspended process and counts it once |
| Pipes.PipeTable.Release | old-minix-1.2/src/fs/pipe.c:162-183 | revives exactly the first count matching processes, and no more than count |
| Pipes.PipeTable.ReleaseOne | old-minix-1.2/src/fs/pipe.c:162-183 | of one call: the first one suspended, and nobody else |
| Pipes.LedgerCall | old-minix-1.2/src/fs/main.c:68-98 | carrying out a call that was put aside keeps the account of all calls and bytes |
| Pipes.PipeTable.Turn | old-minix-1.2/src/fs/main.c:44-61 | the main loop: over any number of turns each request of a process is carried out once and in order, or is put aside as it was made; the bytes moved are those of the calls carried out; calls to be done again come first; a reader does not sleep while there are bytes for it |
| Pipes.PipeTable.ReadWrite | old-minix-1.2/src/fs/pipe.c:84-134 | a bounded FIFO: bytes delivered plus bytes held are the bytes written, in order; a write is all or nothing; a suspended call transfers nothing; a read put aside wakes the first suspended writer, a write that finds the pipe at position 0 the first suspended reader, and no other call wakes anybody |
| Pipes.TurnLively | old-minix-1.2/src/fs/pipe.c:97-134 | with one reader of a pipe, kept by every turn: while the pipe holds bytes its reader is not asleep on it, and a reader and all who hang on the other end are never asleep at once |
| Pipes.CloseLively | old-minix-1.2/src/fs/open.c:259-266 | closing an end keeps that |
| PipeRun.TwoReaders | old-minix-1.2/src/fs/pipe.c:129-130 | with two readers it is false: a run after which a byte is in the pipe and the second reader sleeps, and so does the writer |
| Pipes.PipeTable.DoRead | old-minix-1.2/src/fs/read.c:110-156 | reads what is there, waits for a writer, or sees the end |
| Pipes.PipeTable.DoWrite | old-minix-1.2/src/fs/pipe.c:112-131 | writes all, waits for room, or fails without reader or room ever |
| Pipes.PipeTable.GetWork | old-minix-1.2/src/fs/main.c:68-98 | a revived call is restarted with its own parameters; the panic is out of reach |
| Pipes.PipeTable.Open | old-minix-1.2/src/fs/pipe.c:35-78 | a new pipe is empty and has one end open for either side; no call is lost |
| Pipes.PipeTable.Close | old-minix-1.2/src/fs/open.c:259-266 | closing one end revives everybody hanging on the other, and nobody else |
| ClockTicks.EveryTickCounts | old-minix-1.2/src/kernel/clock.c:158-163 | over every interleaving of interrupts with the statements: time plus missed ticks plus the one in hand is the number of interrupts |
| ClockTicks.TimeCatchesUp | old-minix-1.2/src/kernel/clock.c:150-163 | undisturbed, the clock task makes the time right |
| ClockAlarms.Alarms.SetAlarm | old-minix-1.2/src/kernel/clock.c:93-120 | sets one alarm; next_alarm is the earliest; the reply is the seconds left of the last one, truncated toward zero |
| ClockAlarms.Alarms.ClockTick | old-minix-1.2/src/kernel/clock.c:150-189 | exactly the alarms due go off, once and in table order; none is due afterwards; next_alarm never exceeds one that is set |
| ClockAlarms.GoneOffIff | old-minix-1.2/src/kernel/clock.c:168-182 | a slot goes off iff its alarm is set and due |
| ClockAlarms.GoneOffOnce | old-minix-1.2/src/kernel/clock.c:168-182 | and at most once |

## Left out

- RendezvousRuns.TrapKeeps: leaves out a SEND to a number outside the table and a buffer outside memory, which the port uses unchecked: what they touch is not part of this model.
- MinixKernel.Kill: does not model the accounting fields, the pending-signal count and the name of the process, which no queue depends on; the alarm is in ClockAlarms.Alarms.TurnOff.
- MinixKernel.SysCallKeeps: leaves out a task or a server that sends to ANY, which the first test lets through: the send then uses a slot past the table.
- MinixKernel.SysCallHead: leaves out the same call.
- ProcTable.ProcTable.SysCall: leaves out the same call.
- MinixKernel.EnterKeeps: lets a message from HARDWARE come at any time; those of devices, with the busy map, are in Interrupts.
- Interrupts.NoInterruptLost: takes interrupts as they reach `interrupt()`, one at a time, with a message buffer of each device in memory; what a device driver does with the message is not part of this model, and `cause_sig()` only sends to MM.
- ProcTable.ProcTable.CheckedMiniSend: models the test of the buffer against the data segment as a buffer that lies in memory or not.
- ProcTable.ProcTable.StartTask: does not model the stack frame of a task.
- ProcTable.ProcTable.Kmain: does not model the stacks and the entry points of the tasks.
- Files.FileSystem.WriteMap: zeroes a fresh indirect block and takes it again for the entry, where the code holds it across both; EFBIG cannot be reached below the maximum size.
- Files.FileSystem.NewBlock: does not look the position up a second time, and leaves the zeroing of the buffer to the chunk that fills it.
- Files.FileSystem.Truncate: does not model pipes, whose size is set to the pipe size first.
- Files.FileSystem.Write: does not model times, the dirty flags of inodes and super blocks, or character and block special files.
- Files.FileSystem.Read: does not model read-ahead.
- BufferCache.BufferCache.LoadBitMaps: leaves out a super block without an inode map or a zone map, of which the code marks a slot that it has not filled.
- BufferRuns.CacheIsStore: leaves out loads of bit maps that lose a mark; after one of those it fails when the buffer is dropped (MapLoads.MarkForgotten).
- Pipes.PipeTable.ReadWrite: keeps the bytes of a pipe as a sequence beside the file system, because emptying a pipe sets its size to 0 with its zones still mapped and their bytes in them, where a file keeps zeros behind its end; assumes that the device has room for them; `susp_count` and signals to waiting processes are not modelled.
- Pipes.PipeTable.Revive: does not model processes that wait for a terminal, which are answered at once.
- Pipes.TurnLively: is for pipes that one process reads; of those that several read it is false (PipeRun.TwoReaders).
- BufferCache.BufferCache.FlushBlocks: does not say in which order blocks are written, drive 0 first, which the disk does not show afterwards.
- Pipes.PipeTable.DoRead: releases a writer whatever `susp_count` is.
- DirectoryFiles.SearchDir: reads and writes slots through `read_write()` where the code works in the block it has, so a slot past the maximum file size is refused first; takes a name of fourteen characters; asks that every file has the zone of its last byte, as every operation but a failed write past the end leaves it.
- Directories.Directory.SearchDir: takes whether a new block can be had as a parameter and keeps the slots as one sequence (DirectoryFiles.SearchDir does not); does not model permissions, times, the test for a directory, and the wrap-around of the slot count at 65536.
- Fat.Diskette.Extract: leaves out a chain that runs into a free entry or out of the table, where the code reads what is not a cluster.
- Fat.Diskette.MakeFile: does not model the directory entry, the date, and ASCII mode.
- Diff.Comparison.Compare: takes lines as read_line() delivers them, cut at 128 characters, and prints hunks as values, not as text.
- ClockAlarms.Alarms.ClockTick: does not model accounting, the scheduling of users every tenth of a second, and the printer watchdog; a watchdog or a signal is a number in a log.
- Copying of processes and program images in the kernel (`do_fork`, `do_exec`), the terminal driver, the disk and printer drivers, and boot code: hardware or configuration.
- InodeTables.InodeTable.GetInode: leaves out an inode whose bit is clear, which no directory entry names.
- InodeTables.InodeTable.PutInode: takes truncation as wiping the inode; the zones are freed by Files.FileSystem.Truncate.
- Mounting, path parsing, protection: easier members of the same kind.
- Far pointers, banks and assembly code of the port.
