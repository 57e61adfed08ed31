# A verified model of the practica/zeos kernel

ZeOS is a small x86 teaching kernel. This project models the kernel under `practica/zeos` and the
maze search and game loop of its Pac-Man program, in Dafny, and proves what the parts promise.
`dafny verify dfyconfig.toml` checks everything.

## What is modelled

**Copy-on-write address spaces.** `AddressSpaces` holds the memory of the kernel as a value (use
counters of 1024 frames, ten page tables, physical memory, ten shared regions, the free queue) and
what fork, a page fault, a user write and a shared-memory attach do to it. `KernelMemory` is the C code
in place: a class whose counters, tables, memory and regions are arrays that `alloc_frame`, `set_ss_pag`,
`pagefault_routine`, `sys_shmat`, `sys_fork` and the boot routines overwrite; each method is proved
equal to the value-level step. `CowInvariant`, `ForkProof` and `FaultProof` prove what every step
keeps, and `EagerRefinement`, `Boot` and `KernelRuns` prove the theorems about every run from boot:

* the processes read, on every mapped page from the code on, and the calls answer, exactly as if each
  fork had copied its twenty data pages at once (`Boot.CopyOnWriteIsEagerCopy`, and for the in-place
  kernel `KernelRuns.BootRunRead`);
* `phys_mem` counts the mappings of each data frame and never wraps, and a writable page is the only
  mapping of its frame (`Boot.FramesAreCounted`);
* `referencias` counts the mappings of each region in the shared range and the attaches that landed
  below the code, of which there are at most three (`Boot.ReferencesAreCounted`);
* the allocation in the fault handler, whose result is not checked, never fails, although every fork
  loses the twenty frames that it allocates and then overwrites; and on no page, mapped or not, does
  the handler find the zero counter that it reports and hangs on (`Boot.FramesSuffice`).

**The scheduler.** `RingList` is the intrusive circular list: nodes on the heap whose `next` and
`prev` are rewired, with any number of rings. `Scheduling` is round robin as a value, with the tick
counters of every task; `RoundRobin` does it in place on rings of task anchors and is proved equal to
it. The theorems: the slots are partitioned among the queues in every reachable state, ticks are
conserved modulo 2^32, and every ready task runs within 80 ticks, yields and exits.

**The whole kernel.** `Zeos` puts both halves on the same task slots: the running task forks, reads,
writes and attaches, the timer and the calls decide who runs, and whether a fork succeeds is what the
memory half says. `Zeos.ZeosIsEager`, and `Zeos.BootAndPerform` for the classes in place, show that all
results in their order are those of eager copy; `Zeos.ForksSucceed` shows that no fork returns `-EAGAIN`
before a task exits.

**The game.** `MazeSearch` is the breadth-first search on arrays. It is proved to answer the first
step of a shortest walk (the least such direction), and `Still`, the name of `DT_NULL` here, exactly
when there is no walk or none is needed. `PacmanGame` is the game loop with its two coordinate
conventions, proved frame by frame against a relation on values; `StartMaze` is the maze of
`init_game`.

**Small parts.** `CopyData` is `copy_data` with its word loop and byte loop on overlapping or
disjoint ranges. `Keyboard` is the circular buffer with `sys_read`. `Ticks` is the 64-by-32 division
in two machine divisions. `LibC` is `itoa` and `strlen`.

**Laws.** What each step does is also stated without the functions that compute it: `MemoryLaws` tells
every memory event by how the reads of all processes change, `SchedulingLaws` tells who runs, how long,
under which PID, and which clock difference each counter gets, `GameLaws` tells where Pacman and the
phantoms go, what is eaten and when a life is lost, and `ZeosLaws` carries the first two over to the
joint machine, where the n-th successful fork from boot returns 1000 + n, the PID of its child.

`Common`, `Paging` (the frame pool) and `Counting` (sizes of sets) serve the others; `BootImage` and
`ForkSteps` describe the memory after boot and inside the loops of fork.

Clock readings, keys, the bytes the loader left in memory, the positions of the guard pages around
the task array, the answers of `access_ok`, the food total before a game and the phantoms' initial
directions are arbitrary parameters.

## Where the code differs from what one would expect

* `sys_fork` gives back frames with `free_frame`, which ignores frame 256. A fork that lacks frames
  restores the counters if and only if frame 256 was in use (`Boot.FailedForkRestoresCounters`).
  Task 1's first code page is that frame, so it always is. `Boot.FailedForkCanSpoilCounters` gives a
  state in which it is not.
* `sys_shmat` accepts requests below the code, where the table of task 1 has absent pages. Such an
  attach is counted but lies outside the range that fork counts; `Boot.AttachesLow` says exactly when
  it happens.
* The frames that `sys_fork` allocates for the child stay marked as used and mapped nowhere, since
  the sharing loop overwrites the entries. The model keeps this.
* `copy_data` is exact on every memory if and only if the destination does not start inside the source
  range after its first byte (`CopyData.ExactIffNoForwardOverlap`).
* `sys_read` with a negative size reads nothing and returns that size.
* In `move_phantoms` the second test for phantom 0 repeats the first one, so phantom 0 never stands
  still where the other three do (`PacmanGame.FirstPhantomNeverStops`, `PacmanGame.OthersStop`).
* `total` is not reset when a second game starts. The points end a game with no food left if and only if
  it is the first one (`PacmanGame.WonWhenAllEaten`).
* The comment in `sys_fork` speaks of copying the data pages through a temporary page; the code
  shares them.
* Phantom and Pacman positions swap x and y. `PacmanGame.PhantomTurnChases` shows that the search and
  `move` nevertheless agree.

## Model

| member | source | states |
|---|---|---|
| Boot.CopyOnWriteIsEagerCopy | practica/zeos/sys.c:124-132 | after any forks, writes and attaches from boot, every read of a code, data or shared page and every answer is that of a system in which fork copies all data pages at once |
| Boot.FramesAreCounted | practica/zeos/interrupt.c:146-169 | in every reachable state the counter of a mapped data frame is the number of its mappings, between 1 and 10, all on one page number, and a writable mapping is the only one |
| Boot.ReferencesAreCounted | practica/zeos/sys.c:134-143 | in every reachable state `referencias` of each region is the number of shared-page entries over all tables that map it, plus the attaches of it that landed below the code, at most three |
| Boot.AttachesLow | practica/zeos/sys.c:257-274 | an attach lands below the code if and only if a page from the requested one on is absent there; only task 1 has such pages |
| Boot.MappedIsUsers | practica/zeos/mm.c:249-257 | in every reachable state each mapped page of a live task from the code on has its user bit |
| Boot.FramesSuffice | practica/zeos/interrupt.c:146-156 | in every reachable state a fault on any page, mapped or not, finds a counter above 0 and, to split, a free frame; fork never lacks frames and fails exactly when no slot is free; the free frames are exactly 346 less those mapped since boot and 20 per fork, at least 26 |
| Boot.FailedForkRestoresCounters | practica/zeos/sys.c:98-111 | from any state, a fork without enough frames leaves `phys_mem` as it was if and only if frame 256 was in use |
| Boot.FailedForkCanSpoilCounters | practica/zeos/mm.c:242-246 | with frame 256 as the only free one a fork fails and changes the counters |
| Boot.FailedForkKeepsTheRest | practica/zeos/sys.c:98-111 | such a fork maps nothing new, changes at most data entries of the child to empty, keeps memory and regions, and moves the slot to the end of the free queue |
| Boot.BootInv | practica/zeos/mm.c:81-105 | the memory invariant holds after boot |
| MemoryLaws.ForkShows | practica/zeos/sys.c:114-143 | the child reads on every page what its parent reads there, and no other read changes |
| MemoryLaws.ForkMaps | practica/zeos/sys.c:114-143 | the entries after a fork: kernel, code and shared pages of the child writable on the frames of the parent, the data of both read-only, all other tables unchanged |
| MemoryLaws.FullForkShows | practica/zeos/sys.c:73-74 | without a free slot a fork changes nothing |
| MemoryLaws.WriteShows | practica/zeos/interrupt.c:141-172 | a write is read back; on a data page no other read of anybody changes, on a code page all tasks see it, in a region all pages that show the region |
| MemoryLaws.LostWrite | practica/zeos/interrupt.c:141-172 | a write to a page that is not mapped changes nothing that is modelled |
| MemoryLaws.AttachShows | practica/zeos/sys.c:257-274 | the first absent page from the requested one on shows the bytes of the region, and no other read changes |
| MemoryLaws.BadAttach | practica/zeos/sys.c:252-253 | an identifier outside 0..9 changes nothing |
| MemoryLaws.BootMaps | practica/zeos/mm.c:55-105 | every entry of every table after boot |
| MemoryLaws.BootFrames | practica/zeos/sched.c:271-285 | the region frames and every counter after boot |
| MemoryLaws.BootShows | practica/zeos/mm.c:81-105 | after boot task 1 reads the frames the loader filled and nobody else reads anything |
| MemoryLaws.SeenRel | practica/zeos/interrupt.c:141-172 | every state is related to an eager one |
| EagerRefinement.StepRel | practica/zeos/sys.c:67-172 | each event keeps the simulation between copy-on-write and eager copy and gives the same answer |
| EagerRefinement.RunRefs | practica/zeos/sys.c:134-143 | over any run, the references that no shared page accounts for grow by the attaches that landed below the code |
| EagerRefinement.LowRun | practica/zeos/mm.c:64-74 | over any run, such attaches and the pages task 1 has left there are at most those it had; no forked task has any |
| EagerRefinement.RunRel | practica/zeos/sys.c:67-172 | so does each sequence of events, from any two related states |
| EagerRefinement.ReadRel | practica/zeos/interrupt.c:141-172 | related states show the same bytes to every process |
| EagerRefinement.FaultRel | practica/zeos/interrupt.c:141-172 | a page fault is invisible: the faulted state stays related to the same eager state |
| EagerRefinement.ForkRel | practica/zeos/sys.c:114-143 | sharing read-only is related to copying |
| EagerRefinement.WriteRel | practica/zeos/interrupt.c:141-172 | a write, with its fault if there is one, changes one private page, the common code or one region and nothing else that anybody reads |
| EagerRefinement.AttachRel | practica/zeos/sys.c:242-275 | an attach lands on the first page from the requested one on where nothing is mapped, the same in both systems |
| EagerRefinement.WritableAlone | practica/zeos/interrupt.c:150-151 | the frame of a writable data page is mapped nowhere else |
| ForkProof.ForkKeepsInv | practica/zeos/sys.c:67-172 | fork keeps counters, references, budget and read-only sharing right, and never runs out of frames |
| ForkProof.ForkCountsAt | practica/zeos/sys.c:125-132 | after a fork each data frame of the parent counts one more mapping and every other one the same, as the tables do |
| ForkProof.ForkRefs | practica/zeos/sys.c:134-143 | the references added by inheritance are the shared entries the child got |
| ForkProof.ForkCodeOk | practica/zeos/sys.c:120-123 | all tasks map the same eight code frames, whose counters stay 1 |
| FaultProof.FaultKeepsInv | practica/zeos/interrupt.c:141-172 | a fault on a data page is ready and does not hang, and splitting or re-enabling keeps the invariant |
| FaultProof.FaultElsewhere | practica/zeos/interrupt.c:146-151 | a fault on any other page, absent or not, finds counter 1, sets the rw bit and changes nothing else, so an absent page stays absent |
| FaultProof.CodeFaultKeepsInv | practica/zeos/interrupt.c:150-151 | a write fault on a code page keeps the invariant |
| FaultProof.SplitKeepsInv | practica/zeos/interrupt.c:152-169 | the split keeps the invariant: one mapping less of the old frame, one of a new frame |
| FaultProof.EnableKeepsInv | practica/zeos/interrupt.c:150-151 | making a page writable again is right when its counter is 1 |
| FaultProof.WindowKept | practica/zeos/interrupt.c:154-165 | the temporary use of page 285 leaves its mapping as it was |
| FaultProof.WriteKeepsInv | practica/zeos/interrupt.c:141-172 | a user write to any mapped page from the code on gets past its fault and keeps the invariant |
| FaultProof.AttachKeepsInv | practica/zeos/sys.c:242-275 | an attach maps the first absent page from the requested one on, never a code or data page, and keeps the invariant |
| FaultProof.AttachRefs | practica/zeos/sys.c:264-274 | the new reference is one shared entry more, or a page below the code |
| CowInvariant.CountBounded | practica/zeos/sys.c:129 | a counter lies between 1 and the number of address spaces, so the Byte does not wrap |
| CowInvariant.SharedNotWritable | practica/zeos/sys.c:130-131 | two tasks that map one frame both map it read-only and its counter is at least 2 |
| CowInvariant.PoolSuffices | practica/zeos/mm.c:214-227 | k forks use at most 40 k of the 346 frames free after boot |
| AddressSpaces.FirstAbsent | practica/zeos/sys.c:257-271 | the least page from k on that is not present, or 1024 when all are |
| Paging.PoolMembers | practica/zeos/mm.c:214-227 | the pool holds exactly the free frames at even distance from the first |
| Paging.PoolAscends | practica/zeos/mm.c:214-227 | frames are handed out in ascending order |
| Paging.PoolAfterMark | practica/zeos/mm.c:214-227 | after n allocations the pool is what was behind the first n frames |
| Paging.PoolOfFresh | practica/zeos/mm.c:214-227 | a free range gives every second frame |
| BootImage.CountsAfterStep | practica/zeos/mm.c:214-227 | the n-th allocation of boot gives frame 256 + 2 n |
| ForkSteps.TakenStep | practica/zeos/sys.c:91-97 | the n-th allocation of fork takes the n-th pool frame and maps it on the n-th data page |
| ForkSteps.GivenBackStep | practica/zeos/sys.c:101-105 | one round of the rollback frees one frame, except frame 256, and unmaps its page |
| ForkSteps.GivenBackEnd | practica/zeos/sys.c:101-105 | the whole rollback gives the state before, but for frame 256 and the unmapped pages |
| ForkSteps.SharingData | practica/zeos/sys.c:125-132 | one round of the data loop is one more page of the shared tables and counters |
| ForkSteps.SharingCode | practica/zeos/sys.c:116-123 | one round of the kernel and code loops copies one entry of the parent |
| ForkSteps.SharingEnd | practica/zeos/sys.c:114-143 | all rounds together are the fork of the value model |
| ForkSteps.InheritStep | practica/zeos/sys.c:138-141 | one round of the region loop counts the page for exactly the region it maps |
| KernelMemory.Kernel.Static | practica/zeos/mm.c:196-210 | the static memory before boot, and in the frames the bytes the loader left |
| KernelMemory.Kernel.AllocFrame | practica/zeos/mm.c:214-227 | returns and marks the first frame of the pool, or returns -1 and changes nothing when the pool is empty |
| KernelMemory.Kernel.FreeFrame | practica/zeos/mm.c:242-246 | frees frames above 256 and ignores all others |
| KernelMemory.Kernel.SetSsPag | practica/zeos/mm.c:249-257 | maps one page for the user, writable, and leaves every other entry |
| KernelMemory.Kernel.DelSsPag | practica/zeos/mm.c:260-263 | clears one entry and leaves every other one |
| KernelMemory.Kernel.GetFrame | practica/zeos/mm.c:266-268 | the frame of the entry |
| KernelMemory.Kernel.CopyThroughWindow | practica/zeos/interrupt.c:154-165 | the new frame holds the bytes of the faulting page, unless that is the window page itself, and the window page is as before |
| KernelMemory.Kernel.PageFault | practica/zeos/interrupt.c:141-172 | in place and on any page, exactly the split, re-enable or endless loop of the value model |
| KernelMemory.Kernel.UserWrite | practica/zeos/interrupt.c:141-172 | a store with the fault it may raise, exactly as in the value model |
| KernelMemory.Kernel.Shmat | practica/zeos/sys.c:242-275 | exactly the attach of the value model; -125 for an unaligned address, -22 for a bad identifier or when no page from the requested one on is absent; else the address, a multiple of 4096, of the first absent page, which now maps the frame of that region, with one reference more |
| KernelMemory.ShmatMeans | practica/zeos/sys.c:242-275 | the value model meets that |
| KernelMemory.StoreThrough | practica/zeos/sys.c:266-274 | a store at offset o from the returned address goes to byte o of the region |
| KernelMemory.Kernel.AllocateData | practica/zeos/sys.c:91-112 | maps pool frames in order until twenty are mapped or the pool is empty |
| KernelMemory.Kernel.DeallocateData | practica/zeos/sys.c:101-105 | undoes that, but for frame 256 |
| KernelMemory.Kernel.ShareCode | practica/zeos/sys.c:116-123 | the child maps the parent's kernel and code frames |
| KernelMemory.Kernel.ShareData | practica/zeos/sys.c:125-132 | parent and child map the parent's data frames read-only and every counter grows by one |
| KernelMemory.Kernel.ShareRegions | practica/zeos/sys.c:134-143 | the child maps what the parent attached and references grow by the pages inherited |
| KernelMemory.Kernel.Fork | practica/zeos/sys.c:67-143 | in place, exactly the fork of the value model with its three outcomes; when frames lack, `phys_mem` is as before if and only if frame 256 was in use |
| KernelMemory.Kernel.InitTablePages | practica/zeos/mm.c:55-76 | every table maps the kernel pages one to one, except page 0 and the two guard pages |
| KernelMemory.Kernel.InitFrames | practica/zeos/mm.c:198-210 | exactly the kernel frames are in use |
| KernelMemory.Kernel.SetUserPages | practica/zeos/mm.c:81-105 | task 1 gets read-only code pages on frames 256 to 270 and writable data pages on 272 to 310 |
| KernelMemory.Kernel.InitSharedMemory | practica/zeos/sched.c:271-285 | the regions get frames 312 to 330 and no references |
| KernelMemory.Kernel.InitFreeQueue | practica/zeos/sched.c:214-226 | slots 2 to 9 are free once idle and task 1 took theirs |
| KernelMemory.Kernel.Boot | practica/zeos/mm.c:55-105 | the boot routines together leave the state from which the theorems start |
| KernelRuns.Execute | practica/zeos/sys.c:67-275 | each event on the in-place kernel is the step of the model, with its answer |
| KernelRuns.ExecuteAll | practica/zeos/sys.c:67-275 | so is each sequence of events |
| KernelRuns.BootRunRead | practica/zeos/sys.c:124-132 | boot the in-place kernel, run any events, read any byte: answers and byte are those of eager copy |
| KernelRuns.UserRead | practica/zeos/mm.c:266-268 | a load through the page table sees what the value model reads |
| Zeos.ZeosIsEager | practica/zeos/sys.c:67-275 | over any ticks, yields, mode changes, forks, stores, loads and attaches of the scheduled tasks from boot, all results and the scheduler are those of a machine that copies eagerly |
| Zeos.ForksSucceed | practica/zeos/sys.c:72-111 | in every reachable state before the first exit a fork returns -ENOMEM when no slot is free, else the next PID, and never -EAGAIN |
| Zeos.ForkBoth | practica/zeos/sys.c:147-171 | a successful fork returns the PID that the first free slot now holds, else -12 |
| ZeosLaws.NthForkReturns | practica/zeos/sys.c:147-171 | from boot, the n-th fork that finds a slot returns 1000 + n, and that is the PID of the child |
| ZeosLaws.SchedulerIsProjected | practica/zeos/sched.c:100-268 | the scheduler of the joint machine goes through the steps of the scheduler alone, so its laws hold there |
| ZeosLaws.ChildReads | practica/zeos/sys.c:124-132 | the child of a fork reads what its parent reads |
| ZeosLaws.StoreThenLoad | practica/zeos/interrupt.c:141-172 | what the running task stores it loads again |
| ZeosLaws.OthersKeepMemory | practica/zeos/sched.c:100-160 | ticks, yields, mode changes and loads change no memory, and a load tells what is there |
| ZeosLaws.FullForkReturns | practica/zeos/sys.c:73-74 | a fork without a free slot returns -12 |
| Zeos.ActAlike | practica/zeos/sys.c:67-275 | one action gives the same result in both machines and keeps them related |
| Zeos.FreeKept | practica/zeos/sched.c:128-160 | no tick, yield or change of mode touches the free queue |
| Zeos.Computer.SysFork | practica/zeos/sys.c:67-172 | both halves in place on the same slots: the memory outcome decides what the queues do, and a successful fork returns the PID in the child's structure |
| Zeos.Computer.Perform | practica/zeos/sys.c:67-275 | each action on the memory and the scheduler in place is the step of the joint machine |
| Zeos.BootAndPerform | practica/zeos/sys.c:67-275 | boot in place, run any actions: the results are those of the eager machine |
| CopyData.CopyData | practica/zeos/utils.c:6-20 | the two loops compute the copy that the lemmas below are about, whatever the ranges |
| CopyData.CopiesExactly | practica/zeos/utils.c:6-20 | disjoint ranges, or a destination at or below the source, are copied exactly and nothing else changes |
| CopyData.CopiedRepeats | practica/zeos/utils.c:6-20 | a copy forward over itself repeats the bytes between source and destination |
| CopyData.ExactIffNoForwardOverlap | practica/zeos/utils.c:6-20 | every memory is copied exactly if and only if the destination does not start inside the source after its first byte |
| RingList.LinkBetween | practica/zeos/list.c:18-26 | four assignments put a node between two neighbours of a ring |
| RingList.Unlink | practica/zeos/list.c:62-79 | taking a node out leaves a ring and a node with null links |
| RingList.ReplaceRing | practica/zeos/list.c:28-79 | rings stay disjoint when one of them takes a node that is in no ring |
| RingList.RemovedIsLoose | practica/zeos/list.c:74-79 | a deleted entry is in no ring |
| RingList.Lists.InitListHead | practica/zeos/list.c:6-10 | an empty ring, also of a head that had entries, which are then in no ring; all other rings are unchanged |
| RingList.Lists.ListAdd | practica/zeos/list.c:36-39 | the entry becomes the first of its ring; all other rings are unchanged |
| RingList.Lists.ListAddTail | practica/zeos/list.c:50-53 | the entry becomes the last of its ring; all other rings are unchanged |
| RingList.Lists.ListDel | practica/zeos/list.c:74-79 | the ring loses exactly this entry, which is loose afterwards; all other rings are unchanged |
| RingList.Lists.ListEmpty | practica/zeos/list.c:96-99 | true exactly for a ring without entries |
| RingList.Lists.ListIsLast | practica/zeos/list.c:86-90 | true exactly for the last entry |
| RingList.Lists.ListFirst | practica/zeos/sched.c:133-135 | the first entry of a ring that has one |
| RingList.Lists.ReadForward | practica/zeos/list.c:6-99 | following `next` from the head visits the entries in order |
| RingList.Lists.ReadBackward | practica/zeos/list.c:6-99 | following `prev` visits them in reverse |
| Scheduling.StepsOk | practica/zeos/sched.c:112-226 | in every reachable state the slots are partitioned into free, ready, running and idle, ready tasks are in state ready, the quantum left is between 1 and the task's quantum, idle is never queued and live PIDs differ |
| Scheduling.BootOk | practica/zeos/sched.c:162-232 | the state after the init functions satisfies it |
| Scheduling.BootIsInit | practica/zeos/sched.c:162-232 | the init functions, from ten free slots, give that state |
| Scheduling.StepOk | practica/zeos/sys.c:147-171 | tick, yield, fork, exit and mode changes keep it |
| Scheduling.IdleStaysIdle | practica/zeos/sched.c:128-140 | once idle runs it runs for ever and the ready queue stays empty |
| Scheduling.TickWaits | practica/zeos/sched.c:100-160 | the ticks that a ready task waits, the quantum left and the quanta ahead of it, drop by exactly one per tick, and it runs when the last is gone |
| Scheduling.YieldWaits | practica/zeos/sched.c:263-268 | a yield runs the first ready task and brings every other one closer by the quantum left |
| Scheduling.ExitWaits | practica/zeos/sys.c:359-365 | so does an exit |
| Scheduling.OthersWait | practica/zeos/sys.c:164-171 | fork and mode changes leave the wait of every ready task |
| Scheduling.BoundedWaiting | practica/zeos/sched.c:100-160 | over any run a ready task has run, or its wait dropped by at least the ticks, yields and exits so far |
| Scheduling.NoStarvation | practica/zeos/sched.c:100-160 | so after as many ticks, yields and exits as its wait it has run |
| Scheduling.BootedTasksRun | practica/zeos/sched.c:100-160 | in every reachable state the k-th ready task, from 0, runs within 10 (k + 1) ticks, yields and exits, and every ready task within 80 |
| Scheduling.StepsKeepQuanta | practica/zeos/sys.c:83 | every task in use has the default quantum, since fork copies it |
| Scheduling.ChargeKeepsOrigin | practica/zeos/p_stats.c:3-13 | `update_stats` moves time into a counter without losing any, also when the clock or the counter wraps |
| Scheduling.StepKeepsOrigin | practica/zeos/sched.c:39-48 | every step keeps the time account of every slot, and a fork opens a new one at the clock of its `init_stats` |
| Scheduling.TicksAreConserved | practica/zeos/p_stats.c:3-13 | over every run in which a slot stays in use, its counters add up to the elapsed total less the start of its account in the first state, modulo 2^32 |
| Scheduling.TicksSinceFork | practica/zeos/sys.c:165 | from the fork that creates it, as long as a task is in use, user + system + blocked + ready is the elapsed total less the clock read by its `init_stats`, modulo 2^32 |
| Scheduling.TicksSinceBoot | practica/zeos/sched.c:162-202 | the same from boot for idle and for task 1 |
| SchedulingLaws.TickLaw | practica/zeos/sched.c:100-160 | a tick takes one from the quantum; with the last one the first ready task runs with its full quantum and the running one goes to the end, and with nobody ready the task gets its own quantum again |
| SchedulingLaws.TickGivesFullQuantum | practica/zeos/sched.c:105-110 | after any tick one tick is gone or the task that runs has its full quantum |
| SchedulingLaws.LoneTicks | practica/zeos/sched.c:105-110 | a task alone runs on, its quantum going round |
| SchedulingLaws.BootTicks | practica/zeos/sched.c:105-110 | n ticks from boot leave task 1 with 10 - n % 10 ticks |
| SchedulingLaws.YieldLaw | practica/zeos/sched.c:263-268 | the first ready task runs with its full quantum and the yielding one is last |
| SchedulingLaws.ExitLaw | practica/zeos/sys.c:359-365 | the slot is the last free one and has PID -1; the first ready task runs, or idle |
| SchedulingLaws.ForkLaw | practica/zeos/sys.c:147-169 | the child has the first free slot, is last of the ready tasks, has its parent's quantum, zero statistics and a PID above all others; nobody else changes |
| SchedulingLaws.FailedForkLaw | practica/zeos/sys.c:98-111 | a failed fork changes no live task and no ready queue; its slot is the last free one |
| SchedulingLaws.NthPid | practica/zeos/sys.c:147 | from boot, whoever exits, the n-th forked task has PID 1000 + n |
| SchedulingLaws.BootPidsLaw | practica/zeos/sched.c:162-202 | after boot idle has PID 0, task 1 has PID 1 and runs, both have quantum 10, nobody else is in use |
| SchedulingLaws.CountersSinceFork | practica/zeos/p_stats.c:3-13 | from its fork on, a task's user time is the sum of the clock differences that end when it enters the kernel, its ready time of those that end when it is dispatched, its system time of the rest, its transitions the number of dispatches, all modulo 2^32 |
| SchedulingLaws.CountersSinceBoot | practica/zeos/p_stats.c:3-13 | the same of idle and task 1 from boot on |
| SchedulingLaws.ReadyIsUnread | practica/zeos/sched.c:145-147 | no clock is read for a ready task before its dispatch, so its ready time runs from when it was queued |
| SchedulingLaws.StepReplays | practica/zeos/sys.c:40-48 | an event reads the clock for a task exactly at its kernel entries, departures and dispatches |
| SchedulingLaws.TransferLaw | practica/zeos/sched.c:112-126 | `update_process_state_rr` puts any task where it is sent, in the state that goes with it, and leaves the others |
| RoundRobin.Queues.PushReady | practica/zeos/sched.c:112-126 | a slot goes to the end of the ready ring, the free ring is unchanged |
| RoundRobin.Queues.PopReady | practica/zeos/sched.c:133-138 | the first slot leaves the ready ring, the free ring is unchanged |
| RoundRobin.Queues.PushFree | practica/zeos/sys.c:107 | a slot goes to the end of the free ring, the ready ring is unchanged |
| RoundRobin.Queues.PopFree | practica/zeos/sys.c:76-80 | the first slot leaves the free ring, the ready ring is unchanged |
| RoundRobin.Queues.constructor | practica/zeos/sched.c:214-232 | all ten slots are in the free ring in order and nobody is ready |
| RoundRobin.Scheduler.constructor | practica/zeos/sched.c:162-232 | the init functions in place give the boot state of the value model |
| RoundRobin.Scheduler.UpdateStats | practica/zeos/p_stats.c:3-13 | the clock difference goes to the one named counter, modulo 2^32, and no other counter and no other task changes |
| RoundRobin.Scheduler.NeedsSched | practica/zeos/sched.c:105-110 | true exactly when the quantum is used up and somebody is ready; an unused switch renews the quantum |
| RoundRobin.Scheduler.UpdateProcessState | practica/zeos/sched.c:112-126 | any task that does not run leaves its queue; with a null destination it runs, in the ready queue it is ready and charged system time, in another one it is blocked |
| RoundRobin.Scheduler.RequeueCurrent | practica/zeos/sched.c:157 | of the running task: it goes to the end of the ready queue, its system time charged |
| RoundRobin.Queues.Remove | practica/zeos/sched.c:114 | the slot leaves its queue, whichever it is, and the order of the others stays |
| RoundRobin.Scheduler.SchedNext | practica/zeos/sched.c:128-150 | the first ready task, or idle, runs with a fresh quantum and both tasks are charged |
| RoundRobin.Scheduler.Schedule | practica/zeos/sched.c:152-160 | in place, the tick of which the laws of a tick speak |
| RoundRobin.Scheduler.Yield | practica/zeos/sched.c:263-268 | in place, the yield of the value model |
| RoundRobin.Scheduler.Fork | practica/zeos/sys.c:72-171 | in place, the queues, PID and statistics of fork; it returns the PID now in the structure of the child, -12 without a slot and -11 without frames |
| RoundRobin.Scheduler.Exit | practica/zeos/sys.c:359-365 | in place, the exit of the value model |
| RoundRobin.Scheduler.ChangeMode | practica/zeos/sys.c:40-48 | entering the kernel adds the clock difference to user time, leaving it to system time, and to nothing else |
| RoundRobin.Scheduler.Drive | practica/zeos/sched.c:100-268 | any events on the rings give the state of the value model, partitioned |
| RoundRobin.BootAndDrive | practica/zeos/sched.c:100-268 | so do the init functions and then any events |
| MazeSearch.Bfs | practica/zeos/game.c:100-170 | on every maze and from every start in bounds, the answer is the first step of a shortest walk, and null exactly when start and target are equal or no walk exists; every array access is in bounds and the search ends |
| MazeSearch.AnswerIsUnique | practica/zeos/game.c:119 | one answer meets this: ties are broken in the order up, down, left, right |
| MazeSearch.TiesGoUpDownLeftRight | practica/zeos/game.c:119 | of several shortest walks the answer follows one that starts up, else down, else left, else right |
| MazeSearch.BestIsShortest | practica/zeos/game.c:100-170 | no walk to the target is shorter, and no equally short one starts in an earlier direction |
| MazeSearch.AnswerIsCloser | practica/zeos/game.c:100-170 | the answered step leads to an open cell exactly one step closer |
| MazeSearch.WalkCovered | practica/zeos/game.c:112-168 | every walk ends at a queued cell found at no greater cost, or costs at least as much as the next node of the queue |
| MazeSearch.FrontIsBest | practica/zeos/game.c:113-117 | the node taken from the queue carries a best walk |
| MazeSearch.ExhaustedMeansUnreachable | practica/zeos/game.c:169 | an empty queue means that no walk leads to the target |
| MazeSearch.NodeAdded | practica/zeos/game.c:161-165 | a new neighbour keeps the queue sorted and its cells distinct, and always fits |
| MazeSearch.CellsFit | practica/zeos/game.c:161 | distinct cells never fill more than the array |
| MazeSearch.Expand | practica/zeos/game.c:121-167 | the inner loop queues every open unvisited neighbour, dropping none |
| MazeSearch.Enqueue | practica/zeos/game.c:162-164 | the arrays hold one more node and exactly the queued cells are visited |
| MazeSearch.IsNew | practica/zeos/game.c:140 | the test accepts exactly the open cells in bounds that are not queued |
| PacmanGame.PhantomTurnChases | practica/zeos/game.c:348-412 | whatever the counter shows, a phantom stays in its cell or enters an open one exactly one step closer to Pacman |
| PacmanGame.FrameKeepsWorld | practica/zeos/game.c:499-533 | a frame keeps every unit out of the walls and points + 10 food = 10 total, brings no food back, costs at most one life and, without a catch, brings no phantom further from Pacman |
| PacmanGame.FrameIsUnique | practica/zeos/game.c:499-533 | the relation that specifies a frame leaves one next state |
| PacmanGame.PlayedOk | practica/zeos/game.c:499-533 | over any keys, n frames cost at most n lives and keep all of the above |
| PacmanGame.WonWhenAllEaten | practica/zeos/game.c:499 | the points end the game if and only if no food is left and no earlier game left food in the total |
| PacmanGame.OverMeans | practica/zeos/game.c:499 | the loop ends exactly without lives or, in the first game, without food |
| PacmanGame.FirstPhantomNeverStops | practica/zeos/game.c:373-380 | phantom 0 never gets the null direction from its schedule, and keeps its direction exactly where the schedule is even |
| PacmanGame.OthersStop | practica/zeos/game.c:383-407 | the other phantoms get it exactly where theirs is odd |
| PacmanGame.FoodEaten | practica/zeos/game.c:515-518 | eating leaves one food cell less |
| GameLaws.FrameMovesPacman | practica/zeos/game.c:506-519 | in a frame without a catch a key towards an open cell turns Pacman and moves it there, any other key lets it go on one cell unless a wall is there, and without a key it stays; in every frame ten points for food in the cell it left, which becomes empty, and no other cell changes |
| GameLaws.FrameLaw | practica/zeos/game.c:522-528 | a life is lost exactly when some phantom shares Pacman's cell after all turns; then everybody stands still at the start, else nothing more happens |
| GameLaws.HuntLaw | practica/zeos/game.c:370-409 | a phantom moves exactly when it is at most 27 steps away, its counter lets it hunt and a way leads to Pacman; it then comes exactly one step closer |
| GameLaws.PlanLaw | practica/zeos/game.c:371-407 | the counters in which each phantom hunts, and where it looks otherwise |
| GameLaws.TurnsLaw | practica/zeos/game.c:348-412 | in a frame the counter grows by one per close phantom, and each phantom hunts at the counter the earlier ones left |
| PacmanGame.CopyCells | practica/zeos/game.c:46-52 | the matrix is the given maze and the count is the number of its food cells |
| PacmanGame.Game.constructor | practica/zeos/game.c:46-74 | the first state of a game on any walled maze, its food added to the total of the games before |
| PacmanGame.Game.Move | practica/zeos/game.c:461-493 | Pacman steps unless a wall is there; a phantom steps with swapped coordinates |
| PacmanGame.Game.IsViable | practica/zeos/game.c:433-459 | true exactly for a direction to an open cell |
| PacmanGame.Game.MovePacman | practica/zeos/game.c:506-519 | in place, the move, turn and meal of which the laws of a frame speak |
| PacmanGame.Game.ChasePacman | practica/zeos/game.c:404-405 | the phantom takes the answer of the search and is in the cell it leads to |
| PacmanGame.Game.ChoosePlan | practica/zeos/game.c:371-407 | the branches decide as the schedules and the counter say |
| PacmanGame.Game.IsNear | practica/zeos/game.c:350-370 | the distance test in swapped coordinates is the walking distance without walls |
| PacmanGame.Game.MovePhantom | practica/zeos/game.c:349-411 | one phantom takes its turn, the counter grows if it was near, the others stay |
| PacmanGame.Game.MovePhantoms | practica/zeos/game.c:348-412 | all four turns, each with the counter the earlier ones left |
| PacmanGame.Game.Restart | practica/zeos/game.c:614-626 | every unit stands still at its start, nothing else changes |
| PacmanGame.Game.Collide | practica/zeos/game.c:522-528 | a life is lost and the units restart exactly when a phantom is on Pacman's cell |
| PacmanGame.Game.Frame | practica/zeos/game.c:499-533 | in place, exactly a frame of the relation |
| PacmanGame.Game.Play | practica/zeos/game.c:495-536 | the loop plays frames of the relation until a life or food is lacking, no fewer and no more |
| StartMaze.DrawnIsWalled | practica/zeos/game.c:23-44 | the frame of the drawn maze is all wall |
| StartMaze.DrawnStarts | practica/zeos/game.c:56-71 | Pacman and the phantoms start on open cells of it |
| StartMaze.Game | practica/zeos/game.c:495-536 | a game on the drawn maze starts with Pacman at (1,1), three lives and no points, plays frames of the relation under any keys, keeps lives in 0..3 and points right, and stops early only without lives or, in the first game, without food |
| Keyboard.CircularBuffer.constructor | practica/zeos/c_buffer.c:3-7 | nothing is buffered |
| Keyboard.CircularBuffer.Enqueue | practica/zeos/c_buffer.c:18-24 | the character goes to the end when fewer than 2048 wait, else it is dropped |
| Keyboard.CircularBuffer.Dequeue | practica/zeos/c_buffer.c:28-36 | the oldest character leaves, an empty buffer stays empty |
| Keyboard.CircularBuffer.SysRead | practica/zeos/sys.c:206-217 | -EFAULT and no change when access_ok refuses the buffer; a negative size comes back and changes nothing; else the result is the size asked for or what waits, whichever is less, that many of the oldest characters are in the buffer and gone from the circular one, and the rest of the buffer is unchanged |
| Keyboard.ViewAppend | practica/zeos/c_buffer.c:20-22 | storing at the write index appends to what waits, around the end too |
| Keyboard.ViewDrop | practica/zeos/c_buffer.c:31-33 | the read index is at the oldest character, and moving it drops that one |
| Keyboard.DeliveredInOrder | practica/zeos/c_buffer.c:18-36 | over any keys and reads, what was delivered followed by what waits is what was accepted, in order |
| Keyboard.NothingLost | practica/zeos/c_buffer.c:18-24 | every key is accepted if and only if none came while 2048 waited |
| Keyboard.StreamLaw | practica/zeos/sys.c:209-216 | a key waits unless 2048 do; a read delivers the oldest characters, as many as asked for or as wait, so one of at least what waits empties the buffer |
| Keyboard.Drive | practica/zeos/sys.c:206-217 | the buffer in place delivers that stream |
| Ticks.DoDiv | practica/zeos/utils.c:115-127 | exact quotient and remainder of every 64-bit dividend by every 32-bit base but 0, with no overflow in the machine division |
| Ticks.FitsIffUpperIsSmall | practica/zeos/utils.c:119-124 | the machine division does not overflow if and only if the upper half is below the base |
| Ticks.DivisionIsUnique | practica/zeos/utils.c:115-127 | a quotient with a remainder below the base is the only one |
| Ticks.GetTicks | practica/zeos/utils.c:133-144 | the clock is the cycle counter divided by 109000, cut to 32 bits |
| LibC.TextReadsBack | practica/zeos/libc.c:11-35 | for every non-negative int the text has 1 to 10 digits, reads back as the number and has no leading zero except for 0 |
| LibC.DigitsParse | practica/zeos/libc.c:19-24 | the digits of a number parse to it |
| LibC.DigitsLength | practica/zeos/libc.c:19-24 | a number has at most k digits exactly when it is below 10^k |
| LibC.Itoa | practica/zeos/libc.c:11-35 | the buffer holds the text and a terminator, and nothing after it changes; a negative number leaves just the terminator |
| LibC.WriteDigits | practica/zeos/libc.c:18-24 | the first loop leaves the text back to front |
| LibC.ReversePrefix | practica/zeos/libc.c:26-33 | the second loop reverses the prefix and leaves the rest |
| LibC.Strlen | practica/zeos/libc.c:37-44 | the place of the first terminator |
| LibC.DigitCount | practica/zeos/libc.c:11-44 | `strlen` after `itoa` is the number of digits |

## Left out

- The memory effects of `sys_exit`: it frees frames whose counter may be above 1, so the frame counters do not survive it. Its queue effects are in the scheduler; the joint machine of Zeos runs until the first exit.
- `sys_shmdt` and `sys_shmrm`: detach counts down without unmapping, so references stop matching the mappings.
- KernelMemory.Kernel.PageFault: a split of an absent page and a failed `alloc_frame` (the handler maps frame -1) are excluded by its precondition, which Boot.FramesSuffice proves for every page in every reachable state.
- KernelMemory.Kernel.UserWrite: the page is mapped, from the code on. On an absent page the handler sets a bit and the write faults again for ever (FaultProof.FaultElsewhere); below the code a forked task would write the kernel itself.
- KernelMemory.Kernel.Shmat: addresses at 4 MB or above, where `sys_shmat` indexes past the table.
- Keyboard.CircularBuffer.SysRead: what `access_ok` computes is not modelled, only its answer; an accepted buffer holds what is copied to it.
- Writes by the kernel itself, the TLB, CR0 and CR3, and page directories: an address space is its table.
- Zeos.Computer.SysFork: the two halves of `sys_fork` run one after the other, each with its own record of the free queue; the records are proved equal.
- KernelMemory.Kernel.Fork: the loops are separate methods.
- Frame numbers are below 1024, which is what every table entry holds in these runs; the 20-bit field is not modelled.
- `referencias`, `global_PID` and the counter `random` are unbounded integers.
- RingList.Lists.InitListHead: the node is no entry of another ring, which the assignments would cut open.
- RoundRobin.Scheduler.UpdateProcessState: a task that runs is in no queue and one that does not is in one; the free queue stands for every queue other than the ready one, since no further queue is ever initialised.
- The task structures are a sequence field of the scheduler; the kernel stacks, register values and the switch of stacks are not modelled, so a switch is a change of the current slot.
- `remaining_ticks`, the second clock reading of `init_stats` and `sys_get_stats`.
- PacmanGame.Game.IsViable: the removal of the accepted entry from `movements`. The game links one stack node again while it may still be linked; a frame gets an arbitrary direction or none instead, which covers whatever that list holds.
- `queue[rear++] = rear - 1` is unsequenced in C; the model stores the index of the new node.
- Units of the game are values in an array, not structures that `move` updates through a pointer.
- Keyboard.CircularBuffer.Dequeue: on an empty buffer the returned character is arbitrary.
- LibC.Itoa: the buffer must be large enough; callers that pass too small a one or a character are not modelled.
- The scancode table of the keyboard interrupt: any characters arrive.
- Drawing, printing, delays, descriptor tables, boot code and assembly.
- The earlier kernel in the directory `zeos`.
