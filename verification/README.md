# Chronix kernel: verified models

Dafny models of the algorithms and protocols at the centre of the Chronix kernel, with proofs
that each one is the simple object it stands for, or keeps its invariant over every run.
Operations that the kernel performs by updating state are methods that update state; each is
proved equal to a step function, and the promises are lemmas about those functions.
`dafny verify dfyconfig.toml` checks everything.

* **Page tables** (`PageTableEntry`, `RadixTree`, `Sv39`). The bit codec of an entry, a
  three-level radix tree with leaves on every level over abstract words, and the Sv39 table in
  raw memory. Mapping and unmapping refine update and removal in a flat map of page numbers,
  on tables the processor has marked as accessed too, without touching any other table, and the
  processor's own walk agrees with the kernel's exactly when it accepts the entry found.
* **Processes** (`Lifecycle`). Fork, exit, reparenting, group exit and wait over all tasks.
  In every run the counters are exact, the family is a tree under owners with a live thread,
  and creations and reapings balance; the code a wait reports is traced back to the exit that
  set it and compared with the group's.
* **Futexes** (`FutexProtocol`, `FutexManager`, `RobustList`). No lost wakeup over all
  interleavings, store by store, with wake-ups from elsewhere, FIFO queues with requeue, and the robust-list walk at thread
  death with exactly whom it marks and wakes.
* **Range containers** (`RangeSet`, `RangeMap`). The collapsing segment tree is a canonical
  form of a plain set; the interval map answers from one predecessor what a scan would answer,
  and its allocator is first-fit, sound and complete.
* **Load tracking** (`Pelt`). The fixed-point decay is geometric up to a stated error, one
  long update agrees with two shorter ones, and the bound is kept under its exact condition.
* **Pipes** (`RingBuffer`, `Pipe`). The wrap-around buffer is a bounded FIFO, and the poll and
  waker protocol above it neither loses bytes nor leaves a task parked that could go on.
* **Signals** (`Signals`). The pending queues, their bitmap and the order of delivery.
* **Shared pointers** (`StrongArc`). Clone, drop and emplace as atomic steps of any number of
  handles.
* **Initial stack** (`UserStack`). What a program's start code reads back is what was pushed.
* **Block cursor** (`Disk`). Byte reads and writes through 512-byte blocks refine a flat array.
* `Wrappers`, `IntSets` and `ByteSeqs` hold what several of these share.

Some promises turn out false of the code as written. Each has a concrete input on which it
fails and the exact condition under which the code meets it:

* `RangeSet`: a full root and a query strictly outside it (`FullRootMiscounts`;
  `IntersectExactIff`, `IntersectsMeansOverlapIff`, `UnderflowsIff`).
* `Pelt`: a window that wraps 64 bits (`WrapBreaksBound`; `UpdateKeepsBoundIff`), and time
  covered by updates within a period, which never enters the sum (`ShortUpdatesAreLost`).
* `FutexManager`: a requeue onto the same key (`RequeueDropsAWaiter`; `RequeueToSameKeyIff`,
  `RequeueConservesIff`).
* `UserStack`: the stack pointer announced as 16-byte aligned (`MisalignedStack`; `AlignedIff`),
  and AT_EXECFN, computed in a pass whose layout differs from the one pushed
  (`ExecFnNamesEnvironment`; `ExecFnIffNoEnvironment`).
* `FutexProtocol`: a wake of n releases n tasks, unless entries of tasks woken from elsewhere
  are still queued (`StrayWakeCostsAWake`; `WakeReleasesAllIff`, `CleanRuns`).
* `Sv39`: a larger page mapped without R, W and X (`HugeMapWithoutAccessFails`;
  `MapKeepsOwnershipIff`, `MapOntoOwnTableIff`), and a map below a larger page
  (`MapBelowPageFails`; `MapTakesEffectIff`).
* `Lifecycle`: a wait reports the leader's code, not the group's (`LeaderCodeDiffers`;
  `LeaderExitAgreesIff`, `LaterExitAgreesIff`, `AgreementIsFixed`, `ReportedCode`).

The frame allocator is a set of free frames, the tid allocator any unused number, and other
threads' steps inside a call are parameters of that call.

## Model

| member | source | states |
|---|---|---|
| PageTableEntry.NewRoundTrip | hal/src/component/pagetable/riscv64.rs:173-207 | An entry made from a page and permissions decodes to exactly those, all other fields clear |
| PageTableEntry.EncodeDecode | hal/src/component/pagetable/riscv64.rs:105-152 | The fields determine the word: re-encoding the decoded fields gives every 64-bit word back |
| PageTableEntry.DecodeIsInjective | hal/src/component/pagetable/riscv64.rs:105-152 | Entries with the same fields are the same word |
| PageTableEntry.SetFlagsBits | hal/src/component/pagetable/riscv64.rs:199-203 | Setting permissions changes the permission field and no other bit of the word |
| PageTableEntry.SetPpnBits | hal/src/component/pagetable/riscv64.rs:209-212 | Setting the page number changes its 44 bits, truncating, and no other bit |
| PageTableEntry.SetDirtyBits | hal/src/component/pagetable/riscv64.rs:227-233 | The dirty setter changes only the dirty bit |
| PageTableEntry.SetValidBits | hal/src/component/pagetable/riscv64.rs:239-245 | The valid setter changes only the valid bit |
| PageTableEntry.SetCowBits | hal/src/component/pagetable/riscv64.rs:251-257 | The copy-on-write setter changes only its bit |
| PageTableEntry.LeafNeedsAccess | hal/src/component/pagetable/riscv64.rs:214-221 | A mapping entry is a leaf if and only if it grants R, W or X |
| PageTableEntry.EntryCell.constructor | hal/src/component/pagetable/riscv64.rs:174-179 | A new entry holds the page and permissions given and nothing else |
| PageTableEntry.EntryCell.WriteFlags | hal/src/component/pagetable/riscv64.rs:199-203 | In place: the decoded entry is the old one with new permissions |
| PageTableEntry.EntryCell.WritePpn | hal/src/component/pagetable/riscv64.rs:209-212 | In place: the decoded entry is the old one with the new page number's low 44 bits |
| PageTableEntry.EntryCell.WriteDirty | hal/src/component/pagetable/riscv64.rs:227-233 | In place: only the dirty field changes |
| PageTableEntry.EntryCell.WriteValid | hal/src/component/pagetable/riscv64.rs:239-245 | In place: only the valid field changes |
| PageTableEntry.EntryCell.WriteCow | hal/src/component/pagetable/riscv64.rs:251-257 | In place: only the copy-on-write field changes |
| RadixTree.MapSetsExactlyOnePage | hal/src/component/pagetable/riscv64.rs:334-343 | Storing a leaf at a level gives every key of that page the leaf and leaves every other key's lookup and the tree invariant as they were, whatever the slot held |
| RadixTree.UnmapClearsExactlyOnePage | hal/src/component/pagetable/riscv64.rs:345-357 | Clearing the slot a walk found unmaps all keys of the page found there, at its level, and no other |
| RadixTree.CreatingTableIsInvisible | hal/src/component/pagetable/riscv64.rs:280-287 | Hanging an empty table into an invalid slot keeps the tree, changes no lookup, and extends the way to the key by one level |
| RadixTree.FindElsewhere | hal/src/component/pagetable/riscv64.rs:318-332 | A walk for a key outside the written page never reads the written slot, so it ends where it did |
| RadixTree.FoundSlotIsInTable | hal/src/component/pagetable/riscv64.rs:318-332 | The slot a walk returns lies in the key's table of the returned level |
| RadixTree.OwnsAfterPush | hal/src/component/pagetable/riscv64.rs:281-285 | A pushed fresh frame keeps the owner's list equal to the table frames, each once |
| RadixTree.FindAfterRewording | hal/src/component/pagetable/riscv64.rs:318-332 | Changing the word of a leaf leaves every walk where it was |
| RadixTree.LookupStaysInside | hal/src/component/pagetable/riscv64.rs:318-332 | Memories that agree on a tree's frames hold the same tree and give every key the same lookup |
| Sv39.MapEntryView | hal/src/component/pagetable/riscv64.rs:336-337 | The word written by map is read by the walk as a leaf of that page and permissions, or as a table pointer when no access is granted |
| Sv39.GrowKeepsSound | hal/src/component/pagetable/riscv64.rs:270-290 | Creating a missing table in raw memory keeps tree, ownership, allocator disjointness and entry hygiene, and changes no translation |
| Sv39.MapRefinesFlatUpdate | hal/src/component/pagetable/riscv64.rs:334-343 | After map at any level every page number of that page translates to ppn plus its offset with the permissions asked for, and every other translation is unchanged |
| Sv39.MapWithoutAccessPoints | hal/src/component/pagetable/riscv64.rs:334-343 | A larger page mapped without R, W and X is not a page: walks in it continue into the frame as if it were a table |
| Sv39.MapKeepsOwnershipIff | hal/src/component/pagetable/riscv64.rs:334-343 | For a frame that is none of the table's own: some assignment of places makes the tables after a map a tree of exactly the frames owned if and only if the map grants access or is at the last level |
| Sv39.MapOntoOwnTableIff | hal/src/component/pagetable/riscv64.rs:334-343 | For a frame that is a table already, not below the written slot: a map without access leaves a tree of the frames owned if and only if the slot is that table's own place |
| Sv39.HugeMapWithoutAccessFails | hal/src/component/pagetable/riscv64.rs:334-343 | One map after which no assignment of places makes the tables a tree of the frames owned, and the page translates to nothing |
| Sv39.MapWrites | hal/src/component/pagetable/riscv64.rs:334-343 | For every permission and level: what becomes of the page numbers inside the page and that all others keep their translation |
| Sv39.CreatingWalkKeepsSound | hal/src/component/pagetable/riscv64.rs:270-290 | With no larger page in the way the creating walk ends at the table of the level asked for, in a sound table that owns the frames drawn, with every lookup unchanged and no write outside its frames |
| Sv39.OtherTableUntouched | hal/src/component/pagetable/riscv64.rs:260-266 | A second table that shares no frame keeps its soundness and every translation, whatever is written within the first one's frames |
| Sv39.MapBelowPageIsLost | hal/src/component/pagetable/riscv64.rs:270-290 | Below a larger page, whose words lead to no table, the walk takes the page for a table: the entry goes to a frame that is none, and the table and every lookup stay as they were |
| Sv39.MapTakesEffectIff | hal/src/component/pagetable/riscv64.rs:334-343 | The walk of the page number ends at the entry and level just mapped if and only if no larger page lies above |
| Sv39.MapBelowPageFails | hal/src/component/pagetable/riscv64.rs:270-290 | One map below a larger page: a word of the mapped page is overwritten and the translation stays |
| Sv39.UnmapRefinesFlatRemoval | hal/src/component/pagetable/riscv64.rs:345-357 | After unmap exactly the page found for the page number, whatever its level, has no translation |
| Sv39.MarksKeepSound | hal/src/component/pagetable/riscv64.rs:117-121 | Setting the accessed and dirty bits of a leaf, as the processor does, keeps the table sound and every translation |
| Sv39.MarkedBits | hal/src/component/pagetable/riscv64.rs:117-121 | A load sets A; a store sets A and D |
| Sv39.AddressFollowsPage | hal/src/component/pagetable/riscv64.rs:367-387 | At each level the physical address equals the translated page of the address's own page number plus the offset in that page |
| Sv39.NoOverflow | hal/src/component/pagetable/riscv64.rs:372-386 | The sums of page numbers and addresses stay far below 2^64 |
| Sv39.PageIsAlignedBlock | hal/src/component/addr/riscv64/mod.rs:22-30 | Two 27-bit page numbers share a page of a level if and only if they lie in the same aligned block of its size |
| Sv39.IndexesAreDigits | hal/src/component/addr/riscv64/mod.rs:22-30 | The three indices are below 512 and are the low 27 bits of the page number |
| Sv39.TokenRoundTrip | hal/src/component/pagetable/riscv64.rs:296-306 | The root is recovered from its token, whose mode field says Sv39 and whose address space is 0 |
| Sv39.HardwareFollowsFind | hal/src/component/pagetable/riscv64.rs:318-332 | From any table of a sound tree the walk of section 4.3.2 of the RISC-V Privileged Architecture ends where the kernel's does, and faults exactly on entries it does not accept |
| Sv39.HardwareAgreesIff | hal/src/component/pagetable/riscv64.rs:378-387 | The processor's translation equals the kernel's if and only if there is no page or its entry is readable or executable, not write-only, and aligned |
| Sv39.PhysMemory.Alloc | hal/src/component/pagetable/riscv64.rs:281-281 | Hands out a free frame, which is then no longer free |
| Sv39.PhysMemory.NewTable | hal/src/component/pagetable/riscv64.rs:281-284 | A free frame is zeroed and hung into the slot as an empty table; nothing else changes |
| Sv39.PageTable.constructor | hal/src/component/pagetable/riscv64.rs:308-316 | A new table is sound, translates nothing, and only its own frame was written |
| Sv39.PageTable.FindPte | hal/src/component/pagetable/riscv64.rs:318-332 | The loop ends at the slot and level of the recursive walk, or finds nothing exactly when that does |
| Sv39.PageTable.FindPteCreate | hal/src/component/pagetable/riscv64.rs:270-290 | For every table: memory, free frames and the slot returned are those of the walk that takes every valid entry for a table and fills the others, and the frames drawn are owned. With no larger page above: the slot is that of the level asked for, the table is sound, no lookup changes, nothing outside its frames is written |
| Sv39.PageTable.Map | hal/src/component/pagetable/riscv64.rs:334-343 | For every table the new memory is the creating walk's with the entry written where it ended. With no larger page above, for every permission: with access or at the last level the flat map is updated on exactly the page numbers of the page; without, walks in the page go on into the frame; elsewhere, and outside the table's frames, nothing changes. Below a larger page no translation changes |
| Sv39.PageTable.Unmap | hal/src/component/pagetable/riscv64.rs:345-357 | Fails exactly on an unmapped page number, changing nothing; otherwise returns the old entry and removes exactly its page, writing only within the table's frames |
| Sv39.PageTable.TranslateVpn | hal/src/component/pagetable/riscv64.rs:378-387 | Returns the flat map's physical page |
| Sv39.PageTable.TranslateVa | hal/src/component/pagetable/riscv64.rs:367-376 | Returns the translated page of the address's page number times 4096 plus the offset, or nothing exactly when that page is unmapped |
| Lifecycle.StartInv | os/src/task/task.rs:147-156 | The system of the init process alone meets all invariants |
| Lifecycle.RunningCanExit | os/src/task/task.rs:181-186 | For every running thread but init the counter panics of the exit path cannot happen, and init's group never loses its last thread |
| Lifecycle.ForkThreadKeepsInv | os/src/task/task.rs:472-575 | Cloning a thread keeps all invariants |
| Lifecycle.ForkProcessKeepsInv | os/src/task/task.rs:472-575 | Forking a process keeps all invariants: the child has one owner, older and alive, named by its parent link |
| Lifecycle.ForkedProcessBelongs | os/src/task/task.rs:472-575 | A forked process is a running, childless child of the caller's process; other tasks and every parenthood stay |
| Lifecycle.ClonedThreadBelongs | os/src/task/task.rs:472-575 | A cloned thread is a running member of the caller's group; other tasks and every parenthood stay |
| Lifecycle.ExitKeepsInv | os/src/task/task.rs:705-745 | Exit keeps all invariants, with children handed to init exactly when the last thread leaves |
| Lifecycle.ExitOwner | os/src/task/task.rs:725-741 | After an exit each child is owned by its old owner, or by init if that owner just lost its last thread |
| Lifecycle.GroupExitKeepsInv | os/src/task/task.rs:747-763 | Group exit keeps all invariants; the first announced code stays |
| Lifecycle.ReapableIsDead | os/src/syscall/process.rs:358-375 | A child is reaped only when every thread of its group is a zombie |
| Lifecycle.ReapKeepsInv | os/src/syscall/process.rs:396-403 | Reaping an owned dead child keeps all invariants and leaves no owner without its children |
| Lifecycle.WaitKeepsInv | os/src/syscall/process.rs:346-405 | Wait keeps all invariants for every argument and outcome |
| Lifecycle.Next | os/src/task/task.rs:472-763 | Every enabled call leads from an invariant state to an invariant state |
| Lifecycle.RunsKeepInv | os/src/task/task.rs:140-204 | In every run: alive is the number of non-zombie members, every unreaped process but init sits in one children map of a live older owner, and each creation is reaped at most once |
| Lifecycle.EveryRunIsSound | os/src/task/task.rs:140-204 | The same spelled out for every state reached from the init process alone |
| Lifecycle.AllDescendFromInit | os/src/task/task.rs:725-741 | Every unreaped process has a chain of owners up to init |
| Lifecycle.ExactlyOneOwner | os/src/task/task.rs:560-563 | Every unreaped process but init is in exactly one children map |
| Lifecycle.ZombiesAreFinal | os/src/task/task.rs:705-708 | No call changes a dead thread's record, so a later wait reports the code of its exit |
| Lifecycle.GroupCodeIsFixed | os/src/task/task.rs:747-753 | Once a group is exiting no call changes its announced exit code |
| Lifecycle.LeaderExitAgreesIff | os/src/task/task.rs:705-763 | A leader leaving by group exit or as the last thread unannounced has the group's code; otherwise exactly when its code equals the announced one |
| Lifecycle.LaterExitAgreesIff | os/src/task/task.rs:705-763 | When the leader is gone, the exit that fixes the group's code agrees with it exactly when the codes are equal |
| Lifecycle.AgreementIsFixed | os/src/syscall/process.rs:386-394 | From then on no call changes whether the two codes agree |
| Lifecycle.WaitReports | os/src/syscall/process.rs:386-394 | A successful wait reports a reapable child of the caller, by its leader's exit code, and its group's code is fixed; the two are equal exactly when leader and group agree |
| Lifecycle.LeaderLeft | os/src/task/task.rs:705-745 | In every run to a state with a dead leader there is the exit by which it left last, and it has not been reaped since |
| Lifecycle.CodeIsAnnounced | os/src/task/task.rs:705-763 | Along any run in which a process is not reaped its fixed group code is the one announced by the first exit that fixes it |
| Lifecycle.ReportedCode | os/src/syscall/process.rs:386-394 | In every run from the init process alone a wait reports the code of the exit by which the leader last left; it is the group's if and only if that is the code announced |
| Lifecycle.LeaderCodeDiffers | os/src/syscall/process.rs:386-394 | A run after which wait reports 5 while the group's code is 7 |
| Lifecycle.WaitCallIsSound | os/src/syscall/process.rs:346-485 | Over any sleeps: a run of the others leads from the state of the call to a state in which the call ends with the answer of one look, or suspended or interrupted with nothing changed; a call that may hang does not end unanswered; a success takes a child of the caller that is dead there and reports the code its leader has there |
| Lifecycle.WaitCallAnswers | os/src/syscall/process.rs:346-485 | When a call answers and what: the first look if it has an answer or the caller will not hang; otherwise interrupted if and only if the first sleep that ends the call ends without SIGCHLD, still asleep if and only if no sleep ends it, and else the answer of the look after that sleep |
| Lifecycle.DeadChildIsReported | os/src/syscall/process.rs:423-456 | A call woken by SIGCHLD when a fitting child is dead reports a fitting child |
| Lifecycle.MeanwhileIsRun | os/src/syscall/process.rs:411-418 | What happens in a sleep is a run of steps of others that are enabled one after the other, none of them the caller's |
| Lifecycle.MeanwhileTakesAll | os/src/syscall/process.rs:411-418 | A run of others that is enabled step by step happens in full during a sleep |
| Lifecycle.OthersKeepRunning | os/src/syscall/process.rs:410-419 | No step of another task ends or moves the sleeping caller |
| Lifecycle.Choose | os/src/syscall/process.rs:353-381 | Whatever wait picks is a reapable child; ChooseExactly says when it picks |
| Lifecycle.ChooseLeast | os/src/syscall/process.rs:359-363 | For -1 the lowest reapable child is picked, on the first and on later attempts |
| Lifecycle.ChooseNone | os/src/syscall/process.rs:359-363 | For -1 without a reapable child wait keeps waiting |
| Lifecycle.ChooseExactly | os/src/syscall/process.rs:353-381 | For every argument and look: a child is picked if and only if a fitting one is dead, and each refusal has its exact reason: keep waiting, no such child, unsupported argument |
| Lifecycle.WaitDecides | os/src/syscall/process.rs:353-405 | The same for the whole look, with a code that cannot be stored |
| Lifecycle.Kernel.constructor | os/src/task/task.rs:147-156 | The system starts with the init process alone |
| Lifecycle.Kernel.DoExit | os/src/task/task.rs:705-745 | In place: exits exactly as the step says, and does nothing for a zombie |
| Lifecycle.Kernel.GiveChildrenToInit | os/src/task/task.rs:725-741 | The loop relinks every child to init, moves all to init's map and clears the old one |
| Lifecycle.Kernel.DoGroupExit | os/src/task/task.rs:747-763 | In place: announces the code unless one is fixed, then exits with the fixed one |
| Lifecycle.Kernel.Fork | os/src/task/task.rs:472-575 | In place: a thread joins the group, a process gets its own group and joins the children |
| Lifecycle.Kernel.FindReapable | os/src/syscall/process.rs:359-363 | The loop returns the least reapable child, or none exactly when none is reapable |
| Lifecycle.Kernel.Waitpid | os/src/syscall/process.rs:353-405 | One look at the children, in place: outcome and new state are those of the step for every argument |
| Lifecycle.Kernel.WaitpidCall | os/src/syscall/process.rs:346-485 | The whole call in place: the first look, the no-hang answer, and the loop of sleeps with SIGCHLD or interruption |
| Lifecycle.Kernel.RemoveThreads | os/src/syscall/process.rs:396-400 | The loop removes exactly the group's members from the task manager |
| FutexProtocol.InitialInv | os/src/syscall/futex.rs:460-466 | Idle tasks, an open lock and an empty queue meet the invariants |
| FutexProtocol.StepKeepsInv | os/src/syscall/futex.rs:93-105 | Every step, a wake-up from elsewhere included, keeps queue, lock and store invariants: every parked task is queued, a parked or checked waiter expects the value it saw, and every store since then still has its own wake to come |
| FutexProtocol.RunsKeepInv | os/src/syscall/futex.rs:93-105 | The same after every interleaving |
| FutexProtocol.NoLostWakeup | os/src/syscall/futex.rs:93-105 | In every interleaving, with wake-ups from elsewhere, once the wake of store k has finished, every parked task is queued and checked the word at or after store k, whatever other stores are never woken for |
| FutexProtocol.LastWakeSettles | os/src/syscall/futex.rs:93-105 | Once the last store's wake has finished, every parked task expects the word's current value |
| FutexProtocol.StoreThenWake | os/src/syscall/futex.rs:491-504 | An undisturbed store with its wake leaves the value in the word, the store counted as woken for, the lock free and nobody parked |
| FutexProtocol.NobodyWaitsAfterWakeAll | os/src/syscall/futex.rs:491-504 | A full wake leaves nobody parked or about to park |
| FutexProtocol.WakeReleases | os/src/syscall/futex.rs:491-504 | A wake of n takes n entries; exactly the parked tasks among them go on |
| FutexProtocol.WakeReleasesAllIff | os/src/syscall/futex.rs:491-504 | A wake of n releases n tasks if and only if none of the entries it takes is stale or a duplicate |
| FutexProtocol.CleanRuns | os/src/syscall/futex.rs:491-504 | In every run without wake-ups from elsewhere a wake of n releases n tasks |
| FutexProtocol.StrayWakeCostsAWake | os/src/syscall/futex.rs:491-504 | A run after which a wake of one takes a stale entry and leaves the parked task behind it waiting |
| FutexManager.RequeueMoves | os/src/syscall/futex.rs:531-559 | Between different keys the n oldest waiters move, in order, behind the target's own, and no other queue changes |
| FutexManager.RequeueToSameKeyIff | os/src/syscall/futex.rs:531-559 | Onto the same key the queue is kept if and only if none or all waiters are moved; otherwise those moved are dropped |
| FutexManager.RequeueConservesIff | os/src/syscall/futex.rs:531-559 | No waiter is lost if and only if the keys differ or none or all are moved |
| FutexManager.RequeueDropsAWaiter | os/src/syscall/futex.rs:531-559 | One of two waiters requeued onto their own key is in no queue any more |
| FutexManager.FutexManager.AddWaiter | os/src/syscall/futex.rs:468-477 | Appends to the key's queue, creating it if needed; other queues unchanged |
| FutexManager.FutexManager.RemoveWaiter | os/src/syscall/futex.rs:480-489 | Removes the first waiter of the task, or reports none and changes nothing |
| FutexManager.FutexManager.Wake | os/src/syscall/futex.rs:491-504 | Wakes exactly the min(n, length) oldest in order; fails exactly on an unknown key |
| FutexManager.FutexManager.RequeueWaiters | os/src/syscall/futex.rs:531-559 | The loop moves as the specification says and returns how many |
| RobustList.DiedBits | os/src/task/task.rs:618-618 | The value left behind keeps the waiters bit, sets the died bit and clears the tid |
| RobustList.FutexAddrIsSigned | os/src/task/task.rs:656-681 | The futex lies at its entry plus the signed 64-bit offset, in either direction |
| RobustList.FetchRoundTrip | os/src/task/task.rs:634-641 | A list pointer reads back as the entry and priority-inheritance mark it was made from |
| RobustList.HandleFutexDeath | os/src/task/task.rs:601-629 | Under any racing values the compare-exchange loop replaces only a value that names the dying task, by its died form; without races it does so exactly then, and wakes exactly as promised |
| RobustList.Walk | os/src/task/task.rs:656-681 | The walk visits at most its limit of entries on any memory |
| RobustList.ExitRobustList | os/src/task/task.rs:631-687 | At thread death at most 2048 entries are visited, whatever the list is |
| RobustList.WalkIsSafe | os/src/task/task.rs:656-681 | On any list, broken or cyclic, every word is unchanged or was owned by the dying task and is now marked |
| RobustList.ExitIsSafe | os/src/task/task.rs:631-687 | The same for the whole exit, pending entry included |
| RobustList.WalkMarksListed | os/src/task/task.rs:656-681 | A closed list within the limit is walked to its end, and exactly the listed futexes owned by the task are marked |
| RobustList.ExitMarksAllOwned | os/src/task/task.rs:631-687 | For a closed list of at most 2048 entries, every listed or pending futex owned by the task is marked and every other word is unchanged |
| RobustList.WalkWakesExactly | os/src/task/task.rs:656-681 | The list part wakes a futex once if the task owns it, it has waiters and its first listed entry is without priority inheritance, and otherwise not at all, duplicates included |
| RobustList.ExitWakesExactly | os/src/task/task.rs:631-687 | How often each futex is woken at thread death, list and pending entry together |
| RobustList.WalkStep | os/src/task/task.rs:659-681 | One turn of the walk handles its entry and continues with the link read before |
| RobustList.WalkList | os/src/task/task.rs:656-681 | The loop, handling each futex by the compare-exchange loop, computes the specified walk, failures included |
| RobustList.DieOn | os/src/task/task.rs:601-629 | Undisturbed, the compare-exchange loop leaves memory and wake-up as specified |
| RobustList.ExitList | os/src/task/task.rs:631-687 | The whole exit computes the specified outcome, with its failures |
| RangeSet.OperateIsSetUpdate | utils/segment-tree/src/lib.rs:47-80 | Fill and clear are union and difference clipped to the node's range, and keep the tree canonical |
| RangeSet.StatusMeansContents | utils/segment-tree/src/lib.rs:14-45 | A node is Full, Empty or Half if and only if its range is all in, all out, or mixed |
| RangeSet.CanonicalIsUnique | utils/segment-tree/src/lib.rs:22-45 | Equal contents mean identical trees |
| RangeSet.RunIsWanted | utils/segment-tree/src/lib.rs:128-136 | After any history a point is in the set exactly as the last covering call says |
| RangeSet.HistoriesConverge | utils/segment-tree/src/lib.rs:22-80 | Two histories with the same contents leave identical trees |
| RangeSet.IntersectCounts | utils/segment-tree/src/lib.rs:82-100 | For queries that touch the root, or a root that is not full, the count is the cardinality of the intersection |
| RangeSet.IntersectExactIff | utils/segment-tree/src/lib.rs:82-100 | The count is exact if and only if the root is not full or the query is not strictly outside it |
| RangeSet.ContainsMeansSubset | utils/segment-tree/src/lib.rs:138-142 | contains is the subset test for every query, with unbounded and with wrapping 64-bit indices |
| RangeSet.IntersectsMeansOverlapIff | utils/segment-tree/src/lib.rs:144-149 | For both kinds of index intersects is the overlap test if and only if the root is not full or the query is not strictly outside it |
| RangeSet.FullRootMiscounts | utils/segment-tree/src/lib.rs:82-100 | A reachable full tree and a query beyond it: negative count, and an overlap claimed that does not exist |
| RangeSet.Intersect64Wraps | utils/segment-tree/src/lib.rs:82-100 | The wrapping 64-bit count is the count modulo 2^64 |
| RangeSet.WrappingQueries | utils/segment-tree/src/lib.rs:138-149 | A wrapped count is the query's length exactly when the query is a subset, and nonzero exactly when it overlaps, under the same condition |
| RangeSet.UnderflowsIff | utils/segment-tree/src/lib.rs:82-100 | A build with overflow checks stops in a subtraction if and only if the root is full and the query strictly outside it |
| RangeSet.RangeSetNode.constructor | utils/segment-tree/src/lib.rs:39-45 | A node of a status without children |
| RangeSet.RangeSetNode.Operation | utils/segment-tree/src/lib.rs:47-80 | The in-place recursion over owned boxes yields the tree of the pure operation |
| RangeSet.RangeSetNode.EnsureLeft | utils/segment-tree/src/lib.rs:58-60 | A missing left child appears with its parent's status; nothing else changes |
| RangeSet.RangeSetNode.EnsureRight | utils/segment-tree/src/lib.rs:64-66 | A missing right child appears with its parent's status; nothing else changes |
| RangeSet.RangeSetNode.OperateLeft | utils/segment-tree/src/lib.rs:61-63 | The left child becomes the operated one; the right one and the status stay |
| RangeSet.RangeSetNode.OperateRight | utils/segment-tree/src/lib.rs:67-69 | The right child becomes the operated one; the left one and the status stay |
| RangeSet.RangeSetNode.Collapse | utils/segment-tree/src/lib.rs:71-79 | Children that agree are dropped into their parent's status |
| RangeSet.RangeSetNode.IntersectSize | utils/segment-tree/src/lib.rs:82-100 | The in-place recursion computes the specified count, modulo 2^64 for 64-bit indices |
| RangeSet.RangeSet.constructor | utils/segment-tree/src/lib.rs:115-126 | A new set over a non-empty range is empty |
| RangeSet.RangeSet.Insert | utils/segment-tree/src/lib.rs:128-131 | Contents become the union with the range clipped to the root; an empty range changes nothing |
| RangeSet.RangeSet.Remove | utils/segment-tree/src/lib.rs:133-136 | Contents become the difference with the range |
| RangeSet.RangeSet.ContainsRange | utils/segment-tree/src/lib.rs:138-142 | True if and only if every point of the range is held, for both kinds of index |
| RangeSet.RangeSet.IntersectsRange | utils/segment-tree/src/lib.rs:144-149 | False on empty ranges; otherwise right exactly under the stated condition, for both kinds of index |
| RangeMap.GetScans | utils/range-map/src/lib.rs:55-89 | One predecessor yields a segment if and only if a scan finds it to hold the key |
| RangeMap.IsRangeFreeScans | utils/range-map/src/lib.rs:119-133 | Free if and only if the range is not empty and no segment meets it |
| RangeMap.RangeContainScans | utils/range-map/src/lib.rs:135-173 | Finds a segment if and only if some segment contains the range, inverted ranges included |
| RangeMap.RangeMatchScans | utils/range-map/src/lib.rs:175-183 | Finds the segment with exactly these bounds, or nothing |
| RangeMap.RangeIntersectScans | utils/range-map/src/lib.rs:233-267 | Nothing if and only if no segment meets the range; otherwise the last that does |
| RangeMap.SetOverwrites | utils/range-map/src/lib.rs:39-53 | Seen as a map from points to values, inserting or extending a segment sets its points and no others |
| RangeMap.RemoveOverwrites | utils/range-map/src/lib.rs:190-194 | Removing a segment clears its points and no others |
| RangeMap.ShrinkOverwrites | utils/range-map/src/lib.rs:218-231 | Shrinking a segment clears the points given up and no others |
| RangeMap.RangeMap.TryInsert | utils/range-map/src/lib.rs:39-53 | Fails exactly on overlap, changing nothing; otherwise sets exactly the range's points |
| RangeMap.RangeMap.ForceRemoveOne | utils/range-map/src/lib.rs:185-194 | Removes exactly the segment and returns its value |
| RangeMap.RangeMap.ExtendBack | utils/range-map/src/lib.rs:196-208 | Succeeds exactly when the added part is non-empty and free |
| RangeMap.RangeMap.ReduceBack | utils/range-map/src/lib.rs:210-231 | Succeeds exactly for an end inside the segment; a segment reduced to nothing disappears |
| RangeMap.RangeMap.FindFreeRange | utils/range-map/src/lib.rs:91-117 | The result is a gap in the window and the least one; no result means no gap of that size exists |
| Pelt.DecayMonotone | os/src/processor/schedule.rs:57-73 | Decay is monotone in the load |
| Pelt.DecaySuperadditive | os/src/processor/schedule.rs:57-73 | Decay of a sum is at least the sum of the decays |
| Pelt.DecayAntitone | os/src/processor/schedule.rs:57-73 | More periods never leave more load, across table, shift and cut-off; how much they leave is DecayComposes |
| Pelt.TableComposes | os/src/processor/schedule.rs:57-73 | Over two turns of the table the product of two factors is the factor of their sum, up to 6 * (j + 1) parts in 2^33 |
| Pelt.HalfLife | os/src/processor/schedule.rs:61-67 | 32 periods more halve the load first, exactly |
| Pelt.DecayKeepsHalf | os/src/processor/schedule.rs:57-73 | The decayed load lies between half and all of what the shift by whole half-lives leaves |
| Pelt.DecayComposes | os/src/processor/schedule.rs:57-73 | Decaying by m periods and then by n equals decaying by m + n up to 3 plus 96 parts in 2^32 of the load, for every 64-bit load and across the cut-off |
| Pelt.DecaySubadditive | os/src/processor/schedule.rs:57-73 | Decay of a sum is at most 2 above the sum of the decays |
| Pelt.MiddleGrows | os/src/processor/schedule.rs:75-80 | One period has no middle segment; each further period adds 1024 decayed by one period more, up to 5 |
| Pelt.SegmentDoesNotUnderflow | os/src/processor/schedule.rs:75-80 | The unsigned subtraction of the middle segment never goes below zero |
| Pelt.CrossingIsBounded | os/src/processor/schedule.rs:83-101 | When periods pass, decayed sum plus contribution is at most the new divider |
| Pelt.CrossingAdds | os/src/processor/schedule.rs:83-101 | Within a period the sum stays; a crossing makes it the decayed old sum, the decayed rest of the first period, the middle and the begun period |
| Pelt.SplitAgrees | os/src/processor/schedule.rs:83-101 | One update over a long time and two over its parts, both crossing, leave the same window and sums that agree up to 25 |
| Pelt.ShortUpdatesAreLost | os/src/processor/schedule.rs:83-101 | An update within a period adds nothing: its time is missing from the sum afterwards, exactly or, before a crossing, decayed |
| Pelt.UpdateKeepsBoundIff | os/src/processor/schedule.rs:83-101 | The bound is kept if and only if the window does not wrap 64 bits or the sum fits what is left after the wrap |
| Pelt.WrapBreaksBound | os/src/processor/schedule.rs:83-101 | A first reading reaches a bounded tracker; a second one a microsecond earlier wraps the window and breaks the bound |
| Pelt.AverageIsZeroOrOne | os/src/processor/schedule.rs:115-118 | Under the bound the average is 1 exactly when the sum equals the divider, else 0 |
| Pelt.StepKeepsBound | os/src/processor/schedule.rs:120-126 | An update without wrap keeps the bound and records the time |
| Pelt.Run | os/src/processor/schedule.rs:82-127 | Every tracker reached by any clock readings without wrap has contribution below 1024, sum at most the divider and average at most 1 |
| Pelt.TaskLoadTracker.constructor | os/src/processor/schedule.rs:41-48 | A new tracker is all zero |
| Pelt.TaskLoadTracker.UpdateTaskLoad | os/src/processor/schedule.rs:83-101 | In place: window, sum and 32-bit period count of the step for which CrossingAdds, SplitAgrees and UpdateKeepsBoundIff are proved |
| Pelt.TaskLoadTracker.UpdateLoadSum | os/src/processor/schedule.rs:103-113 | In place: wrapping clock difference, and whether a period boundary was crossed |
| Pelt.TaskLoadTracker.UpdateLoadAvgSe | os/src/processor/schedule.rs:120-126 | In place: keeps the bound, records the time, and recomputes the average exactly on a crossing |
| Pelt.LoadBalance | os/src/processor/schedule.rs:150-168 | Busiest and idlest core by load and position; never over the threshold when loads are at most 1 |
| Pelt.BalanceProcessors | os/src/processor/schedule.rs:150-168 | Balanced if and only if no two processors differ by more than the threshold; always for trackers that keep the bound |
| Pelt.NothingMoves | os/src/processor/schedule.rs:150-168 | For trackers reached by any clock readings without wrap no task is ever moved |
| RingBuffer.EnqueueAppends | os/src/utils/ring_buffer.rs:123-137 | Enqueue appends, and refuses exactly when full |
| RingBuffer.DequeueTakesFirst | os/src/utils/ring_buffer.rs:107-121 | Dequeue takes the oldest byte, and refuses exactly when empty |
| RingBuffer.EnqueueAllState | os/src/utils/ring_buffer.rs:74-105 | Repeated enqueues reach a closed-form concrete state, wrap-around included |
| RingBuffer.DequeueAllState | os/src/utils/ring_buffer.rs:41-72 | Repeated dequeues reach a closed-form concrete state |
| RingBuffer.EnqueueAllAppends | os/src/utils/ring_buffer.rs:74-105 | Enqueuing what fits appends it in order |
| RingBuffer.DequeueAllDrops | os/src/utils/ring_buffer.rs:41-72 | Dequeuing n held bytes drops exactly the n oldest |
| RingBuffer.SplicedInTwoPieces | os/src/utils/ring_buffer.rs:85-91 | The two copies of a wrapping write lay down one contiguous run modulo the capacity |
| RingBuffer.ContentsInTwoPieces | os/src/utils/ring_buffer.rs:55-61 | The two copies of a wrapping read are the oldest bytes in order |
| RingBuffer.RingBuffer.constructor | os/src/utils/ring_buffer.rs:24-31 | A new buffer of positive capacity is empty |
| RingBuffer.RingBuffer.CopyOut | os/src/utils/ring_buffer.rs:49-62 | Copies exactly the n oldest bytes, in one piece or two |
| RingBuffer.RingBuffer.Read | os/src/utils/ring_buffer.rs:41-72 | Returns the oldest min(length, size) bytes and ends in the concrete state of that many dequeues |
| RingBuffer.RingBuffer.Write | os/src/utils/ring_buffer.rs:74-105 | Takes min(room, size) bytes and ends in the concrete state of that many enqueues |
| RingBuffer.RingBuffer.DequeueByte | os/src/utils/ring_buffer.rs:107-121 | In place: the specified dequeue |
| RingBuffer.RingBuffer.EnqueueByte | os/src/utils/ring_buffer.rs:123-137 | In place: the specified enqueue |
| Pipe.InitialInv | os/src/fs/pipefs.rs:29-41 | A new pipe with idle tasks meets the invariant |
| Pipe.TakeFacts | os/src/fs/pipefs.rs:231-248 | A read removes a prefix of the contents and never makes the buffer full |
| Pipe.PutFacts | os/src/fs/pipefs.rs:250-264 | A write appends and never makes the buffer empty |
| Pipe.ReadTransferKeepsInv | os/src/fs/pipefs.rs:231-248 | A transfer after a successful read poll keeps the invariant and delivers at least one byte |
| Pipe.WriteTransferKeepsInv | os/src/fs/pipefs.rs:250-264 | A transfer after a successful write poll keeps the invariant and stores at least one byte |
| Pipe.StepKeepsInv | os/src/fs/pipefs.rs:140-319 | Every poll, transfer, close and stray wake keeps: written is read plus buffered, in order; parked means nothing to do and a waker queued; end-of-file means closed and drained; a broken write means a closed read end; every waker left is still queued or was fired once |
| Pipe.RunsKeepInv | os/src/fs/pipefs.rs:140-319 | The same after every run, with read and written only growing |
| Pipe.NeverBothParked | os/src/fs/pipefs.rs:140-189 | Reader and writer are never parked at the same time |
| Pipe.EndOfFileIsFinal | os/src/fs/pipefs.rs:171-189 | After end-of-file no run brings or accepts another byte |
| Pipe.WritePollAnswers | os/src/fs/pipefs.rs:140-158 | A write poll ends with the error if and only if the read end is closed, and gets ready if and only if it is open and there is room |
| Pipe.ReadPollAnswers | os/src/fs/pipefs.rs:171-189 | A read poll reports end-of-file if and only if the write end is closed and everything is read, and gets ready if and only if something is not |
| Pipe.BrokenPipeIsFinal | os/src/fs/pipefs.rs:143-146 | From a closed read end with no writer past its poll no run brings another byte into the pipe, and each of its writes breaks |
| Pipe.ClosingReleases | os/src/fs/pipefs.rs:303-316 | Closing an end sets its flag and leaves nobody parked at the other |
| Pipe.BasePollsAnswer | os/src/fs/pipefs.rs:266-298 | A base poll reports readiness and closing as they are, and leaves a waker exactly when not ready |
| Pipe.PipeMeta.constructor | os/src/fs/pipefs.rs:30-40 | A new pipe is open at both ends and empty |
| Pipe.PipeMeta.PollReader | os/src/fs/pipefs.rs:171-189 | In place: the read poll of ReadPollAnswers, queueing a waker exactly when pending |
| Pipe.PipeMeta.PollWriter | os/src/fs/pipefs.rs:140-158 | In place: the write poll of WritePollAnswers, queueing a waker exactly when pending |
| Pipe.PipeMeta.BasePollReader | os/src/fs/pipefs.rs:282-297 | In place: the base poll of the read end |
| Pipe.PipeMeta.BasePollWriter | os/src/fs/pipefs.rs:267-281 | In place: the base poll of the write end |
| Pipe.PipeMeta.Read | os/src/fs/pipefs.rs:231-248 | Copies the oldest bytes out and pops one writer's waker |
| Pipe.PipeMeta.Write | os/src/fs/pipefs.rs:250-264 | Copies bytes in and pops one reader's waker |
| Pipe.PipeMeta.DropReader | os/src/fs/pipefs.rs:303-309 | Closes the read end and wakes all writers |
| Pipe.PipeMeta.DropWriter | os/src/fs/pipefs.rs:311-316 | Closes the write end and wakes all readers |
| Signals.ReceiveKeepsInv | os/src/signal/manager.rs:56-75 | Receiving keeps the bitmap equal to the duplicate-free set of queued standard signals |
| Signals.ReceiveIsExact | os/src/signal/manager.rs:59-75 | An arrival raises the count of exactly that signal by one, behind those queued, unless it is a standard signal whose number is queued; then nothing changes |
| Signals.BitMeansQueued | os/src/signal/manager.rs:77-98 | A bit in the map has its signal in the queue: the warning branches are unreachable |
| Signals.TakeRotated | os/src/signal/manager.rs:137-172 | Taking a signal after rotating the queue keeps bitmap and queue in step |
| Signals.TakeInPlace | os/src/signal/manager.rs:174-195 | Taking a signal from the middle keeps bitmap and queue in step |
| Signals.DequeueOneKeepsInv | os/src/signal/manager.rs:137-172 | A plain dequeue keeps the invariant |
| Signals.DequeueExpectedKeepsInv | os/src/signal/manager.rs:174-195 | A dequeue of expected signals keeps the invariant |
| Signals.QueriesAgree | os/src/signal/manager.rs:77-113 | The flag, the peek and the expected dequeue agree with each other and with what is queued, down to the signal handed out |
| Signals.DequeueOneIsExact | os/src/signal/manager.rs:137-172 | Something is returned if and only if something is deliverable, and only that leaves: the first deliverable standard signal, else the oldest of the lowest unblocked real-time number (section 2.4.2 of POSIX.1-2017) |
| Signals.BlockedStaysQueued | os/src/signal/manager.rs:139-172 | What is returned is not blocked unless it is SIGKILL or SIGSTOP; when nothing is, all that is queued is blocked and neither of these |
| Signals.DequeueExpectedIsExact | os/src/signal/manager.rs:174-195 | Something is returned if and only if something expected is queued, and only that leaves: the first expected standard signal, else the oldest of the lowest expected real-time number |
| Signals.RunsKeepInv | os/src/signal/manager.rs:56-195 | The invariant holds after every sequence of calls with numbers 1 to 64 |
| Signals.RealTimeIsFifo | os/src/signal/manager.rs:56-195 | In every run and for every real-time number: what was handed out followed by what is queued is what was queued at first followed by all arrivals, in order |
| Signals.KillIsDelivered | os/src/signal/manager.rs:139-172 | A queued SIGKILL or SIGSTOP is returned within its queue position plus one dequeues, whatever is blocked or arrives meanwhile |
| Signals.SigManager.constructor | os/src/signal/manager.rs:34-43 | A new manager has nothing pending |
| Signals.SigManager.ReceiveSignal | os/src/signal/manager.rs:56-75 | In place: the receive of ReceiveIsExact and RealTimeIsFifo |
| Signals.SigManager.FindRt | os/src/signal/manager.rs:159-171 | The ascending loop finds the lowest usable real-time number |
| Signals.SigManager.TakeRealTime | os/src/signal/manager.rs:159-169 | Takes the oldest signal of the lowest usable number, or changes nothing when there is none |
| Signals.SigManager.TakeStandard | os/src/signal/manager.rs:139-158 | The rotation loop removes the first deliverable signal, or restores the queue after one turn |
| Signals.SigManager.TakeExpected | os/src/signal/manager.rs:186-194 | Removes the first queued signal with an expected number, or nothing |
| Signals.SigManager.DequeueSignal | os/src/signal/manager.rs:137-172 | In place: the specified dequeue |
| Signals.SigManager.DequeueExpected | os/src/signal/manager.rs:174-195 | In place: the specified dequeue of expected signals |
| StrongArc.StepKeepsInv | hal/src/util/smart_point.rs:29-133 | Every atomic step keeps: count equals handles, at zero exactly one handle frees, every pointer leads to an allocated payload, a handle that saw one is alone |
| StrongArc.EveryRunIsSafe | hal/src/util/smart_point.rs:29-133 | In every interleaving, with addresses reused at will, no step touches a freed payload, every allocation is freed at most once, counts are exact, and an address is fully freed exactly when no handle points to it |
| StrongArc.DanglingFaults | hal/src/util/smart_point.rs:29-133 | Following a pointer to memory that is not allocated is a fault, the one EveryRunIsSafe excludes |
| StrongArc.LastHandleFrees | hal/src/util/smart_point.rs:119-133 | When a payload is freed no other handle points to it |
| StrongArc.BooksStay | hal/src/util/smart_point.rs:119-133 | While a handle points to an address no other handle's step allocates or frees it |
| StrongArc.OthersSeeTheSame | hal/src/util/smart_point.rs:62-85 | No step of one handle, emplace's write included, changes what another handle dereferences to |
| StrongArc.ExchangeFacts | hal/src/util/smart_point.rs:65-84 | A turn of emplace's loop repeats only when the count is no longer the one seen |
| StrongArc.InterfereSeesSame | hal/src/util/smart_point.rs:62-103 | Whatever others do inside a call, its own handle and all bystanders keep phase and value |
| StrongArc.Shared.constructor | hal/src/util/smart_point.rs:39-54 | Nothing is allocated at first |
| StrongArc.Shared.New | hal/src/util/smart_point.rs:47-54 | A new handle sees its value; all others see what they saw |
| StrongArc.Shared.CloneTo | hal/src/util/smart_point.rs:29-36 | The copy shares payload and value; all others see what they saw |
| StrongArc.Shared.Drop | hal/src/util/smart_point.rs:119-133 | The handle goes; its payload is freed, once, exactly when it was the only handle, under any interference |
| StrongArc.Shared.Emplace | hal/src/util/smart_point.rs:62-103 | The loop ends and the handle sees the new value, under any finite interference; bystanders see what they saw |
| UserStack.EncodeRoundTrip | os/src/task/utils.rs:216-230 | Little-endian words of any width decode to what was encoded |
| UserStack.ReadBack | os/src/task/utils.rs:166-195 | What start code reads at the final stack pointer is the argument count, all arguments, all environment strings, and the auxiliary vector followed by AT_EXECFN with the program name's address and the null pair |
| UserStack.ImageLies | os/src/task/utils.rs:166-195 | In the finished image the vectors lie at the stack pointer and both groups of strings where they were pushed: no push overwrites an earlier one |
| UserStack.ReadVectors | os/src/task/utils.rs:176-192 | Count, pointer vectors and auxiliary vector are read back from their bytes |
| UserStack.ReadStrsBack | os/src/task/utils.rs:168-170 | The pointers taken while pushing read back every string |
| UserStack.AlignDown | os/src/task/utils.rs:232-235 | The result is the greatest multiple of 16 strictly below |
| UserStack.AlignedIff | os/src/task/utils.rs:149-195 | The final stack pointer is 16-byte aligned if and only if arguments and environment strings together are odd in number |
| UserStack.MisalignedStack | os/src/task/utils.rs:166-195 | Without arguments and environment the stack pointer is not aligned |
| UserStack.ExecFnIffNoEnvironment | os/src/task/utils.rs:139-178 | AT_EXECFN points to the first argument if and only if the environment is empty |
| UserStack.ExecFnNamesEnvironment | os/src/task/utils.rs:139-178 | With one argument and one environment string AT_EXECFN points to the environment string |
| UserStack.UserMemory.PushStr | os/src/task/utils.rs:197-214 | The byte loop is a push of the string and its terminator |
| UserStack.UserMemory.PushUsize | os/src/task/utils.rs:224-230 | A push of the eight bytes of the word |
| UserStack.UserMemory.PushAux | os/src/task/utils.rs:216-222 | A push of key and value |
| UserStack.UserMemory.Align16 | os/src/task/utils.rs:232-235 | Lowers the stack pointer only |
| UserStack.UserMemory.PushStrs | os/src/task/utils.rs:169-170 | The last-to-first loop lays the strings out in order and returns their addresses in reverse |
| UserStack.UserMemory.PushPtrs | os/src/task/utils.rs:184-188 | The loop lays the pointers out in reverse of the order given |
| UserStack.UserMemory.PushVector | os/src/task/utils.rs:182-189 | A null-ended pointer vector |
| UserStack.UserMemory.PushAuxv | os/src/task/utils.rs:176-181 | The entries, AT_EXECFN and the null pair in memory order |
| UserStack.UserMemory.PushStrings | os/src/task/utils.rs:167-175 | Environment strings, argument strings, the two constants and the alignment |
| UserStack.UserMemory.PushVectors | os/src/task/utils.rs:176-192 | All vectors and the count, with the addresses returned |
| UserStack.UserMemory.Init | os/src/task/utils.rs:166-195 | Memory and stack pointer become the specified image; the four results are its addresses |
| Disk.FlatSlice | os/src/fs/ext4/disk.rs:51-78 | Bytes of one block are the flat array's bytes at its offset |
| Disk.FlatPatch | os/src/fs/ext4/disk.rs:87-103 | Read, patch and write back changes exactly the patched bytes of the flat array |
| ByteSeqs.ReadOverlay | os/src/fs/ext4/disk.rs:112-144 | What is written is read back; what does not overlap is unchanged |
| Disk.Cursor.constructor | os/src/fs/ext4/disk.rs:25-31 | A new cursor stands at 0 |
| Disk.Cursor.Position | os/src/fs/ext4/disk.rs:40-42 | The flat position |
| Disk.Cursor.SetPosition | os/src/fs/ext4/disk.rs:45-48 | The position becomes the one given, offset below 512 |
| Disk.Cursor.ReadOne | os/src/fs/ext4/disk.rs:51-78 | Never fails; copies exactly the flat bytes up to the block's end and advances by as many |
| Disk.Cursor.WriteOne | os/src/fs/ext4/disk.rs:81-105 | Never fails; changes exactly the flat bytes up to the block's end and advances by as many |
| Disk.Cursor.Read | os/src/fs/ext4/disk.rs:112-128 | The loop ends, the buffer holds exactly the bytes from the position on, and the position advances by its length |
| Disk.Cursor.Write | os/src/fs/ext4/disk.rs:129-144 | The loop ends, exactly the bytes from the position on are replaced, and the position advances by the length |

## Left out

- Page tables: `PageTable::clear`, the LoongArch table, TLB and CSR instructions, and changes callers make through the entry reference that `map` and `find_pte` return.
- Sv39.PageTable.Map: asks for frames for missing tables and a 44-bit page number. The error result is not modelled: the creating walk always finds a slot. When the words of a larger page lead the walk back into the table, only the new memory is stated, not its translations.
- Sv39.MapOntoOwnTableIff: leaves out a root entry that is pointed, without access, at a last-level table under the same entry.
- Sv39.HardwareAgreesIff: the processor's walk is modelled without the check of the access against U, R, W and X; setting A and D is the separate step of MarksKeepSound, and implementations that fault on a clear A or D bit are not modelled.
- Sv39.PhysMemory.Alloc: the allocator is a set of free frames; running out, which panics, is excluded by the callers' conditions.
- Lifecycle: each fork, exit and look of a wait is one atomic step. Address spaces, files, timers, signals sent on exit and group exit, process groups, exec, and the TID allocator's own state are not part of this model.
- Lifecycle.Kernel.WaitpidCall: what happens in a sleep is a parameter: steps of others, and whether SIGCHLD was pending; the signal queue itself is the one of Signals.
- Futexes: wake_bitset, WakeOp, timeouts other than leaving the queue, address translation of keys, and a wake that falls between queueing and suspending are not modelled; a wake-up from elsewhere stands for signals and timers.
- FutexProtocol.NoLostWakeup: covers the tasks of one key.
- RobustList: list pointers and futex words live in separate maps, so a word that overlaps a list pointer is not modelled; other threads may change words only inside HandleFutexDeath.
- RangeSet and RangeMap: RangeMap's integers are unbounded, and a RangeSet's root range is not empty; borrowed and mutable variants of the queries return the segment's start instead of a reference.
- Pelt: the processor's clock and the migration of tasks are not modelled.
- Pipe: one reader task and one writer task; each waker queue is its length. Page-fault checks of user buffers and ioctl are not modelled.
- Signals: handlers, masks of handlers, reset on exec and wake-up sets are not modelled; a signal set is a set of numbers.
- StrongArc: atomics are sequentially consistent, the count does not wrap, and mutable dereference, which bypasses the count, is not modelled.
- UserStack.UserMemory.Init: the first pass with its size estimate and page faults is not modelled except for the AT_EXECFN address it computes; memory below the stack pointer is writable.
- Disk: seek, flush, size and the device driver are not modelled; transfers stay within the device.
- VFS, page cache, sockets, drivers, trap handling, locks and memory allocators are not part of this model.
