# SBUnix memory and process core, in Dafny

A model of the part of the SBUnix kernel in which page faults, fork, exec, the page tables, the run
ring and the kernel's page pools meet, with proofs about it. One module per component:

| file | what it models |
|---|---|
| `Memcpy.dfy` | the word-at-a-time `memcpy` on a byte array |
| `PageTable.dfy` | four-level page tables in 64-bit words, the hardware walk, the shape the kernel keeps |
| `RecursiveWindow.dfy` | the window through PML4 slot 510 |
| `AccessRights.dfy` | the processor's check of U and W at all four levels |
| `AddressSpace.dfy` | `map_virmem_to_phymem` as a class over physical memory |
| `PteWords.dfy`, `WordRuns.dfy` | the tables' leaf words as the map of entries that the copy-on-write model uses; all address spaces together over runs of stores |
| `CowModel.dfy` | the copy-on-write state and one function per kernel or hardware step, TLB included |
| `CowKernel.dfy` | the fault handler, fork and sbrk in place, each equal to its function |
| `CowSafety.dfy` | what every step keeps: counts, write exclusivity, TLB coherence |
| `CowTransparency.dfy` | the simulation by a machine whose fork copies every page |
| `CowLimits.dfy`, `CowCounts.dfy` | fault bounds, the exact conditions where a promise stops, and the references a run forgets |
| `CowFrames.dfy`, `CowTables.dfy` | which frames every step takes, counted exactly; whose tables there are |
| `Boot.dfy` | the state at boot and the run theorems from it |
| `ExecStack.dfy` | the stack page that `do_execv` builds and what `_start` reads from it |
| `Elf.dfy`, `ElfLoad.dfy`, `Exec.dfy` | `umalloc`; `load_elf` in place; what the loaded program reads, and `do_execv` |
| `NewProgram.dfy` | the regions after exec, what the new program may touch, what its child sees |
| `FileBacked.dfy` | why no page is ever filled from a file by the handler |
| `Heap.dfy` | `do_sbrk` over runs |
| `Scheduler.dfy`, `RunQueue.dfy` | the run ring as a value, and as linked `task_struct` objects proved against it |
| `Handshake.dfy`, `Timer.dfy` | exit and wait, sleep |
| `Pools.dfy`, `KernelMemory.dfy`, `Slots.dfy` | the seven kmalloc pools and who holds their slots; `kmalloc` and its callers in place; runs of pools and ring together |
| `MemoryFailures.dfy`, `RingFailures.dfy`, `CallFailures.dfy` | the failures listed below, exhibited |
| `Addresses.dfy`, `Options.dfy` | the constants of the memory layout, the option type |

The layers are tied together: `AddressSpace` and `RecursiveWindow` show that both ways of editing page
tables set one translation and keep the others; `PteWords` shows that this is an update of the map of
user entries in `CowModel`, and `WordRuns` carries that along every run of stores for all processes at
once, down to the access check that the processor makes over the four levels (Intel SDM, volume 3,
section 4.6); `CowKernel`, `ElfLoad` and `Exec` show that the in-place routines have the effect
of the model's functions; `CowSafety` and `CowTransparency` are about every run of those functions, and
`Boot` starts those runs where the machine does. The ring is treated in the same way: `RunQueue` against
`Scheduler`, `Handshake` and `Timer`, and `KernelMemory` against `Pools`, with `Slots` for runs of both.

## What the proofs assume

These are facts the code relies on and does not check; each is a `requires` or part of the state.

- Memory above 32 MB starts zero, a frame is never handed out twice, and a free frame is left whenever
  one is asked for. A fault takes at most four.
- `map_virmem_to_phymem` edits the address space that `global_PML4` names, whoever runs: the booting process
  first, after a fork the child (SBUnix/sys/process.c:453; the reload at SBUnix/sys/virmm.c:142 is commented
  out). This is `target` in `CowModel.State` and `CowKernel.Kernel`. `DoExec` is the exec of the process it
  names, and `CowSafety.Allowed`, `ElfLoad.LoadElf` and `Exec.DoExecv` ask for that; an exec of another
  process is the steps `Remap`, `MapElse` and `SetRegions` and stores to the caller's old pages.
- The tables on its way lie in the direct map. Those that the fault handler builds do not: `high` records
  them, and `DirectPath` is a `requires` of every call.
- When fork reads an entry through the window, the tables above it are present
  (SBUnix/sys/process.c:493-494).
- Stores of the kernel on a program's pages respect the W bit. `WindowStoreAllowedIff` and
  `KernelStoreIsPrivateIff` state what happens otherwise.
- `clean_dead` is called with `end` current or not dead, and only tasks with an address space die.
- A parent has at most one child that it has not collected, and that child is not killed. `AnyChildWakes`
  covers a second child.
- Pids are not reused.
- The TLB may keep any translation that an access used, for as long as it likes until cr3 is loaded. It
  does not fill itself with translations no access has used.

## What turned out not to hold in general

Each line names the lemma with the exact condition and the one that exhibits the failure.

- Writes to code pages, which `load_elf` maps writable, are taken away by fork:
  `CowLimits.ForkRevokesWrites`, `MemoryFailures.CodeWriteLostByFork`.
- The window works only with CR0.WP clear, and then kernel stores bypass copy-on-write:
  `RecursiveWindow.WindowStoreAllowedIff`, `CallFailures.WindowNeedsWpClear`,
  `CowLimits.KernelStoreIsPrivateIff`, `MemoryFailures.KernelStoreLeaks`.
- After a fork the parent's exec maps its pages into the child: `Elf.UmallocMissesIff`,
  `CowTransparency.ElsewhereUnseenIff`, `MemoryFailures.ParentsExecHitsChild`.
- Exec does not unmap the old program's memory, and its heap shows what was there: `Exec.OldMemoryZeroIff`,
  `MemoryFailures.OldHeapShows`.
- Page tables are never freed, so that the 68th fork at the latest halts the machine: `Slots.FewChildren`,
  `Slots.ForkPanics`, `Pools.ForkKeepsIff`.
- Reference counts do not stay exact under fork when two regions share a mapped page, under exec when it
  replaces a mapped page, and under reaping of a process with pages: `CowCounts.StepKeepsExactIff`,
  `CowCounts.ForkKeepsExactIffRegions`, `CowCounts.ReferencesConserved`, `MemoryFailures.CountsDrift`.
- `clean_dead` can leave `end` outside the ring: `RunQueue.Queue.CleanDead`, `RingFailures.EndIsLost`.
- waitpid returns early when another child exits, and then marks a running child dead:
  `Handshake.AnyChildWakes`, `RingFailures.LiveChildCollected`.
- sleep is wrong for 0 and above 4294967 seconds: `Timer.SleepIsAccurateIff`, `RingFailures.SleepGoesWrong`.
- A NULL environment leaves no NULL for envp. `_start` still finds an empty environment if and only if the
  argument strings, terminators included, leave a remainder of r bytes modulo 8 and the first r of them
  are empty: `ExecStack.EmptyEnvironmentIff`, `CallFailures.NoEnvironment`.
- Segments that share a page lose bytes, the later one's too if a stale translation lasts:
  `Exec.SharedPageKeepsIff`, `Exec.ReachesIff`, `CallFailures.SharedPageLosesBytes`.
- sbrk reports success for sizes that round to multiples of 4 GB and wraps near 4 GB:
  `Heap.SilentSuccessIff`, `Heap.SbrkIsHonestIff`, `CallFailures.SbrkGoesWrong`.
- A failed exec has already replaced the stack page and brk: `Exec.DoExecv`, `CallFailures.FailedExecLosesStack`.

The comment at SBUnix/include/sys/virmm.h:57 says 512 stack pages; the model follows the value, 256.

## Model

| member | source | states |
|---|---|---|
| `Memcpy.Memcpy` | SBUnix/sys/stdlib.c:165-302 | for every length, every pair of alignments and disjoint ranges, memory ends as the byte-at-a-time loop would leave it |
| `Memcpy.ByteLoopIsSplice` | SBUnix/sys/stdlib.c:165-302 | the byte loop replaces the destination range by the source bytes and touches nothing else |
| `Memcpy.CopyMisaligned` | SBUnix/sys/stdlib.c:217-270 | the three shift-and-merge loops copy a correct prefix, load no word outside the source, and leave fewer than 32 bytes |
| `Memcpy.CopyAligned` | SBUnix/sys/stdlib.c:186-215 | the word loop and its bit-tested tail copy the rest when both pointers are aligned |
| `Memcpy.CopyTail` | SBUnix/sys/stdlib.c:271-295 | the five bit tests copy exactly the remaining n < 32 bytes |
| `Memcpy.MergedWord` | SBUnix/sys/stdlib.c:225-268 | shifting two neighbouring little-endian words together gives the word that starts 1, 2 or 3 bytes into the first |
| `Memcpy.TailBits` | SBUnix/sys/stdlib.c:195-295 | the bits the tail tests add up to the remaining length |
| `PageTable.WalksMeet` | SBUnix/sys/virmm.c:135-195 | in a well-shaped address space two walks meet in a table only if the addresses share every higher index |
| `PageTable.LeafStoreRefines` | SBUnix/sys/virmm.c:187-190 | storing a leaf sets the translation of that page and of no other |
| `PageTable.LeafStoreKeepsShape` | SBUnix/sys/virmm.c:187-190 | storing a leaf keeps the rule that present upper entries lead to tables one level down and no table hangs from two slots |
| `PageTable.HangKeepsLeaves` | SBUnix/sys/virmm.c:28-79 | hanging an empty table at any level changes no translation |
| `PageTable.HangKeepsShape` | SBUnix/sys/virmm.c:28-79 | hanging an empty table keeps the same rule |
| `PageTable.LeafStoreKeepsRooted` | SBUnix/sys/virmm.c:187-190 | storing a leaf keeps every table below the root hanging from some slot |
| `PageTable.HangKeepsRooted` | SBUnix/sys/virmm.c:28-79 | hanging a table keeps every table, the new one included, hanging from some slot |
| `PageTable.ZeroRootIsTree` | SBUnix/sys/virmm.c:128-133 | the zero root kmalloc returns at boot is an address space without other tables |
| `PageTable.MarkCowWord` | SBUnix/sys/process.c:505-508 | fork's two masks clear the write bit, set PTE_COW and keep the frame and the other permission bits |
| `PageTable.RegrantWord` | SBUnix/sys/page_fault_handler.c:122-124 | the re-granted word has the same frame, is writable and is not copy-on-write |
| `PageTable.FreshWord` | SBUnix/sys/page_fault_handler.c:73-103 | a fresh frame or-ed with the permission bits decodes to that frame and exactly those bits |
| `RecursiveWindow.SelfRefEntryVir` | SBUnix/sys/virmm.c:588-603 | the loop over shifts and masks computes the window address of an entry |
| `RecursiveWindow.WindowIndices` | SBUnix/sys/virmm.c:588-603 | at each level the window address enters slot 510 that often, then follows the address's own indices, and its offset is the entry's slot |
| `RecursiveWindow.WindowWalk` | SBUnix/sys/virmm.c:588-617 | for every level and every 64-bit address the hardware walk of the window address lands on the very slot the direct walk uses, and faults if there is none |
| `RecursiveWindow.WindowReadsLeaf` | SBUnix/sys/virmm.c:607-610 | self_ref_read at level PT reads the entry the direct walk would use |
| `RecursiveWindow.WindowWriteRefines` | SBUnix/sys/virmm.c:614-617 | self_ref_write at level PT changes the translation of one page only |
| `RecursiveWindow.WindowHangsTable` | SBUnix/sys/page_fault_handler.c:60-72 | self_ref_write of a new table at an upper level changes no translation and keeps the shape |
| `RecursiveWindow.WindowStoreAllowedIff` | SBUnix/sys/virmm.c:192-194 | slot 510 is stored without a write bit, so a store through the window is allowed if and only if CR0.WP is clear |
| `AddressSpace.Tables.SetTable` | SBUnix/sys/virmm.c:28-79 | set_pdpt, set_pdt and set_pt: a cleared table hung into the slot, whose entry has the address of the table, is present and writable, and has U if and only if the map is a user map |
| `AddressSpace.Tables.NextTable` | SBUnix/sys/virmm.c:145-185 | one level of the walk: the present table or a new one, every translation kept, at most one page taken from the pool |
| `AddressSpace.Tables.WalkDown` | SBUnix/sys/virmm.c:135-185 | three levels down to the page table, every translation kept, the shape kept |
| `AddressSpace.Tables.MapVirmemToPhymem` | SBUnix/sys/virmm.c:135-195 | the page is mapped, every other translation stays even when three tables are added, the upper entries on the path of every mapped user page keep U and W, the shape is kept, every table keeps its parent slot, only tables of this address space and pages drawn from the pool are written, slot 510 is set |
| `AddressSpace.LeafWordBits` | SBUnix/sys/virmm.c:181-187 | the leaf it stores: without NEED_SET_PTE_FLAGS bit for bit the word given; with it that frame, P and W, no copy-on-write bit, and U if and only if the map is a user map |
| `AddressSpace.MappedAccess` | SBUnix/sys/virmm.c:135-195 | after a user map the four-level check of a user access at that page is granted with flags, and without them decided by the U and W of the word given |
| `AccessRights.LeafDecides` | SBUnix/sys/virmm.c:28-79 | where every present entry on the paths of user addresses carries U and W, the check of all four levels is decided by the leaf alone |
| `AccessRights.HangKeepsOpen` | SBUnix/sys/page_fault_handler.c:60-72 | a table hung with U and W on a user path, or with any rights on another, keeps that |
| `AccessRights.LeafStoreKeepsOpen` | SBUnix/sys/virmm.c:187-190 | so does a stored leaf, whatever its bits |
| `AddressSpace.OtherSpacesUntouched` | SBUnix/sys/virmm.c:135-195 | an address space that shares no table with the edited one or its pool keeps its shape, every translation and its self-reference |
| `AddressSpace.DirectPointer` | SBUnix/sys/virmm.c:23-25 | for an entry below 32 MB the pointer that the code computes, brought back through the direct map, is the table |
| `AddressSpace.WindowReadsWhatWasMapped` | SBUnix/sys/virmm.c:135-195 | what map_virmem_to_phymem stores is what self_ref_read returns through the window |
| `PteWords.PageNoIff` | SBUnix/sys/virmm.c:6-20 | two addresses have the same page number if and only if the four index functions agree on them |
| `PteWords.DirIndexIff` | SBUnix/sys/virmm.c:6-20 | the number by which the model names an upper entry is the same for two pages if and only if their walks agree down to it |
| `PteWords.DirNamesTable` | SBUnix/sys/virmm.c:135-185 | two user pages have the same table at a level if and only if the model gives them the same number there |
| `PteWords.DecodeMarkCow` | SBUnix/sys/process.c:505-508 | fork's masks on the word are MarkCow on the entry |
| `PteWords.DecodeRegrant` | SBUnix/sys/page_fault_handler.c:122-124 | the re-granted word decodes to the entry BreakCow stores |
| `PteWords.DecodeFresh` | SBUnix/sys/page_fault_handler.c:73-103 | the fresh word decodes to the entry MapFresh stores |
| `PteWords.WindowUpdates` | SBUnix/sys/virmm.c:614-617 | self_ref_write keeps the page tables a representation of the process's map of user entries, with that one entry updated |
| `PteWords.WindowHangRepresents` | SBUnix/sys/page_fault_handler.c:60-72 | a table built by the handler leaves the represented map as it was |
| `PteWords.OtherSpaceRepresents` | SBUnix/sys/virmm.c:135-195 | edits of one address space leave what another one's tables represent |
| `WordRuns.EditKeeps` | SBUnix/sys/virmm.c:135-195 | in one physical memory, every store the kernel makes - through the window at a leaf or an upper level, by map_virmem_to_phymem at a user or a kernel address, a new root, a store to a page that is no table - leaves the tables of every process a representation of its entries, updated as the store says, and the upper levels open to user accesses |
| `WordRuns.RunsAreRepresented` | SBUnix/sys/process.c:452-523 | the same over every run of such stores, starting with no address space at all |
| `WordRuns.MapVirmemMakes` | SBUnix/sys/virmm.c:135-195 | what AddressSpace proves of map_virmem_to_phymem is such a store, as long as its pool holds no table of another process |
| `WordRuns.RegrantWords` | SBUnix/sys/page_fault_handler.c:114-124 | the handler's re-granted word, read from the tables and written back through the window, is BreakCow for an unshared frame |
| `WordRuns.CopyWords` | SBUnix/sys/page_fault_handler.c:125-151 | the word for the copy's frame, written through the window, is BreakCow for a shared one |
| `WordRuns.DemandWords` | SBUnix/sys/page_fault_handler.c:73-103 | the word with all rights and, in a read-only region, the second one without the write bit are MapFresh |
| `WordRuns.ForkWords` | SBUnix/sys/process.c:494-512 | the marked word in the parent's tables through the window, and map_virmem_to_phymem of the same word for the child as a user map without flags, is ForkPage, and every third process keeps its entries |
| `WordRuns.HardwareDecides` | SBUnix/sys/virmm.c:135-195 | after every run of stores the processor's check of all four levels grants a user access if and only if the process's entry for the page does |
| `WordRuns.TryIsHardware` | SBUnix/sys/page_fault_handler.c:45-61 | with an empty TLB an access of the model hits if and only if the processor grants it, and its fault says present if and only if the walk reaches a present leaf |
| `WordRuns.UmallocWords` | SBUnix/sys/virmm.c:498-503 | one page of umalloc, a user map with flags, is the model's mapping in the address space that global_PML4 names |
| `CowKernel.FindVma` | SBUnix/sys/page_fault_handler.c:200-209 | the chain walk returns the first region that contains the address |
| `CowModel.InVma` | SBUnix/sys/page_fault_handler.c:200-209 | a result contains the address; no result means that no region does |
| `CowModel.FirstFree` | SBUnix/sys/physical.c:151-179 | the first free descriptor: every one before it is used |
| `CowModel.ForkLoop` | SBUnix/sys/process.c:461-516 | the fold over pages changes neither regions, page contents, the TLB nor the running process |
| `CowKernel.Kernel.AllocatePageUser` | SBUnix/sys/physical.c:151-179 | the scan marks the first free frame used with count 0 and changes nothing else |
| `CowKernel.Kernel.EnsureLevel` | SBUnix/sys/page_fault_handler.c:60-72 | test one upper level through the window, build it if absent: the effect of EnsureTable on the whole state |
| `CowFrames.EnsureTableTakes` | SBUnix/sys/page_fault_handler.c:60-72 | a present table costs nothing and changes nothing; an absent one takes one frame, which becomes a table frame, and is there afterwards |
| `CowKernel.Kernel.HandleMissing` | SBUnix/sys/page_fault_handler.c:51-104 | the in-place demand-paging branch has the effect of DemandPage on the whole kernel state |
| `CowKernel.Kernel.CopyThroughScratch` | SBUnix/sys/page_fault_handler.c:133-149 | the copy through the borrowed scratch page copies the current frame of the page, uses no stale translation, and puts the scratch entry back |
| `CowKernel.Kernel.HandleCow` | SBUnix/sys/page_fault_handler.c:114-151 | re-grant or copy: in place the effect of BreakCow |
| `CowKernel.Kernel.PageFault` | SBUnix/sys/page_fault_handler.c:10-197 | the handler in place has the effect and the outcome of Fault, and leaves an empty TLB |
| `CowKernel.Kernel.RegionEnd` | SBUnix/sys/process.c:463-476 | the end rounded up to a page, one page more for the last region |
| `CowKernel.Kernel.ShareWithChild` | SBUnix/sys/process.c:494-514 | one page shared in place is ForkPage: the parent through the window, the child through global_PML4 |
| `CowKernel.Kernel.SetChildPt` | SBUnix/sys/process.c:452-523 | the nested loops share exactly the pages of ForkPages, in order, then empty the TLB |
| `CowKernel.Kernel.DoFork` | SBUnix/sys/process.c:526-556 | the memory part of do_fork has the effect of Fork, which leaves global_PML4 at the root of the child |
| `CowKernel.Kernel.DoSbrk` | SBUnix/sys/virmm.c:619-647 | a nonzero size below BRK_LIMIT whose break stays under 4 GB yields size bytes from the old brk on, brk remains the end of the heap region, other sizes change nothing, and no other region or process changes |
| `CowSafety.FaultKeepsInv` | SBUnix/sys/page_fault_handler.c:45-197 | every fault, in all branches, keeps the safety invariant and, if they were exact, exact counts |
| `CowSafety.BreakCowKeepsCore` | SBUnix/sys/page_fault_handler.c:109-151 | re-grant and copy keep counts, exclusivity and the zero-frame rule |
| `CowSafety.AccessKeepsInv` | SBUnix/sys/page_fault_handler.c:10-197 | a user access with its faults keeps the invariant, and a grant uses the current entry, never a stale one |
| `CowSafety.ForkLoopForks` | SBUnix/sys/process.c:461-516 | whatever the order and however often pages recur, the visited parent entries are marked and the child has a copy of each |
| `CowSafety.ForkKeepsInv` | SBUnix/sys/process.c:452-523 | fork keeps the invariant, and exact counts if no mapped page is visited twice |
| `CowSafety.MapImageKeepsCore` | SBUnix/sys/virmm.c:478-506 | exec overwrites entries without lowering a count; the counts remain upper bounds, and exact if no page was mapped |
| `CowSafety.ReapKeepsInv` | SBUnix/sys/schedule.c:64-72 | reaping a process keeps the invariant |
| `CowSafety.RunKeepsInv` | SBUnix/sys/page_fault_handler.c:10-197 | safety over every run of loads, stores, faults, fork, switch, sbrk, exec, reaping, and execs whose umalloc edits another process |
| `CowSafety.WritersAreAlone` | SBUnix/include/sys/physical.h:16 | in every reachable state a frame that some entry maps writable is mapped by no other entry |
| `CowTransparency.LegalFaultResolves` | SBUnix/sys/page_fault_handler.c:45-151 | a legal access that misses is resolved by one run of the handler |
| `CowTransparency.LegalAccessGranted` | SBUnix/sys/page_fault_handler.c:45-151 | a legal access is granted after at most one fault and no process sees a difference |
| `CowTransparency.FaultKeepsViews` | SBUnix/sys/page_fault_handler.c:45-197 | no fault changes what any process sees at any page |
| `CowTransparency.ForkViews` | SBUnix/sys/process.c:452-523 | after fork the child sees the parent's pages and every other view is unchanged |
| `CowTransparency.StepSimulates` | SBUnix/sys/page_fault_handler.c:10-197 | each step of the kernel is matched, observation included, by the machine that copies every page at fork |
| `CowTransparency.CowIsTransparent` | SBUnix/sys/process.c:452-523 | over every run in which exec edits its own tables, or takes from another process only pages that held nothing, what the programs observe is what they would observe if fork had copied all pages at once |
| `CowTransparency.ElsewhereUnseenIff` | SBUnix/sys/virmm.c:498-503 | an exec whose umalloc edits another process changes no byte that any process sees if and only if that process has been reaped or the pages read zero |
| `CowLimits.AccessEnds` | SBUnix/sys/page_fault_handler.c:45-158 | whatever the address, an access is granted after at most one fault or its process is killed after at most two; it never loops |
| `CowLimits.ForkRevokesWrites` | SBUnix/sys/process.c:505-508 | a store to a page mapped writable succeeds before fork; afterwards the parent's store succeeds if and only if the address lies in a writable region |
| `CowLimits.KernelStoreIsPrivateIff` | SBUnix/sys/page_fault_handler.c:129-149 | in every reachable state a kernel store that ignores the W bit stays private if and only if no other entry maps the frame or the byte is unchanged |
| `CowLimits.KernelStoreByCount` | SBUnix/sys/page_fault_handler.c:114-149 | a count of zero keeps the store private in every reachable state; where the count of that frame is exact nothing else but an unchanged byte does |
| `CowLimits.StorePath` | SBUnix/sys/page_fault_handler.c:56-72 | a store makes the handler build tables on the path of its own page only, and only where there were none |
| `CowLimits.FaultOutcome` | SBUnix/sys/page_fault_handler.c:45-197 | a fault halts the kernel if and only if a kernel access misses every region, and is resolved if and only if the region is there and the page is missing or is a copy-on-write page of a writable region that is written |
| `CowLimits.InVmaIsFirst` | SBUnix/sys/page_fault_handler.c:200-209 | where regions overlap the first one in the chain decides |
| `CowLimits.RemapKeepsExactIff` | SBUnix/sys/elf.c:63-64 | exec's remapping keeps counts exact if and only if the page was unmapped |
| `CowLimits.InForkPages` | SBUnix/sys/process.c:461-516 | fork visits a page if and only if some region's rounded range, or the guard page, contains it |
| `CowLimits.GuardPageIsForked` | SBUnix/sys/process.c:463-476 | for a chain of any length the page above the last region is visited |
| `CowLimits.TargetIsLastForked` | SBUnix/sys/process.c:453-453 | over every run global_PML4 names the child forked last, or the process it named at the start if there was no fork |
| `CowLimits.EagerForkCopiesRegions` | SBUnix/sys/process.c:461-516 | the specification's fork gives the child every byte of every region of the parent and leaves other memory alone |
| `CowCounts.ForkKeepsExactIff` | SBUnix/sys/process.c:493-514 | fork keeps exact counts exact if and only if it visits no mapped page twice |
| `CowCounts.ForkKeepsExactIffRegions` | SBUnix/sys/process.c:497-503 | the same by regions: the rounded ranges of two regions share no mapped page |
| `CowCounts.ExecKeepsExactIff` | SBUnix/sys/virmm.c:478-506 | exec keeps exact counts exact if and only if its pages are distinct and none was mapped |
| `CowCounts.ReapKeepsExactIff` | SBUnix/sys/schedule.c:64-72 | reaping keeps exact counts exact if and only if the process has no page |
| `CowCounts.StepKeepsExactIff` | SBUnix/sys/page_fault_handler.c:10-197 | every step keeps exact counts exact if and only if the condition for its kind holds |
| `CowCounts.ExactIffNoSurplus` | SBUnix/include/sys/physical.h:16 | the sum of ref_count + 1 over the data frames is never less than the number of user mappings, and equal to it if and only if every count is exact |
| `CowCounts.StepSurplus` | SBUnix/sys/process.c:495-513 | every step adds to that difference exactly the references it forgets: repeated visits of fork, entries overwritten by exec, entries of a reaped process |
| `CowCounts.ReferencesConserved` | SBUnix/sys/process.c:495-513 | over every run from exact counts, the sum of ref_count + 1 is the number of mappings plus all references forgotten on the way; the counts are exact in the end if and only if none was |
| `CowFrames.FaultTakes` | SBUnix/sys/page_fault_handler.c:51-151 | the exact count of a fault: one frame for each upper entry that was missing, one more if a data page is mapped or copied, and nothing on the other branches |
| `CowFrames.StepTakes` | SBUnix/sys/page_fault_handler.c:10-197 | the same for every step: the tables the handler builds and the pages it or exec maps, and no step gives a frame back |
| `CowFrames.FramesFromBoot` | SBUnix/sys/page_fault_handler.c:56-72 | over every run from boot the table frames are as many as the tables the handler has built, the data frames as many as the pages mapped or copied, and the rest is free |
| `CowTables.ForkTables` | SBUnix/sys/process.c:509-512 | after fork the child has the tables on the paths of the mapped pages that fork visits, and no other; nobody else gets or loses one |
| `CowTables.ReapForgets` | SBUnix/sys/schedule.c:64-72 | reaping removes the regions, entries and tables of the process and of no other, and frees no frame |
| `CowTables.FreePidsAreClean` | SBUnix/sys/schedule.c:64-72 | from boot on, a pid without a process has neither tables nor entries, the tables of a process form a tree, and every entry has the three tables on its path |
| `Boot.InitDescriptors` | SBUnix/sys/physical.c:17-51 | after init_phy_page the frames below 32 MB are taken and every other one is free |
| `Boot.BootIsSafe` | SBUnix/sys/main.c:54-64 | the state at boot satisfies every invariant that the run theorems start from, and ref_count + 1 is the number of entries, none, for every frame |
| `Boot.ReachableIsSafe` | SBUnix/sys/page_fault_handler.c:10-197 | in every state reachable from boot the invariant holds and two entries for one frame are both read-only |
| `Boot.ReachableConserves` | SBUnix/sys/process.c:495-513 | the same over every run from boot |
| `Boot.RunsFromBootAreTransparent` | SBUnix/sys/process.c:452-523 | over every run from boot, what the programs observe is what private zero-filled memories would show |
| `ExecStack.StoreWord` | SBUnix/sys/process.c:364-394 | a 64-bit store reads back as that number and changes eight bytes |
| `ExecStack.PushString` | SBUnix/sys/process.c:243-263 | one string stands at its pointer with a terminator, and the byte below it is zero |
| `ExecStack.SetParamsToStack` | SBUnix/sys/process.c:235-283 | the strings lie one behind the other below the start, the first one lowest, each pointer at its string, nothing else written |
| `ExecStack.PushPointers` | SBUnix/sys/process.c:358-392 | the pointer array in order, each pointer relocated to the page under STACK_TOP |
| `ExecStack.BuildStack` | SBUnix/sys/process.c:327-397 | the finished page: argc, argv, NULL, envp, NULL below the strings, all pointers relocated; the rewritten pointer arrays and the argument and environment fields |
| `ExecStack.BoundsMean` | SBUnix/sys/process.c:358-392 | arg_start and arg_end, env_start and env_end are the user addresses of the first and the last string, and are left alone without strings |
| `ExecStack.WordRoundTrip` | SBUnix/sys/process.c:364-394 | a number stored little-endian reads back as itself |
| `ExecStack.ExecArgumentsRoundTrip` | SBUnix/crt/crt1.s:5-9 | with at least one environment string, _start finds the argc, argv and envp given to do_execv; both arrays end in NULL and every string lies above all the words |
| `ExecStack.EmptyEnvironmentIff` | SBUnix/sys/process.c:350-375 | without an environment, for every argv, _start sees an empty one if and only if the first (string bytes modulo 8) strings of argv exist and are empty |
| `Elf.UmallocCoversExactly` | SBUnix/sys/virmm.c:478-497 | umalloc's page count is exactly the pages that meet the range; an empty range takes one page |
| `Elf.Umalloc` | SBUnix/sys/virmm.c:478-506 | the loop maps a fresh zero frame at each of those pages, in the address space that global_PML4 names, and changes nothing else |
| `Elf.UmallocEditsTarget` | SBUnix/sys/virmm.c:498-503 | each page gets a frame that was free and zero in that address space, in place of any entry it had |
| `Elf.UmallocMissesIff` | SBUnix/sys/virmm.c:142-142 | the running process keeps all its entries if and only if global_PML4 names another one |
| `Elf.UmallocIsMapElse` | SBUnix/sys/virmm.c:498-503 | then the call is the step MapElse of the state machine |
| `Elf.EntryDecides` | SBUnix/sys/virmm.c:478-506 | each mapping of a page fills one fresh frame, writing to that frame later is the same as having mapped the new content, and the last mapping decides which frame the page has |
| `ElfLoad.StoreByte` | SBUnix/sys/elf.c:67-94 | a store goes through the cached translation if there is one, which may be that of a frame the page no longer has |
| `ElfLoad.CopyIn` | SBUnix/sys/elf.c:67-91 | after the copy each page's new frame holds exactly the bytes whose stores reached it |
| `ElfLoad.ClearBss` | SBUnix/sys/elf.c:93-94 | the same after memset |
| `ElfLoad.LoadSegment` | SBUnix/sys/elf.c:55-103 | one header, whatever the TLB holds when it starts and keeps meanwhile |
| `ElfLoad.LoadElf` | SBUnix/sys/elf.c:12-111 | the loop over the headers, pages shared or not, leaves the image that LoadedImage describes, sets the layout fields, and returns -1 if the file or a loadable header is missing |
| `Exec.LoadedByte` | SBUnix/sys/elf.c:53-105 | the last header to map a page decides every byte of it: its byte where the store reaches the page's frame, zero elsewhere |
| `Exec.ReachesIff` | SBUnix/sys/elf.c:63-94 | a store is lost if and only if the page was cached when its header's turn came and no earlier store of the header to the page let the translation go |
| `Exec.LostIfAllKept` | SBUnix/sys/elf.c:63-94 | on a TLB that drops nothing, a header's stores to a page are lost if and only if an earlier header has stored there |
| `Exec.SharedPageKeepsIff` | SBUnix/sys/elf.c:63-94 | on a page two headers share: exactly when the earlier one's byte survives, and exactly when the later one's does, for every behaviour of the TLB |
| `Exec.ImageIsTheFile` | SBUnix/sys/elf.c:53-105 | for any number of page-disjoint segments, at every address of a segment the program reads the file's byte, or zero past the file's part |
| `Exec.ImageCovers` | SBUnix/sys/elf.c:48-110 | exactly the pages covered by a loadable header are mapped |
| `Exec.OthersUndisturbed` | SBUnix/sys/elf.c:53-105 | entries of other processes and of pages no header covers, and the pages behind them, are unchanged |
| `Exec.ImagePagesAreWritable` | SBUnix/sys/virmm.c:499-503 | every page of the image is mapped writable, whatever its region allows |
| `Exec.LayoutIsLast` | SBUnix/sys/elf.c:58-86 | the code fields are the range of the last code segment; the data fields are the start of the last data segment, the end of its bytes in the file, and the length of its bss |
| `Exec.SegmentIsForked` | SBUnix/sys/process.c:134-166 | every page of the last code or data segment lies in a region that fork visits |
| `Exec.MapStack` | SBUnix/sys/process.c:308-321 | the stack page is written through a fresh translation, remapped under STACK_TOP, the scratch entry cleared, and the TLB left empty |
| `Exec.DoExecv` | SBUnix/sys/process.c:285-420 | the memory part of do_execv, arguments included, is the exec step of the state machine; on failure the old stack page and brk are already gone |
| `Exec.ExecIsEnabledIff` | SBUnix/sys/process.c:134-166 | the exec step meets the conditions of the transparency theorem if and only if it is allowed and finds its frames, the code region shares no page with the others, and what the old program had read-only lies in it |
| `Exec.NewProgramSees` | SBUnix/sys/process.c:287-424 | at each page the new program sees the last content its image has for it, or else what the old program saw |
| `Exec.OldMemoryZeroIff` | SBUnix/sys/process.c:287-424 | memory outside the image, the heap handed out later included, reads zero in the new program if and only if it read zero in the old one |
| `Exec.SetupVma` | SBUnix/sys/process.c:134-166 | the regions of the new program include a well-formed heap, so that every theorem about do_sbrk applies from there |
| `NewProgram.RegionsOfNewProgram` | SBUnix/sys/process.c:134-166 | an address lies in a region of the new program if and only if a segment has it, or it is in the first heap page, or in the 0x100 pages below 4 GB; and it is writable unless it is code |
| `NewProgram.StoreAfterExec` | SBUnix/sys/process.c:134-166 | after the exec step a store to the data, the heap page or any of those stack pages is granted after at most one fault |
| `NewProgram.StackIsForked` | SBUnix/sys/process.c:463-476 | fork by the new program visits all 0x100 pages of the stack |
| `NewProgram.ChildHasArguments` | SBUnix/sys/process.c:452-523 | at every mapped stack address, the arguments included, the child of the new program reads what its parent reads |
| `FileBacked.StepKeepsFiles` | SBUnix/sys/page_fault_handler.c:78-96 | every step keeps all pages of the code and data regions of every process mapped |
| `FileBacked.FilesNeverPageIn` | SBUnix/sys/page_fault_handler.c:78-96 | in every state reached no access to a code or data region faults as not present, so that the copy from the file is never reached |
| `FileBacked.BootFilesMapped` | SBUnix/sys/process.c:50-74 | the runs may start at boot |
| `FileBacked.ExecLays` | SBUnix/sys/elf.c:55-101 | do_execv maps the whole of both regions of a file that has a segment of each kind |
| `Exec.StackSurvivesIff` | SBUnix/sys/process.c:397-410 | the stack page keeps the frame with the arguments if and only if no loadable header covers it |
| `Exec.StartReadsArguments` | SBUnix/crt/crt1.s:5-9 | read through the new program's page tables, argc, argv and envp are those given to do_execv |
| `Heap.SbrkWithinMask` | SBUnix/sys/virmm.c:619-647 | without loss in the 32-bit mask: nonzero sizes below BRK_LIMIT extend the region by the rounded size, others change nothing |
| `Heap.SbrkIsHonestIff` | SBUnix/sys/virmm.c:619-647 | the call hands out size usable bytes if and only if 0 < size < BRK_LIMIT and the new break fits under 4 GB |
| `Heap.SilentSuccessIff` | SBUnix/sys/virmm.c:624-630 | success is reported with nothing handed out if and only if the rounded size is a multiple of 4 GB |
| `Heap.HeapGrows` | SBUnix/sys/virmm.c:619-647 | over a run brk is the start plus the rounded sizes and stays the end of the heap region |
| `Heap.HeapRangesAreGood` | SBUnix/sys/virmm.c:619-647 | over a run the ranges are page-aligned, follow one another without overlap, and every byte lies in the region in_vma finds |
| `Heap.GrowthIsClean` | SBUnix/sys/virmm.c:633-641 | such growth is an enabled step of the transparency theorem |
| `Scheduler.ScheduleKeepsWf` | SBUnix/sys/schedule.c:11-45 | schedule keeps the ring well formed and only the new current runs |
| `Scheduler.ScheduleRotates` | SBUnix/sys/schedule.c:11-45 | schedule turns the ring: every task keeps its fields and its neighbours, apart from the state of the preempted and of the dispatched one |
| `Scheduler.TimerSparesOthers` | SBUnix/sys/process.c:752-766 | a timer interrupt changes no field of a task that is not SLEEPING; of a sleeper it takes 5 ms modulo 2^64 off the remaining time, and makes it READY if and only if 5 ms were left |
| `Scheduler.TimerKeepsWf` | SBUnix/sys/process.c:752-766 | the ring stays well formed |
| `Handshake.ScheduleSame` | SBUnix/sys/schedule.c:11-45 | schedule neither loses nor invents a task |
| `Scheduler.AddKeepsWf` | SBUnix/sys/process.c:195-202 | add_task keeps the ring well formed |
| `Scheduler.AddsInOrder` | SBUnix/sys/process.c:195-202 | tasks added one after the other stand behind the old end in the order in which they came |
| `Scheduler.ForkedRunsNext` | SBUnix/sys/schedule.c:35-35 | schedule leaves end at the task it dispatches, so that what is forked before its next call runs next, the oldest first |
| `Scheduler.CleanKeepsWf` | SBUnix/sys/schedule.c:48-76 | clean_dead removes exactly the dead tasks other than current, and end still names the same task |
| `Scheduler.CleanKeepsOrder` | SBUnix/sys/schedule.c:48-76 | the tasks clean_dead keeps stay in ring order |
| `Scheduler.TickProgress` | SBUnix/sys/schedule.c:11-45 | each call of schedule dispatches a waiting task or brings it strictly nearer |
| `Scheduler.SweepProgress` | SBUnix/sys/schedule.c:48-76 | clean_dead never moves a waiting task away from current |
| `Scheduler.BoundedWaiting` | SBUnix/sys/schedule.c:11-45 | on a ring of N tasks a task that stays READY runs within N - 1 calls of schedule, plus one per add_task meanwhile, whatever timer interrupts come between |
| `Scheduler.InterruptProgress` | SBUnix/sys/process.c:752-766 | a timer interrupt leaves a waiting task waiting, as near as before |
| `Scheduler.PreemptedWaits` | SBUnix/sys/schedule.c:18-33 | a preempted task starts to wait wherever schedule goes |
| `Scheduler.IdleDetour` | SBUnix/sys/schedule.c:24-33 | if only the preempted task is runnable, idle runs once and the next call comes back to it |
| `RunQueue.Task.constructor` | SBUnix/sys/process.c:205-218 | a fresh task_struct |
| `RunQueue.Queue.constructor` | SBUnix/sys/process.c:219-226 | the first task becomes its own successor |
| `RunQueue.Queue.AddTask` | SBUnix/sys/process.c:195-202 | the pointer stores keep one simple cycle and have the effect of Add |
| `RunQueue.Queue.Schedule` | SBUnix/sys/schedule.c:11-45 | the traversal ends, keeps the cycle and has the effect of Schedule |
| `RunQueue.Queue.CleanDead` | SBUnix/sys/schedule.c:48-76 | the traversal ends and unlinks exactly the dead tasks behind current; end stays in the ring if and only if it was current or not dead |
| `RunQueue.Queue.FindTask` | SBUnix/sys/process.c:738-749 | once around the ring: the first task with that pid or none |
| `RunQueue.Queue.Exit` | SBUnix/sys/process.c:702-724 | exit in place has the effect of Exited followed by Schedule |
| `RunQueue.Queue.BeginWait` | SBUnix/sys/process.c:666-674 | blocks and reschedules unless the child was already reported |
| `RunQueue.Queue.Collect` | SBUnix/sys/process.c:675-686 | hands out the child's value and marks it dead |
| `RunQueue.Queue.Kill` | SBUnix/sys/process.c:688-700 | pids 0 and 1 are spared; otherwise the first task found becomes dead |
| `RunQueue.Queue.Sleep` | SBUnix/sys/process.c:726-730 | the running task sleeps for the 32-bit product and the ring is rescheduled |
| `RunQueue.Queue.SleepTimeDecrease` | SBUnix/sys/process.c:752-766 | every task of the ring sees one tick, once: the effect of TimerTicks |
| `Handshake.StepKeepsSynced` | SBUnix/sys/process.c:666-724 | every call permitted to the system, timer interrupts included, keeps the exit/wait invariant |
| `Handshake.InterruptPhases` | SBUnix/sys/process.c:752-766 | a timer interrupt changes nothing of what a blocked parent waits for |
| `Handshake.ExitSparesOthers` | SBUnix/sys/process.c:702-724 | exit changes the state and the value of the caller, tells the parent the pid, makes it READY if and only if it is BLOCKED, and leaves every other task as it is |
| `Handshake.WaitSparesOthers` | SBUnix/sys/process.c:666-700 | waitpid blocks the caller; collecting a child, or killing a task, makes the task with that pid DEAD and hands out its value; every other field of every task stays |
| `Handshake.ForkSyncs` | SBUnix/sys/process.c:526-556 | when the running parent's last child is collected, a fork begins the handshake with the next one |
| `Handshake.BootSynced` | SBUnix/sys/main.c:68-72 | the ring that main leaves is a start for init's first child |
| `Handshake.WaitMeetsExit` | SBUnix/sys/process.c:666-724 | for one child after another, in every reachable state and in both orders: after the exit the parent is not blocked; when it runs again inside waitpid the child is a zombie, its status is handed out and it becomes dead |
| `Handshake.InitMeetsEveryChild` | SBUnix/sys/process.c:666-724 | the same from boot, for every child init ever forks |
| `Handshake.AnyChildWakes` | SBUnix/sys/process.c:710-716 | any child's exit wakes a blocked parent; the child it waits for has ended if and only if it is the one that exited |
| `Timer.SleepSparesOthers` | SBUnix/sys/process.c:726-730 | sleep changes the state and the remaining time of the caller, to seconds * 1000 modulo 2^32, and nothing else |
| `Timer.RemainingTime` | SBUnix/sys/process.c:755-758 | while a task sleeps the remaining time is the start minus the elapsed time modulo 2^64 |
| `Timer.CountsDown` | SBUnix/sys/process.c:726-766 | for 1 to 4294967 seconds the remaining time stays a positive multiple of the period |
| `Timer.SleepIsAccurateIff` | SBUnix/sys/process.c:726-766 | over all 32-bit arguments the task wakes after exactly 200 interrupts a second if and only if 1 <= seconds <= 4294967 |
| `Pools.PoolsTile` | SBUnix/sys/virmm.c:99-109 | the seven pools lie end to end and fill 3200 pages: an address is in the page of some slot if and only if it lies there |
| `Pools.PagesAreDisjoint` | SBUnix/sys/virmm.c:101-109 | the pages of two slots, of one pool or of two, never overlap |
| `Pools.PointersCoincideIff` | SBUnix/sys/virmm.c:412-428 | two slots have one pointer only in the case of the last stack's top and the first mm_struct |
| `Pools.PointerGivesSlot` | SBUnix/sys/virmm.c:432-439 | kfree computes the page and the slot that kmalloc returned the pointer for |
| `Pools.ConservedCounts` | SBUnix/sys/process.c:606-649 | conservation in numbers: TASK and KSTACK slots equal the ring length, at most 128; MM and VMA slots equal the address spaces and regions of the ring |
| `Pools.SlotsAreDistinct` | SBUnix/sys/virmm.c:316-430 | two holders never share a slot |
| `KernelMemory.Kmem.Kmalloc` | SBUnix/sys/virmm.c:316-430 | the first free slot of the pool is taken, its page cleared and its pointer returned, or none if the pool is full or the flag unknown |
| `KernelMemory.Kmem.Kfree` | SBUnix/sys/virmm.c:432-468 | the page is cleared and exactly the slot of the pointer becomes free |
| `KernelMemory.OtherPagesKept` | SBUnix/sys/virmm.c:415-420 | clearing one slot's page leaves every other live page as it was |
| `KernelMemory.Kmem.CreateThread` | SBUnix/sys/process.c:205-230 | a TASK and a KSTACK slot more and a task more, or nothing if the ring has 128 |
| `KernelMemory.Kmem.SetTaskStruct` | SBUnix/sys/process.c:50-74 | an MM and four VMA slots for the running thread, which are always there |
| `Pools.KernelMapTables` | SBUnix/sys/virmm.c:216-235 | map_kernel needs 18 tables for the 8192 pages of the direct map: with its root every address space takes 19 |
| `Pools.ForkKeepsIff` | SBUnix/sys/process.c:526-556 | fork leaves slots taken that no task holds if and only if the ring has room and the page tables run out |
| `KernelMemory.Kmem.TakeTables` | SBUnix/sys/virmm.c:371-383 | the USERPT slots are taken one by one until there are enough or kmalloc fails |
| `KernelMemory.Kmem.DoFork` | SBUnix/sys/process.c:526-556 | the child gets its slots, its page tables and as many regions as its parent; the call succeeds if and only if the ring has fewer than 128 tasks and the page tables left suffice; with a full ring it takes nothing, without tables it loses what it took |
| `KernelMemory.Kmem.CleanDead` | SBUnix/sys/schedule.c:48-76 | every slot of every dead task behind current is freed, once, and the others stay accounted for |
| `KernelMemory.Kmem.DoPs` | SBUnix/sys/process.c:606-655 | the table of 128 entries is filled with the pids of the ring and never overrun |
| `Slots.StepKeepsOk` | SBUnix/sys/process.c:526-556 | creation, fork, umalloc, set_task_struct, schedule, exit, kill and clean_dead keep the run ring and the slots of its tasks together, unless kmalloc runs out of page tables |
| `Slots.SlotsAreConserved` | SBUnix/sys/virmm.c:316-468 | after every run the TASK and KSTACK slots in use equal the tasks in the ring, at most 128, the MM slots the address spaces, the VMA slots the regions |
| `Slots.ForkPanics` | SBUnix/sys/virmm.c:306-311 | a fork keeps ring and slots together if and only if kmalloc does not run out of page tables in the middle of it |
| `Slots.StepTakes` | SBUnix/sys/virmm.c:371-383 | no call gives a page table back: each takes what its mappings need |
| `Slots.FewChildren` | SBUnix/sys/process.c:452-457 | after every run nineteen times the number of children ever forked is at most the page tables left at its start, so that there are at most 67, reaped or not |
| `Slots.BootRunsConserve` | SBUnix/sys/main.c:61-72 | the same from boot |
| `MemoryFailures.CodeWriteLostByFork` | SBUnix/sys/process.c:505-508 | a reachable state in which a program may write its code page until it forks |
| `MemoryFailures.KernelStoreLeaks` | SBUnix/sys/page_fault_handler.c:129-149 | a reachable state in which a kernel store for the parent is seen by the child |
| `MemoryFailures.CountsDrift` | SBUnix/sys/elf.c:64-65 | a second exec over a page, and reaping a child, leave a count too high |
| `MemoryFailures.ParentsExecHitsChild` | SBUnix/sys/process.c:452-457 | after a fork the parent's exec is not the exec step: it takes the code page from the child, which then reads zero, and nothing changes for the parent |
| `MemoryFailures.OldHeapShows` | SBUnix/sys/process.c:287-424 | a byte the old program stored on its heap is on the heap of the new one |
| `RingFailures.EndIsLost` | SBUnix/sys/schedule.c:48-76 | after a fork and a kill of the new child, clean_dead loses end |
| `RingFailures.LiveChildCollected` | SBUnix/sys/process.c:666-686 | with two children alive, waitpid collects a running one |
| `RingFailures.SleepGoesWrong` | SBUnix/sys/process.c:726-730 | sleep(0) and sleep(4294968) wake at the wrong time |
| `CallFailures.NoEnvironment` | SBUnix/sys/process.c:358-375 | with argv {"a"} and no environment _start finds an environment pointer |
| `CallFailures.SharedPageLosesBytes` | SBUnix/sys/elf.c:63-94 | a byte of code and a byte of data on one page: both lost, or the first, as the TLB behaves |
| `CallFailures.SbrkGoesWrong` | SBUnix/sys/virmm.c:619-647 | sbrk of 4 GB gives nothing; at the last page below 4 GB sbrk moves the region's end to zero |
| `CallFailures.FailedExecLosesStack` | SBUnix/sys/process.c:297-321 | after a failed exec the stack page is the new one and brk is reset |
| `CallFailures.WindowNeedsWpClear` | SBUnix/sys/virmm.c:192-194 | with CR0.WP set an entry cannot be stored through the window |

## Left out

- CowKernel.Kernel.HandleMissing: the copy of lines 80-95 from a file is not modelled; `FileBacked.FilesNeverPageIn` shows for runs whose execs have a segment of each kind that it is not reached.
- CowKernel.Kernel.PageFault: the same branch, and `search_exception_table`, which returns 0 for every address, so that the lines under it never run.
- Elf.Umalloc: the process that `global_PML4` names is alive; the step `MapElse` covers a reaped one as well.
- ElfLoad.LoadElf: for the process that `global_PML4` names; in an exec of another one the stores of memcpy and memset go to the caller's old pages and are taken as stores of the program.
- ExecStack.BuildStack: the strings are values and the caller's rewritten pointer arrays are results; where the arrays lie in the caller's memory is not expressed.
- Exec.MapStack: the bytes of the stack page, built as an array by `ExecStack.BuildStack`, reach the frame in one step.
- ElfLoad.CopyIn: a loop of single stores by virtual address, which `Memcpy.Memcpy` proves equal to the word copy on one flat array; a word that straddles no page stores the same bytes.
- KernelMemory.Kmem.DoFork: how many page tables the copied pages need beyond the 19 of every address space is a parameter; FILE slots are not counted.
- Slots.SlotsAreConserved: runs end where page tables run out, for `kmalloc_error` halts the machine there; a full TASK pool leaves everything as it was.
- Frame numbers: `allocate_page_user` adds `page_index` and `get_page_frame_descriptor` subtracts it; the model names frames by descriptor index.
- Integer width of `ref_count` and of umalloc's page counter: neither can overflow in the memory the machine has.
- Frame exhaustion: `allocate_page_user` then returns frame 0.
- Large pages, the NX bit, accessed and dirty bits: the kernel uses none of them.
- `map_kernel`: a loop of `map_virmem_to_phymem` calls over the kernel's pages, each of them a `Map` edit of `WordRuns` at a kernel address; the loop itself is not modelled.
- ELF header parsing: `load_elf` is given the file's bytes and its program headers; `tarfs_open` is a parameter that may fail.
- `pid_list`: `assign_pid` returns -1 after 128 pids, which are never reused; the ring model requires fresh pids.
- Register save and restore, the stack switch in `context_switch`, sysret, interrupt set-up: a switch is the choice of the next task and a cr3 load.
- Preemption inside the kernel: system calls run with interrupts off, so each call is one step.
- The trigger for `schedule` in the timer interrupt (SBUnix/sys/timer.c:63-80): any sequence of ticks and calls is allowed.
- Killed or exiting process in the middle of a copy-on-write run: `do_kill` and `do_exit` change task states, which is in the ring model; the memory model has the reaping that follows.
- The console, keyboard, terminal, `tarfs`, `printf`, libc wrappers, the shell and the user programs.
- `phy_free`, `set_free`, `find_free_pages`: no code of the kernel calls them.
