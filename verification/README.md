# A verified model of the JOS kernel

This project models the core of the JOS teaching kernel with its lab solutions: physical pages, two-level page tables and
environments kept in one memory, the system calls on them, the multi-CPU run protocol, IPC, `fork_v0`, and three
stand-alone algorithms. `dafny verify dfyconfig.toml` checks the whole project.

## How the model is built

**The kernel.** `Pmap.Kernel` is a class with the kernel's own variables: `pages[]` with `pp_link` and a 16-bit `pp_ref`,
`page_free_list`, physical memory as pages of 1024 words, `envs[]`, `env_free_list`, the CPUs with place, `cpu_env` and
cr3, and the big lock. Directories, tables and data all live in the same memory. Methods change these fields in place,
statement by statement as the source does. Ghost fields hold what the specification talks about: the free list spelled out
by the links, the reference graph, how often each slot of `envs[]` was allocated, the TLB of each CPU, what has happened to
each environment as a receiver of messages, all successful sends in order, and what has happened to each CPU in the
scheduler.

**The reference graph** (`Graph`, `Tables`) lists every counted reference: an environment's directory, a user-half
directory entry, a page entry, a kernel-half entry of `kern_pgdir`. `Tables.Match` says that it is what a walk of memory
finds; `PageState.CountInv` says that every `pp_ref` is the boot pin plus the number of references, and that the free list
is exactly the unpinned pages other than page 0 with count 0. `Steps.Inv` is both together. While kernel code holds pages
that it has allocated or counted but not yet stored, the invariant names them (`PageState.Held`).

**The flat view** (`AddressSpace`) is each environment's user half as a map from page number to (physical page,
permissions). System calls are specified by what they do to these maps. `Effects.Did` says what each call that returns
promises its caller in ids, addresses, bits and error numbers alone, and `Effects.AnsweredDid` that it holds of what the
kernel does. Above UTOP, `KernelView` shows that every environment sees what kern_pgdir maps, and that no step changes it.

**Runs.** `System.Step` is one step of one CPU: a trap or timer interrupt; taking the lock, saving registers and
collecting a zombie; serving the trap; leaving the kernel; a user-mode store; or the hardware caching or forgetting a
translation. `System.RunSystem` takes an arbitrary script of such steps for any number of CPUs, so what it keeps holds after
every step of every interleaving. An environment that no step of a run meddles with keeps its map and the contents of the
pages that only it can write (`System.Isolates`); besides itself only its parent can meddle, and a sender while it waits for
a page (`Traps.OnlyParentReaches`). Between two steps each environment's status, registers, request and last message change
only as the step is for (`System.Moved`), and a CPU that leaves the kernel goes on as its trap asks (`System.GoesOn`).
`BootTime.BootSystem` reaches a first state from power-on. `Run.SystemInv` is the invariant: pages and tables agree,
`envs[]` and its free list agree, each CPU runs what it should on the directory it should, what an environment has received
is what was sent to it, each CPU scans from where it has picked, and on a uniprocessor the TLB agrees with the tables.
`IpcLib` runs the library programs `ipc_send` and `ipc_recv` of one environment inside such runs: each system call that the
script has this environment make is the program's next one, and everything else happens in between.

**Admitted runs.** Three things are left out of runs, each exactly where an invariant would break.

- `sys_env_set_status` on an environment that another CPU runs, or making RUNNABLE one that waits in `sys_ipc_recv`: it
  keeps the run invariant if and only if neither is the case (`RunState.StatusKeepsExactly`).
- `env_destroy` on an environment that is already `ENV_DYING` on another CPU: it keeps the run invariant if and only if the
  target is not a zombie (`RunState.DestroyKeepsExactly`); freeing a zombie puts the directory that its CPU has in cr3 on
  the free list (`Traps.ZombieFreedUnderItsCpu`).
- a call that counts up a page whose 16-bit count is 65535, and does not count it down again because it replaces that very
  page: storing a page keeps the counts exact if and only if its count is below that or it is mapped there already
  (`Pmap.ReplaceKeepsExactly`). Only the page that the call counts up matters; `Traps.MapCountsUp`, `Traps.SendCountsUp`
  and `Traps.ForkCountsUp` say which one that is. Every other call is admitted.

A panic, the monitor, or a store through a null pointer ends the run. `System.Ends` says exactly which steps do: the call
that makes `page_insert` store through null, the fork that finds one free page, the string whose check panics, and the step
after which nothing can run; no other. User-mode stores go through the tables; on a
uniprocessor a store through any cached translation is the same (`Traps.CachedIsMapped`), for several CPUs runs assume that
no store goes through a stale translation, which the kernel does not flush on other CPUs.

## Where the code departs from its comments

The model follows the code. Each departure has a lemma that gives the exact condition, and one that gives inputs or states
where the code and the comment differ.

- `sys_page_map` tests whether the source page has a table, not whether it is mapped. A read-only request for an unmapped
  page next to a mapped one reaches `page_insert(NULL)` (`Syscall.PageMapMeetsItsComment`); every environment that
  `env_alloc` has just made can ask for one (`Syscall.NewEnvCanMapNull`).
- `sys_ipc_try_send` has the same gap, accepts a permission with only one of `PTE_U` and `PTE_P`, and checks nothing about
  the page when the receiver wants none (`Syscall.TrySendMeetsItsComment`, `Syscall.NewEnvCanSlipThrough`).
- `env_alloc` promises `-E_NO_MEM`; with exactly one free page it panics (`EnvOps.AllocMeetsItsComment`). Allocating
  environments until it fails ends so whenever the number of free pages was odd (`EnvTheorems.AllocUntilRefused`).
- `user_mem_check` also rejects ranges that end at `ULIM`, and empty ranges at or above it, and panics where an entry names
  a page that does not exist; the result of its `ROUNDUP` is discarded, so it goes byte by byte
  (`UserMem.CheckAgainstItsComment`, `UserMem.RefusedAgainstItsComment`, `UserMem.LargeWindowPanics`,
  `UserMem.PageWalkAgrees`). Below UTOP it never panics (`UserMem.UserRangesNeverPanic`).
- `stab_binsearch` reports a miss through left > right only when the range has no entry of the type
  (`StabSearch.MissReported`, `StabSearch.MissUnreported`). With ordered values it ends at the region that contains the
  address unless a plain binary search finds an entry at the address while one at the next address is still in its range
  (`StabSearch.BracketsExactly`, `StabSearch.NextEntryFound`); where every address up to the last one is an entry's, it may
  run over the last one (`StabSearch.LastAddressMissed`).
- `mmio_map_region` sees that a reservation overflows MMIOLIM only if the reservation ends below 2^32
  (`KernelMap.OverflowSeenExactly`, `KernelMap.OverflowUnseen`).
- `fork_v0` copies its stack page once more at the end, so the child's stack page is always a page of its own with
  permission P, U, W; it follows the rule of the other pages exactly if the parent's permission was that
  (`Fork.ForkV0`, `Fork.StackPageException`).

## Model

| member | source | states |
|---|---|---|
| PageState.PopKeeps | jos/kern/pmap.c:347-355 | Taking the first free page keeps counts and free list exact; the page has count 0, is pinned by nobody and referred to by nobody |
| PageState.UnlinkKeeps | jos/kern/pmap.c:378-383 | Dropping any reference and counting it down keeps every count equal to pin plus references, and frees the page exactly with its last reference |
| PageState.LinkKeeps | jos/kern/pmap.c:499-509 | Storing a reference that was counted ahead keeps every count exact |
| PageState.IncrementKeepsExactly | jos/inc/memlayout.h:190 | Counting a page up keeps all counts exact if and only if its 16-bit count was not 65535 |
| Tables.PteWriteKeeps | jos/kern/pmap.c:507 | Storing a present word in an empty page entry adds exactly that entry to what walks of memory find |
| Tables.PteClearKeeps | jos/kern/pmap.c:548-557 | Clearing a page entry removes exactly that entry from what walks of memory find |
| Tables.PdeWriteKeeps | jos/kern/pmap.c:416-421 | Hanging a zeroed page into a directory adds an empty table and changes nothing else any walk finds |
| Tables.DirAddKeeps | jos/kern/env.c:190-198 | A copy of kern_pgdir whose UVPT entry maps itself is a directory with an empty user half |
| Tables.MatchUnique | jos/kern/pmap.c:407-422 | Memory and the env_pgdir fields determine the reference graph: no second graph with the same directories agrees with them |
| Steps.StepStore | jos/kern/pmap.c:507 | Storing the word of a page counted ahead keeps counts, free list, graph and memory in agreement |
| Steps.StepRemove | jos/kern/pmap.c:554-555 | Counting the page down, freeing it at zero and clearing its entry keeps counts, free list, graph and memory in agreement |
| Steps.StepDropTable | jos/kern/env.c:463-465 | An emptied table has count 1 and goes back to the free list when its entry is cleared |
| Steps.StepDropDir | jos/kern/env.c:468-471 | An emptied directory has count 1 and goes back to the free list when the environment forgets it |
| Steps.SoleReference | jos/kern/pmap.c:407-422 | Every table and directory has count 1 |
| Pmap.Kernel.PageAlloc | jos/kern/pmap.c:347-355 | Takes the head of the free list, clears its link, zeroes it on request, reports an empty list; the invariant holds with the page in hand, and the TLB still agrees |
| Pmap.Kernel.PageFree | jos/kern/pmap.c:361-372 | Puts a page with count 0 and no link at the head of the list; the two panics are the preconditions |
| Pmap.Kernel.PageDecref | jos/kern/pmap.c:378-383 | Counts down, and puts the page at the head of the list exactly when the count reaches 0 |
| Pmap.Kernel.PgdirWalk | jos/kern/pmap.c:407-415 | Without create: the place of the entry if the table is present, else nothing |
| Pmap.Kernel.PgdirWalkCreate | jos/kern/pmap.c:407-422 | With create: a missing table is the first free page, zeroed, counted once and hung in with P, U, W; nothing changes when memory has run out; every translation in use stays as it was |
| Pmap.Kernel.PageLookup | jos/kern/pmap.c:522-531 | The page mapped at an address and the place of its entry, or nothing |
| Pmap.Kernel.WalkFollowsGraph | jos/kern/pmap.c:407-422 | What a walk of an environment's directory finds is what the graph holds, and absent entries are 0 |
| Pmap.Kernel.PageRemove | jos/kern/pmap.c:548-557 | Removes exactly the entry at an address, counts its page down, frees it with its last reference; does nothing where nothing is mapped; brings a count that has just gone over from 65535 to 0 back; the TLB agrees afterwards whatever the hardware caches meanwhile |
| Pmap.Kernel.PageInsert | jos/kern/pmap.c:499-509 | Maps a page, replacing what was there (which may be the same page, with any count), making the table if needed; fails without any change exactly when a table is needed and memory has run out; the TLB agrees afterwards |
| Pmap.ReplaceKeepsExactly | jos/kern/pmap.c:505-507 | Counting a page up, removing what was mapped and storing it keeps every count exact if and only if the count was not 65535 or the page was mapped there already |
| Pmap.Kernel.TlbInvalidate | jos/kern/pmap.c:563-569 | Flushes the page exactly when the CPU has no environment or the directory is its environment's |
| Pmap.Kernel.Lcr3 | jos/kern/env.c:440-441 | Loads cr3 and empties that CPU's TLB |
| Pmap.Kernel.Cache | jos/kern/pmap.c:559-569 | The hardware may cache what a walk of memory finds at any moment; the TLB agrees afterwards |
| Pmap.RemovalKeepsCoherence | jos/kern/pmap.c:554-569 | Clearing an entry and flushing it only if the directory may be in cr3 leaves no stale translation, with hardware fills allowed before, between and after |
| Pmap.ClearingKeepsCoherence | jos/kern/env.c:440-464 | Clearing directory entries needs no flush because env_free has left the directory first |
| Tlb.TableWriteSeen | jos/kern/pmap.c:563-569 | A write to a user table is seen at one page of one directory, and by no translation if the entry was absent |
| Tlb.DirectoryWriteSeen | jos/kern/pmap.c:416-421 | A write to a directory entry is seen from that directory only, and changes no translation if the entry was absent, the UVPT window included |
| Tlb.DataWriteUnseen | jos/kern/pmap.c:353 | A write to a page that is no table changes no translation of any directory |
| Tlb.UnflushedGoesStale | jos/kern/pmap.c:563-569 | Where a translation changes and is not flushed, some buffer that agreed does so no longer; hence the restriction to one CPU |
| AddressSpace.LookupReads | jos/kern/pmap.c:522-531 | A lookup is a read of the flat map |
| AddressSpace.InsertUpdates | jos/kern/pmap.c:499-509 | An insertion is an update of one page of one environment's flat map |
| AddressSpace.RemoveDeletes | jos/kern/pmap.c:548-557 | A removal deletes one page of one environment's flat map |
| AddressSpace.WalkIsFlat | jos/kern/pmap.c:407-422 | The hardware's two-level walk of memory from an environment's directory is exactly its flat map |
| UserMem.UserMemCheck | jos/kern/pmap.c:634-663 | A va at or above ULIM, and a range that wraps or reaches ULIM, is refused with that address or ULIM; otherwise the first byte that is not mapped with all bits of perm, or at which page_lookup panics, decides, and without one the result is 0 |
| UserMem.PageWalkAgrees | jos/kern/pmap.c:651-661 | The byte-by-byte walk agrees with one that looks at one byte of every page touched |
| UserMem.CheckAgainstItsComment | jos/kern/pmap.c:624-647 | The check allows what its comment allows except ranges ending at ULIM, empty ranges at or above it, and ranges where page_lookup panics |
| UserMem.RefusedAgainstItsComment | jos/kern/pmap.c:642-647 | In every state with a kernel window of 4 KB pages each environment has a range of either kind that the comment allows and the check refuses |
| UserMem.LargeWindowPanics | jos/kern/pmap.h:78-83 | With a kernel window of 4 MB pages that reaches beyond memory, the lookup of the last byte below ULIM panics |
| UserMem.UserRangesNeverPanic | jos/kern/pmap.c:651-661 | In every state with the invariant the check of a range below UTOP does not panic |
| BootTime.PageInit | jos/kern/pmap.c:296-333 | Afterwards counts, free list and tables agree: a page is free exactly if it is not page 0 or 7 and lies below page 0xA0 or behind the kernel, and counted once otherwise unless it is page 0; the list is highest first |
| BootMap.BootMapRegion | jos/kern/pmap.c:436-473 | Both variants map exactly the region to consecutive physical pages with the effective permissions asked for, change no other translation outside the UVPT window, no directory entry the region does not touch and no count of a page in use; they succeed when va, pa and size are aligned and as many pages are free as tables needed, and end even where va wraps at 2^32; a region made of 4 MB pages takes no table in the large-page variant |
| BootMap.MapPage | jos/kern/pmap.c:445-453 | One round with a 4 KB page changes one translation |
| BootMap.MapLargePage | jos/kern/pmap.c:456-461 | One round with a 4 MB page changes 1024 translations and keeps the page invariant |
| BootMap.KernelStoreMaps | jos/kern/pmap.c:448 | Storing in a kernel table changes the translation of one page of kern_pgdir |
| BootMap.LargePageMaps | jos/kern/pmap.c:457 | A 4 MB entry in an empty place translates the 1024 pages it covers to consecutive pages and keeps the page invariant |
| BootMap.SmallRound | jos/kern/pmap.c:446-453 | A 4 KB round extends what has been mapped so far, and needs a new table only at the start of a directory entry |
| BootMap.RunBothVariants | jos/kern/pmap.c:445-472 | Run on two machines with the same memory, the variants leave the same translation of every page outside the UVPT window |
| BootMap.CheckVa2pa | jos/kern/pmap.c:906-920 | Returns the physical address the hardware's walk gives for a page, through a table or a 4 MB page, or none |
| EnvId.IdClosedForm | jos/kern/env.c:231-235 | The k-th id of slot i is 4096 * ((k-1) mod (2^19-1) + 1) + i in 32-bit arithmetic: always positive, and ENVX gives the slot |
| EnvId.IdRepeats | jos/kern/env.c:231-235 | Two allocations of a slot get the same id exactly when they are a multiple of 2^19-1 allocations apart |
| EnvState.LiveIds | jos/inc/env.h:20-30 | Ids of live environments are positive, name their slot and are distinct |
| Syscall.Envid2Env | jos/kern/env.c:72-107 | 0 is the caller; any other id must be the current id of its slot, and with checkperm the caller's or its child's; whom it accepts is Syscall.AcceptedExactly |
| Syscall.ResolveFindsTheHolder | jos/kern/env.c:83-92 | A nonzero id is accepted exactly for the live environment that has it |
| Syscall.AcceptedExactly | jos/kern/env.c:95-103 | With checkperm a nonzero id is accepted if and only if a live environment has it and that is the caller or a child of the caller; 0, and the caller's own id, are always the caller |
| Syscall.PermIsMask | jos/kern/syscall.c:186-196 | The permissions accepted are the words with PTE_U and PTE_P set and no bit outside 0xE07 |
| Layout.FlagsAreBits | jos/inc/mmu.h:58-76 | The model's flags are compared as the words are: nothing outside PTE_SYSCALL means no bit of 0x1F8, and including a permission means `(f & want) == want` |
| Syscall.StaleIdsRejected | jos/kern/env.c:83-92 | An id from an earlier allocation is accepted exactly when the slot is live and has been allocated a multiple of 2^19-1 times since |
| BootTime.EnvInit | jos/kern/env.c:115-132 | All slots are free and the list runs through them in order, slot 0 first |
| EnvOps.ScreenIsData | jos/kern/pmap.c:325-327 | In every state the page of the screen, pinned at boot, is neither free nor a table |
| EnvOps.EnvSetupVm | jos/kern/env.c:165-207 | Takes two pages for directory and table and counts the screen once more; without pages it fails and changes nothing, with one page it panics |
| EnvOps.EnvAlloc | jos/kern/env.c:217-280 | Takes the first free slot and two pages; the new environment is RUNNABLE, has the parent asked for, the next id of the slot, no runs, 0 in eax, and waits for nothing; failures change nothing |
| EnvOps.AllocMeetsItsComment | jos/kern/env.c:212-215 | The documented outcome holds except with exactly one free page |
| EnvTheorems.AllocUntilRefused | jos/kern/env.c:217-280 | Allocating environments until env_alloc fails ends, unless the slots run out first, in a panic exactly if the number of free pages was odd, else with -E_NO_MEM |
| EnvOps.ClearPte | jos/kern/env.c:459-460 | One round of the inner loop clears one page entry and nothing else |
| EnvOps.FreeTable | jos/kern/env.c:448-466 | All pages of a table are unmapped, then the table is given back; no data page is written |
| EnvOps.FreeUserHalf | jos/kern/env.c:446-466 | All mappings and tables of the environment are gone, everybody else's remain, and pages were only pushed on the free list |
| EnvOps.FreeDirectory | jos/kern/env.c:468-471 | The directory goes to the head of the free list, and only when no CPU has it loaded |
| EnvOps.EnvFree | jos/kern/env.c:430-477 | Exactly the environment's references are gone, its slot heads the free list, its directory heads the page list, no data page changed, and the CPU running it is on kern_pgdir |
| EnvTheorems.FreeReturnsWhatWasHeld | jos/kern/env.c:430-477 | Each count drops by the environment's own references to the page; exactly the pages nobody else refers to become free |
| EnvTheorems.AllocThenFree | jos/kern/env.c:217-280 | env_alloc followed directly by env_free restores every count and link and both free lists in the same order |
| KernelMap.MapWindows | jos/kern/pmap.c:191-222 | After the calls of boot_map_region one after another, in either variant, kern_pgdir translates every page outside the UVPT window as the last window covering it says, and no other; it succeeds with aligned windows and enough free pages |
| KernelMap.KernelWindowsFit | jos/kern/pmap.c:191-281 | The calls of mem_init and mem_init_mp lie above UTOP and off the UVPT entry, and where one uses 4 MB pages no other touches its directory entries |
| KernelMap.KernelLayout | jos/inc/memlayout.h:20-60 | The result is the layout documented: physical memory at KERNBASE and the CPUs' stacks for the kernel only, pages[] and envs[] read-only for the user, nothing else, so no page in a stack gap |
| KernelMap.KernelAddresses | jos/inc/memlayout.h:20-115 | The same by address, over every page: memory from 0xF0000000 on, eight stacks of eight pages below it with eight unmapped pages under each, pages[] at 0xEF000000, the 31 pages of envs[] at 0xEEC00000, and nothing else |
| KernelMap.MmioMapRegion | jos/kern/pmap.c:577-612 | Maps the rounded reservation at base, uncached, and moves base past it; panics if that overflows MMIOLIM; succeeds for an aligned address with a free page |
| KernelMap.OverflowSeenExactly | jos/kern/pmap.c:596-607 | The overflow promised to be refused is seen if and only if the reservation ends below 2^32 |
| KernelMap.OverflowUnseen | jos/kern/pmap.c:604-607 | From MMIOBASE no reservation of 2^32 - MMIOBASE bytes or more is refused |
| BootTime.LapicInit | jos/kern/lapic.c:55-63 | The local APIC's page is mapped at MMIOBASE on top of the kernel's windows, and costs a table |
| BootTime.LapicAddress | jos/kern/lapic.c:61-63 | That page is the one at 0xEF800000, for the kernel only, written through and not cached, and the only one that changes |
| BootTime.FreeBelowClosed | jos/kern/pmap.c:296-333 | page_init leaves 158 free pages below the I/O hole and all the memory after the kernel |
| BootTime.MemInit | jos/kern/pmap.c:126-281 | From cleared memory through page_init and the kernel's mappings: the invariant holds, kern_pgdir maps the kernel's windows, and it does not panic if the arrays are aligned and the tables fit |
| BootTime.RegionAlloc | jos/kern/env.c:289-320 | Every page touched by the range gets a page of its own with P, U, W; all other mappings of all environments stay; with enough free pages it panics exactly if the rounded end wraps below the start |
| BootTime.LoadIcode | jos/kern/env.c:377-406 | Every segment and the stack page are mapped with P, U, W; other environments see no change, and no translation of kern_pgdir changes; it does not panic if as many pages are free as the segments and the stack need |
| BootTime.EnvCreate | jos/kern/env.c:416-425 | The first free slot is a new runnable environment without a parent, at its entry point, with its segments and the stack page 0xEEBFD mapped, and no other slot changes; the boot CPU is back on kern_pgdir with the whole invariant; it does not panic if a slot and enough pages are free |
| BootTime.BootSystem | jos/kern/init.c:21-90 | From power-on through mem_init, env_init, lapic_init and env_create to the scheduler: the first state of a run satisfies the whole invariant; CPU 0 runs the first program, which has id 0x1000, and the others are RUNNABLE with the ids after it, without parents and at their entry points; kern_pgdir has the kernel's windows and the device's page; boot succeeds if there are programs, no more than slots, and memory after the kernel for its tables and for them |
| KernelView.SeesKernel | jos/kern/env.c:190-198 | In every state with the invariant every environment's directory translates the pages above UTOP as kern_pgdir does, except that at UVPT it shows its own entries, read-only |
| KernelView.KernelStays | jos/kern/env.c:190-191 | What keeps the words of kern_pgdir and of the kernel's tables keeps every translation of kern_pgdir |
| BootTime.LayoutEverywhere | jos/inc/memlayout.h:20-115 | Together: in every state of every run after boot, every environment has the kernel's address space exactly where the windows of boot put it |
| Syscall.InsertPage | jos/kern/pmap.c:499-509 | page_insert as system calls use it: one page of one flat map changes and no mapped page's contents do |
| Syscall.SysPageAlloc | jos/kern/syscall.c:169-216 | Return code check by check; on success a zeroed page nobody else has is mapped, on failure nothing changed |
| Syscall.SysPageMap | jos/kern/syscall.c:234-294 | Return code check by check; on success the source's page is mapped at the destination and nothing else changes |
| Syscall.PageMapMeetsItsComment | jos/kern/syscall.c:224-283 | The comment holds except for a read-only request for an unmapped page whose table exists |
| Syscall.NewEnvCanMapNull | jos/kern/syscall.c:260-283 | Every environment just made by env_alloc has such a request: sharing its page UTEMP reaches page_insert(NULL) where the comment promises -E_INVAL |
| Syscall.SysPageUnmap | jos/kern/syscall.c:303-324 | Return code; on success exactly that page is gone from that environment's flat map |
| Syscall.SysExofork | jos/kern/syscall.c:80-103 | A child that waits, has the caller's registers with 0 in eax, and sees the screen only; its id is returned |
| Syscall.SysEnvSetStatus | jos/kern/syscall.c:112-136 | Return code; on success exactly the status changes |
| Syscall.SysIpcTrySend | jos/kern/syscall.c:364-411 | Return code check by check; a failed send changes nothing but env_ipc_perm of a waiting receiver; a successful one wakes the receiver with value, sender and perhaps the page |
| Syscall.TrySendMeetsItsComment | jos/kern/syscall.c:349-403 | With a waiting target and srcva below UTOP, code and comment differ exactly if the target wants no page and the comment refuses the arguments, or it wants one and srcva is aligned, its table exists, perm asks for nothing it may not, and only one of U and P is set or nothing is mapped |
| Syscall.NewEnvCanSlipThrough | jos/kern/syscall.c:386-399 | Every environment just made by env_alloc has arguments of each of these kinds |
| Ipc.ExactlyOnceInOrder | jos/kern/syscall.c:364-411 | The messages received are the messages sent, once each and in order, up to one not seen yet |
| Ipc.OneSendPerReceive | jos/kern/syscall.c:378-410 | Between two successful sends to an environment its receive has returned and it has asked again |
| Run.ReceivedIsSent | jos/kern/syscall.c:479-492 | In every reachable state the messages an environment has received are those sent to it, up to one not seen yet; those are the successful sends addressed to it since it was allocated; and it is receiving exactly while it waits |
| Traps.SysIpcRecv | jos/kern/syscall.c:479-492 | A misaligned address is refused with no change; otherwise the caller asks: it is NOT_RUNNABLE and receiving, with the argument in env_ipc_dstva, and stays so, and the CPU goes on from it with the next RUNNABLE environment or halts |
| Traps.TrySend | jos/kern/syscall.c:364-411 | A successful send is exactly one more delivery, from the caller to the target, and one more event of the target; a failed one is neither; the call ends the run exactly if page_insert is given no page |
| Traps.FieldsHoldLastMessage | jos/lib/ipc.c:36-39 | Whenever an environment that has received runs, its fields hold the message received last |
| IpcLib.IpcSend | jos/lib/ipc.c:50-64 | In every run the program calls sys_ipc_try_send and sys_yield in turn and returns after exactly one delivery of this environment, the message asked for, which is then the last event of the environment with id to_env; when it panics the call has returned another error than -E_IPC_NOT_RECV, and then, as while it retries, it has delivered nothing; the run ends before that exactly if a step that ends runs was taken, and without a page to send that was not its own |
| IpcLib.IpcRecv | jos/lib/ipc.c:22-40 | In every run: if the call returns an error, that is -E_INVAL, the stores are 0 and nothing was received; otherwise, when the environment runs again, 0 is in its eax, exactly one message was sent to it and received, and the value returned and the stores are what one sys_ipc_try_send of that run has passed; if that passed a page and pg is an address for one, the sender's page is at pg then, with the permission stored; while the environment waits, its env_ipc_dstva is pg; the run ends before that exactly if a step that ends runs was taken, its own only if nothing else could run |
| IpcLib.StepOf | jos/lib/ipc.c:56-58 | One step of a run delivers one message in the name of an environment if it is that environment's sys_ipc_try_send returning 0, and else none |
| IpcLib.PlainSendGoesOn | jos/lib/ipc.c:56-58 | A program of ipc_send without a page never ends the run by its own calls |
| IpcLib.LastReceiver | jos/kern/sched.c:68-84 | A program of ipc_recv ends the run by its own call only where nothing else can run |
| Fork.DupOrShare | jos/lib/fork.c:80-131 | The child gets the caller's own page exactly if perm has no PTE_W or has PTE_MAPPED, else a page nobody maps; in both cases with the caller's contents |
| Fork.ForkV0 | jos/lib/fork.c:133-167 | The whole invariant of runs holds afterwards; the parent's map and pages are unchanged; the child has a page exactly where the parent has one, with equal PTE_SYSCALL bits and contents, and it is the same page if and only if the parent's is read-only or PTE_MAPPED, so the screen stays the screen; its stack page is its own; the child is runnable; the fork succeeds with a free slot, pages that are all PTE_U, two free pages for each and five more, and room in the counts |
| Fork.ForkedMeans | jos/lib/fork.c:105-161 | What the child sees, bit by bit, page by page, against what the parent saw |
| Fork.CopyPages | jos/lib/fork.c:149-158 | The loop over all pages below UTOP copies each one and disturbs none copied before |
| Fork.ProgressStep | jos/lib/fork.c:150-158 | Copying one more page keeps all copies made before and everything the parent has |
| Fork.UtempIsTransparent | jos/lib/fork.c:121-130 | Mapping the child's page at UTEMP, copying and unmapping leaves all maps as they were and one page changed |
| Fork.StackPageException | jos/lib/fork.c:160-161 | The child's stack page follows the rule of the other pages exactly if the parent's permission there was P, U, W and nothing else |
| Fork.OnlyMappedPagesStayShared | jos/lib/fork.c:108-113 | After a fork a page writable in both environments is PTE_MAPPED in the child |
| WriteOnce.RemapHandsOn | jos/kern/syscall.c:283-288 | Changing one entry gives write permission only to the screen, a free page, or a page somebody could write |
| Traps.ServedHandsOn | jos/kern/syscall.c:495-533 | No system call makes a page in use writable that nobody could write before |
| Sched.PickFromNearest | jos/kern/sched.c:46-53 | The circular scan finds the RUNNABLE slot nearest after the CPU's own |
| Sched.PickFromFirst | jos/kern/sched.c:46-53 | Slot by slot in the order (own + i) mod NENV, no slot before the one found is RUNNABLE |
| Sched.PickNoneExactly | jos/kern/sched.c:46-53 | The scan finds nothing exactly when no environment is RUNNABLE |
| Sched.PickApproaches | jos/kern/sched.c:46-53 | Picking another environment strictly decreases the circular distance to one that stays RUNNABLE |
| Sched.PickedWithinBound | jos/kern/sched.c:46-53 | Where each scan starts at the slot picked before, an environment RUNNABLE at every scan is picked within as many scans as its distance from the first start, at most NENV |
| Sched.RestartingStarves | jos/kern/env.c:497-500 | Without that there is no bound: scans that restart at slot 0 and find it RUNNABLE never pick another environment |
| Sched.ScanAfterLoss | jos/kern/env.c:497-500 | The scan of a CPU whose environment was destroyed starts at slot 0 |
| Sched.PickedInTurn | jos/kern/sched.c:45-61 | From the record of a CPU's turns: if its environment was not destroyed during NENV scans, each has started where the one before had picked, and an environment RUNNABLE at all of them was picked |
| Run.RunnableIsPicked | jos/kern/sched.c:11-63 | In every reachable state that record is kept for every CPU, so the bound holds of every run in which the CPU's environment is not destroyed in between |
| RunState.RunningMeansCurrent | jos/kern/env.c:559-563 | While no CPU is inside the kernel, an environment is RUNNING or DYING exactly when it is cpu_env of a CPU, and of one only |
| RunState.RunKeeps | jos/kern/env.c:560-565 | env_run keeps the run invariant |
| RunState.HaltKeeps | jos/kern/sched.c:87-97 | sched_halt keeps the run invariant |
| RunState.StatusKeepsExactly | jos/kern/syscall.c:112-136 | Setting a status keeps the run invariant if and only if no other CPU runs the target and a waiting receiver is not made RUNNABLE |
| RunState.DestroyKeepsExactly | jos/kern/env.c:484-501 | env_destroy keeps the run invariant if and only if its target is not already DYING |
| RunState.FreeCurrentKeeps | jos/kern/env.c:495-499 | Freeing the current environment keeps the run invariant |
| Run.LoadedDirectoryIsNeverFree | jos/kern/env.c:437-441 | In every reachable state the directory in any CPU's cr3 is not free: it is kern_pgdir or the directory of the CPU's live environment |
| Run.EnvRun | jos/kern/env.c:534-568 | The exact new states of envs[], CPU and its record of turns: the target is RUNNING, the environment that was RUNNING on this CPU and is not the target is RUNNABLE, and no other status changes; the assertion that the target is RUNNABLE never fails; the TLB agrees |
| Run.SchedHalt | jos/kern/sched.c:68-97 | Goes to the monitor exactly when nothing is runnable, running or dying; otherwise leaves the CPU on kern_pgdir without environment and the lock free |
| Run.SchedYield | jos/kern/sched.c:11-63 | The CPU runs the first RUNNABLE slot at distance 1 to NENV after its own, else its own environment if RUNNING, else halts; the one it had is RUNNABLE if it was RUNNING; nothing else changes; it goes to the monitor exactly if no environment is RUNNABLE, RUNNING or DYING; the scan is exactly one more turn of the CPU |
| Run.ScheduledGrows | jos/kern/sched.c:11-63 | Rescheduling brings no environment to life, takes no message or turn back, and gives every environment at most the return of its call |
| Traps.EnvDestroy | jos/kern/env.c:484-501 | An environment running elsewhere only becomes DYING; any other that is not DYING is freed; destroying the caller gives up the CPU |
| Traps.ZombieFreedUnderItsCpu | jos/kern/env.c:490-495 | Freeing an environment that is DYING on another CPU puts the directory in that CPU's cr3 on the free list |
| Traps.MapCountsUp | jos/kern/syscall.c:234-294 | sys_page_map counts up exactly the page it shares, exactly when it succeeds and the page is not mapped there already |
| Traps.SendCountsUp | jos/kern/syscall.c:384-404 | sys_ipc_try_send counts up exactly the page it hands over, exactly when it succeeds in that and the receiver does not have it there already |
| Traps.ForkCountsUp | jos/kern/env.c:202-206 | sys_exofork counts up the screen, exactly when it makes a child |
| Traps.Cputs | jos/kern/syscall.c:18-30 | sys_cputs returns exactly if the caller may read every byte of the string and no lookup panics, so every byte below UTOP is in a user page of the caller; ends the run exactly if the check panics or it was the last environment; otherwise the caller is destroyed and gives up the CPU |
| Traps.DirectoryHereOnly | jos/kern/env.c:490-495 | A directory is loaded by no CPU but that of its environment |
| Traps.Trap | jos/kern/trap.c:265-292 | From a trap to the wait for the lock; the invariant holds |
| Traps.Enter | jos/kern/trap.c:279-308 | Takes the lock; a zombie is freed by its own CPU, otherwise the registers are saved and the environment is RUNNING |
| Traps.ServeCall | jos/kern/syscall.c:495-533 | Each call does what its own specification says, keeps the whole invariant and writes no mapped page; it ends the run exactly under the condition given for it |
| Effects.NamesAreIds | jos/kern/env.c:72-107 | In every state with the invariant envid2env finds exactly the environment that an id names, and with checkperm exactly if it is the caller or its child |
| Effects.AnsweredDid | jos/kern/syscall.c:495-533 | What each system call that returns promises in ids, addresses, bits, error numbers and statuses: whom it reached, which page of which environment now is which with which permission, and that nobody sees another change; whom sys_exofork made; whom a send woke with what |
| Traps.ServedBrings | jos/kern/syscall.c:199-215 | A call other than sys_page_alloc brings no page into use but the screen, whatever memory holds |
| Traps.ServedMoves | jos/kern/syscall.c:495-533 | A call that returns changes no status, no waiting, no message and no registers of others except as it is for |
| Traps.ServedSpares | jos/kern/syscall.c:234-294 | An environment that a call does not reach keeps its map, and the pages only it could write stay its own |
| Traps.OnlyParentReaches | jos/kern/env.c:95-103 | Besides itself only its parent reaches an environment, and a sender while it waits for a page |
| Isolation.RemapSpares | jos/kern/syscall.c:283-288 | Changing one page of another environment takes nothing from an environment unless it gives write permission to a page only that one could write |
| Isolation.TransferSpares | jos/kern/syscall.c:384-404 | Handing a page from one environment to another spares every third |
| Traps.Serve | jos/kern/trap.c:216-263 | Faults and unexpected traps destroy the environment, and the CPU goes on without it from slot 0; the timer and sys_yield reschedule: the next RUNNABLE environment runs, or the own one; a system call's result reaches eax, and it has done what its specification says; no new writers, new pages hold zeros, no message lost; exactly which traps end the run |
| Traps.Leave | jos/kern/trap.c:317-323 | Back to the current environment exactly if it is still RUNNING, else through the scheduler as Run.SchedYield says, with exactly one more turn; to the monitor exactly if nothing can run |
| Traps.CachedIsMapped | jos/kern/pmap.c:559-569 | On a uniprocessor a translation in the TLB is that of the running environment's map |
| Traps.UserStore | jos/kern/pmap.c:559-569 | A store of a user program changes one word of the page its map gives, if writable, and keeps the whole invariant; on a uniprocessor a store through any cached translation would do the same |
| System.Step | jos/kern/trap.c:265-324 | Every step of every CPU keeps the whole invariant; a served trap that does not return leaves the CPU rescheduled as its cause asks, and so does the end of trap(); a system call that returns has done what Effects.Did says and its result is in eax; each environment's status, registers, address asked for and last message change only as the step is for; pages that come into use hold zeros; kern_pgdir's translations stay. It also leaves the map and the own pages of every environment it does not meddle with as they are, makes no page in use writable that nobody could write, takes back no message or turn, touches other environments' histories and registers only by delivering or returning a message, delivers only by a successful sys_ipc_try_send of the acting environment, and ends the run exactly if it is one of the steps that do; the hardware may cache and forget translations between any two |
| System.OnlyStoppedSo | jos/kern/syscall.c:479-492 | In any step an environment that was RUNNING or RUNNABLE becomes NOT_RUNNABLE only by its own sys_ipc_recv or by a sys_env_set_status on it |
| System.RunSystem | jos/kern/trap.c:265-324 | After every step of every interleaving the whole invariant holds, and the run goes on unless one of the steps that end runs is taken; every environment's directory translates the pages above UTOP as kern_pgdir did at first; an environment that no step meddles with keeps its map and the contents of the pages only it can write; a page nobody can write stays so while it is in use |
| Spinlock.NextKeepsInv | jos/kern/spinlock.c:60-116 | Every single access keeps: one owner, locked exactly while owned, lk->cpu naming the owner exactly inside |
| Spinlock.LockIsSafe | jos/kern/spinlock.c:60-116 | In every interleaving of any number of CPUs at most one is inside, and neither panic is reached |
| Spinlock.HoldingIsExact | jos/kern/spinlock.c:39-43 | holding() answers exactly whether the caller holds the lock, whatever others do between its two reads |
| Spinlock.RefinesAtomicLock | jos/kern/spinlock.c:68-115 | The accesses implement the atomic lock of the run protocol, taken by the xchg that finds it free |
| Spinlock.NoDeadlock | jos/kern/spinlock.c:60-116 | In every state with the lock's invariant and a CPU in the code some such CPU's access changes the state |
| Spinlock.LockAndUnlock | jos/kern/spinlock.c:60-116 | A CPU left alone with a free lock is inside after four accesses, and five more leave everything as it was |
| Spinlock.Lock.Access | jos/kern/spinlock.c:60-116 | Each access in place is the step of the state machine |
| StabSearch.StabBinsearch | jos/kern/kdebug.c:59-106 | On every input it ends. Without an entry of the type the region is empty; with ordered values it ends before the first entry if all lie above addr, else at an entry with no other up to right and all later ones above addr, whose value is at most addr or such that every address from addr to it is an entry's; above addr exactly if the search overshoots; only where every address up to 2^32 - 1 is an entry's may it run over the last one, and for addr 2^32 - 1 it does |
| StabSearch.BracketsExactly | jos/kern/kdebug.c:39-43 | With ordered values, some at most addr and not one at every address from addr on, the region found is the one that contains addr if and only if the search does not overshoot, which it can only with entries at both addr and addr + 1 |
| StabSearch.NextEntryFound | jos/kern/kdebug.c:81-92 | Of two entries at neighbouring addresses the second is found for the first address |
| StabSearch.LastAddressMissed | jos/kern/kdebug.c:87-92 | An entry at address 2^32 - 1 is not found for that address: left = right = -1 |
| StabSearch.MissReported | jos/kern/kdebug.c:39-43 | left > right exactly when the range has no entry of the type; the comment's reading holds unless all entries lie above addr |
| StabSearch.MissUnreported | jos/kern/kdebug.c:59-106 | With one entry above the address, a miss, the search ends with left = right = -1 |
| StabSearch.BelowKeeps | jos/kern/kdebug.c:81-92 | A match below the address sought makes it the last such entry up to the middle |
| StabSearch.HitKeeps | jos/kern/kdebug.c:87-92 | An exact match makes the search go on for the next address, with every address from addr up to it found |
| Numbers.PrintNum | jos/lib/printfmt.c:37-52 | Appends padding and digits, most significant first |
| Numbers.ParseNumber | jos/lib/string.c:241-286 | Blanks, sign, prefix and the longest run of digits, in signed 32-bit arithmetic; endptr is the end of that run |
| Numbers.ParseDigits | jos/lib/string.c:265-281 | The digit loop computes the number spelled, wrapped to 32 bits, and stops at the first character that is no digit of the base |
| Numbers.RoundTrip | jos/lib/printfmt.c:37-52 | For n below 2^31, base 2 to 16, any width and padding by blank or 0, strtol gives n back from the whole text, whose length is the larger of width and digit count |
| Numbers.StrtolReads | jos/lib/string.c:241-286 | Behind blanks, a sign or none, and the prefix 0x, 0 or none that the base allows, strtol reads any number below 2^31 with its sign and stops behind its digits |
| Numbers.DigitsOfEitherCase | jos/lib/string.c:268-275 | Figures count 0 to 9 and letters of either case 10 to 35 |
| Numbers.DigitCount | jos/lib/printfmt.c:42-51 | The digits printed are as few as can hold the number |

## Left out

- Boot code, assembly entry points, `iret`, GDT, IDT and TSS, LAPIC, PIC, NVRAM and MP tables: hardware access. What remains of it is loading cr3, `invlpg` and xchg.
- Console, keyboard, screen output, the monitor and `cprintf`: input and output.
- User page-fault upcalls and copy-on-write fork: they panic in the source.
- ELF parsing and the contents of program segments: `BootTime.EnvCreate` takes addresses, lengths and the entry point; segments lie below UTOP, as linked user programs do.
- Registers: a trap frame is eax and one other number; segment registers and flags are not modelled.
- Accessed and dirty bits the processor sets in entries, global pages and paging-structure caches other than the TLB.
- TLBs on several CPUs: the kernel does not flush other CPUs' TLBs, so the TLB part of the invariant is for a uniprocessor; for several CPUs `Pmap.RemovalKeepsCoherence` still holds for the CPU that makes the change, and runs assume that no user-mode store goes through a stale translation.
- User-mode stores and traps of other CPUs happen between the steps of the CPU inside the kernel (taking the lock, serving, leaving), not between the statements of one of them.
- Fork.ForkV0: no step of others happens while the parent forks and its own stack writes meanwhile are not modelled; what steps of others leave alone in between is what System.Isolates says of any environment. `ok` is false when it panics or a 16-bit count is at its limit, and the condition given for `ok` is enough but not necessary.
- Pmap.Kernel.PageInsert: requires that the page is not itself a directory or table, which no caller passes, and, if it gets as far as counting, that its count is not 65535 or the page is mapped there already.
- BootTime.RegionAlloc: does not model ranges that go on beyond UTOP, for which the loop runs into kernel tables.
- BootTime.LoadIcode: does not model the contents of segments, copied from the ELF image and zeroed behind it.
- BootMap.BootMapRegion: for regions above UTOP that do not cross 2^32 or touch the UVPT entry, as the comment above it intends; the large-page variant for va congruent to pa modulo 4 MB and empty directory entries where it uses 4 MB pages; `ok` is false where an assertion fails or the code would store through the null pointer of a failed pgdir_walk.
- KernelMap.MmioMapRegion: for reservations that end below 2^32, and a 4 MB one with the large-page variant only if its address is congruent to base modulo 4 MB; the one call in the source asks for 4 KB.
- `pgdir_walk` is two methods, for create false and true; the ghost arguments of methods name the environment whose directory is walked.
- `debuginfo_eip`, `vprintfmt` and the rest of the C library: they add little to the two algorithms modelled.
