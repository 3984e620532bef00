# landaux kernel: a verified model

landaux is a small x86-64 kernel. This project models its memory manager, its kernel heap, its
program loader, its scheduler and its file tree in Dafny and proves what each of them is for.

Check everything with `dafny verify dfyconfig.toml`.

## What is modelled

**Virtual memory with copy-on-write fork.** `Kernel.Machine` is the memory manager as the source
runs it: frames from a bitmap allocator (`FrameAllocator`), four-level page tables that lie in
those frames, reference counts, the area lists, the translation cache, and the task structures.
`clone_mm`, `free_mm`, `find_user_pte`, `do_page_fault`, `sys_fork`, `sys_exit`, `free_task` and
`sys_exec` are methods that change this state in place. Four descriptions lie above it, each proved
to be implemented by the one below:

1. `Kernel` / `PageTables`: frames, tables, counts. A ghost map says where each table lies; the
   frame contents must agree with it.
2. `SharedPages`: per process a map from page to (frame, write bit); fork shares, faults un-share.
3. `EagerFork`: every process owns its pages, and fork copies all of them at once.
4. `LastWrite`: no pages at all. A load returns the byte last stored by the process or, before the
   fork, by an ancestor, and otherwise the byte of the program image. `LastStore` says the same
   without any state, from the list of the events alone (`LastStore.LoadsObserve`).

`Session.Recorder` closes the chain: whatever sequence of fork, load, store, exec, exit and context
switch is run on the machine, the outcomes observed are those of `LastWrite`. Where frames run out,
the contracts say exactly when the kernel stops (`Kernel.Machine.FramesFor`, `Kernel.Machine.Fork`)
and nothing more is observed. Two things are asked for on the way. There is a frame where the source
takes one without looking: for the copy of a shared page (`Kernel.Machine.Unchecked`), and for the
task structure and one more in fork. And no load or store follows an exec before a context switch,
unless the translation cache was empty at the exec: `Session.StaleTranslation` shows why. `Isolation`
adds that a process cannot see what others do, and `Conservation` that a child that is forked, runs
programs, forks children of its own and exits leaves bitmap, bytes in use, counts and all page
tables as they were.
`Elf` covers the loader: how loading ends, read off the headers, and that demand paging of its areas
produces the image of the System V gABI, until the process stores there, with the rights that the
flags of segments and stack name. `ElfHeaders` writes the headers as the ELF format lays them out,
and the loader reads them back. `MapPage` covers the kernel's own mapping routine.

**Kernel heap.** `Heap` runs `kmalloc` and `kfree` on the words of the heap, with headers in band.
`Blocks` is the textbook allocator (first fit over maximal merged free runs, growing by pages); the
lazily merging code is proved to return the same addresses and take the same frames.
`MapPage.FramesTaken` and `MapPage.MapHeap` show which frames that are: one for each page, and those
that mapping the pages takes.

**Scheduler.** `RunRing` is the pointer list, `Scheduler` the operations on it, `Schedule` the
choice `schedule()` makes and the bound on waiting.

**Files.** `Paths` and `Dentries`: the tree of dentries implements a prefix-closed map from
component lists to "directory" or "file", with the error numbers of the code, those for a lack of
memory included; a path is parsed into exactly the names it was written from. `RamFile`: a ramfs file
behind one handle, for every 32-bit count. `Tar` reads archives, and `BootImage` puts the three
together: `extract_tar` fills a file system with exactly the tree that was written. Names may come
again in an archive, and members of other types are skipped.

## Findings

Where the code does not do what one would expect, the model follows the code.

- After `sys_exec` the translation cache may hold translations of the old program. The state is fit
  for user code exactly if the cache was empty (`Kernel.Machine.Exec`, `ExitSteps.NothingCached`),
  and it is reached by exec, one load, exec (`Session.StaleTranslation`); a context switch repairs
  it.
- A write-only area makes demand paging visible: a load stops the process unless a store has
  brought the page in. This happens in exactly those areas (`LastWrite.PagingIsVisibleIff`,
  `LastWrite.PagingShows`), and in a loaded program exactly in the segments with only PF_W set
  (`Elf.WriteOnlySegment`).
- `do_exec_elf` stops the kernel exactly if an area starts where another one of the program does
  (`Elf.LoadEnds`, per segment `Elf.SegmentHaltsIff`). One segment is enough: with no bytes of the
  file but some in memory (`Elf.BssOnlyHalts`), or with a file size whose rounding wraps to 0.
- If there is no memory for the zero-filled area of a segment, exec succeeds without it. The area is
  there exactly if the allocation at its place in the order of all of them succeeds
  (`Elf.ZeroAreaIff`), and `Elf.StartsWithoutZeroArea` is a file that starts without.
- `memcmp` compares only first bytes (`Elf.Memcmp`), so only the first byte of the ELF magic number
  and of "ustar" is checked.
- `ramfs_read` adds position and count in 32 bits. If the sum wraps, the copy runs past the file, and
  otherwise never (`RamFile.ReadStaysIff`, `RamFile.RamFile.Read`). `ramfs_write` leaves its block
  exactly if the sum wraps, or if the sum rounded up to whole chunks does and kmalloc grants the 0
  bytes that are then asked for (`RamFile.RamFile.Write`). `RamFile.OverrunsHappen` reaches both from
  a new file.
- `sys_fork` frees the new task structure while it is still linked into the task list and the run
  ring exactly if one free frame is left. It stops the kernel exactly if there are more, but not one
  for each page table of the parent and the task structure, or if the process numbers are used up
  (`Kernel.Machine.Fork`).
- `kmalloc` rounds in 32 bits: a request of 2^32 - 7 bytes or more gets an empty block
  (`Heap.Rounded`).
- `get_free_mem` counts up to 63 pages that can never be allocated
  (`FrameAllocator.FrameAllocator.GetFreeMem`), and `init_pmm` stops the kernel if its bitmap has
  between 1 and 7 bytes (`FrameAllocator.FrameAllocator.ReserveBitmap`).
- `sys_usleep` sleeps long enough exactly if its product fits 64 bits
  (`Scheduler.SleepsLongEnough`); a sleep of negative time longer than the time since boot ends only
  after 2^63 ticks (`Scheduler.WakesWhen`).
- An octal number too large for 32 bits reads as -1, with a minus sign as 1 (`Tar.Atol8`).
- A walk leaves one reference more on every directory above the place where it ends
  (`Dentries.Fs.LookupPath`, `Dentries.Fs.Getdents`), and the counter has 32 bits. `dentry_put` frees
  a linked dentry exactly if its references are 1 modulo 2^32 (`Dentries.WhenFreed`). With fewer than
  2^32 walks and opens it never happens (`Dentries.Fs.Finish`); `Dentries.RootFreed` gets there from
  an empty file system.
- `make_node` copies a name past its buffer exactly if it has 255 bytes or more
  (`Dentries.Fs.Mkdir`, `Dentries.Fs.Open`, from an empty root `Dentries.MakeFirst`).
- `unlink` of a file that is open frees its data, while the dentry stays for the handles
  (`Dentries.Fs.Unlink`).
- `unlink` does not find a file with a slash behind its name, while mkdir and open ignore the slash
  (`Paths.PlainFound`, `Paths.CreateFound`, `Paths.OpenFound`).

## Conventions

BUG_ON tests are assertions or preconditions with the test in a comment beside them. A page fault
that ends in `oops` sets `halted`, and so do the BUG_ON tests of `clone_mm`, `find_user_pte` and
`sys_fork`. Frames of the memory manager come from its own bitmap; elsewhere a parameter says whether
there is memory. The kernel heap grows between the operations of a process
(`Kernel.Machine.GrowKernel`). File bytes behind an area are fixed: `do_exec_elf` closes the file and
areas keep pointing to it. A bitmap word is a sequence of 64 booleans. The nested loops of `clone_mm`
and `free_mm` are one recursive method per loop body, `CloneTable` and `FreeTable`, called for each
of the four levels. `Dentries.Fs.takes` counts walks and opens. Signed overflow is taken as wrapping.

## Model

| member | source | states |
|---|---|---|
| Memory.AddressOfIndices | src/mm/mm.c:163-184 | the four indices and the offset of an address determine it |
| Memory.IndicesOfAddress | src/mm/mm.c:61 | the address clone_mm rebuilds from its loop indices walks back to the same entry |
| Memory.NextPage | src/mm/mm.c:163-184 | the page behind a page: the indices carry over from level to level |
| Memory.Signed32Step | src/fs/vfs.c:95-103 | counting in 32 bits, and when the count reads 1 |
| Areas.FindAreaUnique | src/mm/mm.c:152-161 | with page-disjoint areas the first match is the only one |
| Areas.FindAreaByPage | src/mm/mm.c:152-161 | all addresses of a page find the same area |
| Areas.FillPage | src/mm/mm.c:248-272 | the page a fault brings in: file bytes at the 32-bit offset, zeros behind; none on a bad seek or short read |
| Areas.InsertAdds | src/mm/mm.c:122-141 | insertion adds exactly the new area |
| Areas.InsertSorted | src/mm/mm.c:122-141 | insertion of a new start keeps the list strictly sorted |
| Areas.InsertKeepsOrder | src/mm/mm.c:122-141 | and keeps every area well formed |
| Areas.AreaList.Add | src/mm/mm.c:122-141 | mm_add_area inserts in order, or changes nothing without memory |
| Areas.AreaList.Find | src/mm/mm.c:152-161 | mm_find_area returns the first area that covers the address |
| Areas.FindInList | src/mm/mm.c:152-161 | the search loop of mm_find_area |
| FrameAllocator.FrameAllocator.constructor | src/mm/pmm.c:10-24 | init_pmm starts with an empty bitmap |
| FrameAllocator.FrameAllocator.Alloc | src/mm/pmm.c:36-58 | the least free frame, or 0 exactly when there is none; count 1; nothing else changes |
| FrameAllocator.FrameAllocator.Release | src/mm/pmm.c:61-75 | the frame leaves the set, its count becomes 0; the three BUG_ON tests cannot fire |
| FrameAllocator.FrameAllocator.GetFreeMem | src/mm/pmm.c:87-90 | the free frames plus the tail that no bitmap word covers |
| FrameAllocator.FrameAllocator.ReserveBitmap | src/mm/pmm.c:26-31 | exactly the bitmap's own frames are reserved; succeeds iff the bitmap is empty or has a whole word |
| FrameAllocator.FrameAllocator.InitMm | src/mm/mm.c:9-16 | all counts are 0 |
| FrameAllocator.BitmapFits | src/mm/pmm.c:26-31 | when the bitmap's frames are among those it manages |
| FrameAllocator.AllocThenRelease | src/mm/pmm.c:36-75 | release undoes allocation: set, counts and bytes in use |
| EagerFork.TouchBringsIn | src/mm/mm.c:234-277 | a touch adds exactly the touched page |
| SharedPages.ForkOk | src/mm/mm.c:26-64 | fork keeps the invariant: entries grounded, no orphan frames, writable entries exclusive |
| SharedPages.ForkSim | src/mm/mm.c:26-64 | sharing every frame looks like copying every page |
| SharedPages.Service | src/mm/mm.c:199-278 | a served fault leaves the page present |
| SharedPages.ServiceOk | src/mm/mm.c:199-278 | a served fault keeps the invariant and leaves the entry allowing the access |
| SharedPages.ServiceSim | src/mm/mm.c:199-278 | a fault is invisible and fails exactly when the eager machine refuses the access |
| SharedPages.WriteSim | src/mm/mm.c:216-229 | a store through a writable entry reaches no other page of any process |
| SharedPages.FreeKeeps | src/mm/mm.c:97-106 | frames that others name survive with their contents |
| SharedPages.FreeSim | src/mm/mm.c:81-120 | free_mm removes one process and is invisible to the others |
| SharedPages.ExecOk | src/kernel/process.c:257-266 | exec keeps the invariant |
| SharedPages.StepOk | src/mm/mm.c:18-278 | every step keeps the invariant |
| SharedPages.StepSim | src/mm/mm.c:18-278 | every step has the outcome of the eager machine and keeps the two in step |
| SharedPages.CopyOnWriteRefinesEagerCopy | src/mm/mm.c:18-278 | over every run, every load returns what it returns if fork copies all memory |
| Isolation.SharingIsInvisible | src/mm/mm.c:18-278 | the same from any state the invariant allows |
| Isolation.StepKeepsOthers | src/mm/mm.c:18-278 | a step of one process changes neither areas nor entries of another |
| Isolation.OthersAreInvisible | src/mm/mm.c:18-278 | after any run of other processes, each access of a process has the outcome it had before |
| LastWrite.StepAgrees | src/mm/mm.c:199-278 | one step of the eager machine is one step of the machine without pages |
| LastWrite.LoadsReturnLastStore | src/mm/mm.c:199-278 | over every run each load returns the byte last stored, or the image byte |
| LastWrite.OnePage | src/mm/mm.c:248-272 | the fill of a page does not depend on which of its addresses was touched |
| LastWrite.StepKeepsTouchedOk | src/mm/mm.c:234-277 | pages are touched only by accesses that were allowed |
| LastWrite.StoresIgnorePaging | src/mm/mm.c:211-245 | whether a store is allowed never depends on earlier faults |
| LastWrite.PagingIsVisibleIff | src/mm/mm.c:211-245 | whether a load is allowed depends on earlier faults exactly in write-only areas |
| LastWrite.PagingShows | src/mm/mm.c:211-245 | a program with a write-only page: a load stops it, but a load after a store does not |
| LastWrite.StepSpares | src/mm/mm.c:199-278 | a step that is no store there, exec or exit of the process keeps an untouched byte |
| LastWrite.ImageStays | src/mm/mm.c:199-278 | from exec on, over every run without a store there, a load returns the image byte, or stops if there is none |
| LastWrite.FirstAccess | src/mm/mm.c:234-277 | the first access to a page is refused iff no area covers it, or the area lacks the right (write for a store, read or exec for a load), or there are no bytes for the page |
| LastWrite.RightsStay | src/mm/mm.c:199-278 | from exec on, over every run, a store is served iff the area can be written and has bytes; an area without rights serves no load |
| LastStore.RunPrefix | src/mm/mm.c:199-278 | every outcome of a run is that of its event after the events before it |
| LastStore.RunMade | src/mm/mm.c:18-278 | areas, touched pages and bytes of every process are what its past makes them: its own events and, before it was forked, its parent's, from the last exec on |
| LastStore.LoadsObserve | src/mm/mm.c:18-278 | over every run from boot, from the list of events alone: a load returns the value of the last store there in the past of the process, or the image byte; it is refused iff nothing there touched the page and the areas refuse it |
| LastStore.StoresObserve | src/mm/mm.c:18-278 | likewise a store is served iff the areas of the last exec can be written there and have bytes |
| PageTables.WalkIsLookup | src/mm/mm.c:163-184 | the four-level walk computes exactly the partial map of the process |
| CloneTables.LinkStep | src/mm/mm.c:31-51 | linking a copied table keeps every fact of the copy loop |
| CloneTables.LoopDescend | src/mm/mm.c:28-65 | a finished subtree finishes its entry |
| CloneTables.LoopShare | src/mm/mm.c:55-61 | sharing one leaf keeps every fact of the copy loop |
| CloneTables.AllMirrored | src/mm/mm.c:26-65 | when the copy is complete, the child has every table the parent has |
| FreeTables.FreeLoopLeaf | src/mm/mm.c:97-106 | dropping one leaf keeps every fact of free_mm's loop |
| FreeTables.FreeLoopTable | src/mm/mm.c:107-112 | returning an emptied table keeps every fact of free_mm's loop |
| GrowTables.NewTableOk | src/mm/mm.c:174-180 | an added table keeps the trees and changes no translation |
| GrowTables.PutLeafOk | src/mm/mm.c:216-230 | writing one leaf keeps the trees |
| Books.ShareStep | src/mm/mm.c:55-61 | count++ keeps "count = number of entries naming the frame", and it was positive before |
| Books.CountedDrop | src/mm/mm.c:100-105 | the count is positive, and 1 exactly if this is the last entry; dropping keeps the books |
| Books.CountedTable | src/mm/mm.c:107-112 | a table's frame has count 1 and can be released |
| Abstraction.CloneMemoryOk | src/mm/mm.c:18-79 | the copied tables implement the sharing machine's fork and keep all invariants |
| Abstraction.ExitMemoryOk | src/mm/mm.c:81-120 | freeing an address space implements its removal, with the frames nobody else names |
| Abstraction.ExecMemoryOk | src/kernel/process.c:257-262 | clearing the lower half implements exec and keeps the kernel halves in agreement |
| FaultSteps.GrowMemoryOk | src/mm/mm.c:163-184 | creating a missing table is invisible |
| FaultSteps.FreshMemory | src/mm/mm.c:221-228 | giving a page a fresh frame keeps all invariants |
| FaultSteps.CountedFresh | src/mm/mm.c:221-228 | and the counts |
| FaultSteps.UnshareDone | src/mm/mm.c:211-232 | the un-sharing half of do_page_fault as a step of the sharing machine |
| FaultSteps.FillServed | src/mm/mm.c:234-277 | the demand-paging half as a step of the sharing machine |
| FaultSteps.RefusedSteps | src/mm/mm.c:211-245 | which faults are refused |
| FaultSteps.LoadServed | src/mm/mm.c:199-278 | a load that took one fault |
| FaultSteps.StoreServed | src/mm/mm.c:199-278 | a store that took one fault: the entry is writable afterwards |
| KernelFacts.ForkDone | src/kernel/process.c:46-69 | what sys_fork has done to tasks, tables and memory |
| KernelFacts.FreshPid | src/kernel/process.c:52-53 | the next pid is not in use |
| KernelFacts.KernelHalfRefused | src/mm/mm.c:163-184 | the user-mode walk finds nothing in the kernel half of any address space |
| KernelFacts.NothingLacking | src/mm/mm.c:163-184 | a mapped page lacks none of its tables |
| KernelFacts.KernelGrows | src/mm/heap.c:26-41 | a frame the kernel takes for itself keeps memory, task fields and counts |
| ExitSteps.ExitDone | src/kernel/process.c:93-114 | what sys_exit and free_task have done to tasks, tables, counts and memory |
| ExitSteps.ExecDone | src/kernel/process.c:257-266 | what sys_exec has done |
| ExitSteps.NothingCached | src/kernel/process.c:257-266 | after exec only an empty translation cache agrees with the tables |
| Kernel.Machine.constructor | src/kernel/process.c:71-91 | the first process, on the static tables, satisfies every invariant |
| Kernel.Machine.Invalidate | src/include/mm.h:95-98 | one translation leaves the cache |
| Kernel.Machine.ShareEntry | src/mm/mm.c:55-61 | both entries lose the write bit, the count goes up, the page leaves the cache |
| Kernel.Machine.LinkTable | src/mm/mm.c:31-35 | a fresh copy of a table is linked in place of the original; stops iff there is no frame |
| Kernel.Machine.CloneTable | src/mm/mm.c:26-65 | the copy of a subtree is complete, shares every page read-only and touches nothing else; no stale translation survives; it takes a frame per table, and stops only if there are fewer |
| Kernel.Machine.DropEntry | src/mm/mm.c:97-106 | the last reference frees the frame, any other is uncounted |
| Kernel.Machine.FreeTable | src/mm/mm.c:81-112 | exactly the tables and pages below are gone, and of the frames those nobody else names |
| Kernel.Machine.AddTable | src/mm/mm.c:174-180 | a zeroed table is linked; stops iff there is no frame |
| Kernel.Machine.FindUserPte | src/mm/mm.c:163-184 | the last-level table of the page exists; no translation of any process changed; exactly as many frames taken as tables were missing, and a stop iff there are fewer |
| Kernel.Machine.Unshare | src/mm/mm.c:216-231 | the sharing machine's un-sharing step; other translations and areas unchanged; a frame is needed only if another entry names the old one |
| Kernel.Machine.InstallPage | src/mm/mm.c:224-228 | a new frame is filled and entered for the page |
| Kernel.Machine.FillEntry | src/mm/mm.c:246-277 | the sharing machine's fill step; fails exactly without a frame or without file bytes |
| Kernel.Machine.FaultPresent | src/mm/mm.c:211-233 | a write fault on a present page is the sharing machine's fault step, or it halts |
| Kernel.Machine.FaultAbsent | src/mm/mm.c:234-277 | likewise for a page that is not present; also halts if there are not enough frames for its tables and the page |
| Kernel.Machine.PageFault | src/mm/mm.c:199-284 | do_page_fault keeps every invariant and is one fault step, or halts exactly when that step does or the frames do not last |
| Kernel.Machine.Translate | src/mm/mm.c:163-184 | the cached or walked translation is that of the process |
| Kernel.Machine.Load | src/mm/mm.c:199-278 | a user load, with at most one fault, is one load step, and the page is cached afterwards; with fewer frames than it takes, it halts |
| Kernel.Machine.Store | src/mm/mm.c:199-278 | a user store, with at most one fault, is one store step, and the page is cached afterwards; with fewer frames than it takes, it halts |
| Kernel.Machine.AccessKernelHalf | src/mm/mm.c:211-283 | a user access in the kernel half stops the kernel |
| Kernel.AtMostFour | src/mm/mm.c:163-246 | no access takes more than three tables and a page |
| Kernel.Machine.CopyAreas | src/mm/mm.c:66-75 | the area list is copied in order |
| Kernel.Machine.CloneMm | src/mm/mm.c:18-79 | clone_mm implements the sharing machine's fork; parent's and child's kernel halves agree; the cache stays coherent; -ENOMEM iff no frame is free, a stop iff there are some but fewer than tables |
| Kernel.Machine.CloneDir | src/mm/mm.c:22-27 | the child's top-level table starts as a copy, if there is a frame for it |
| Kernel.Machine.NewTask | src/kernel/process.c:50-53 | a frame and a number for the new task |
| Kernel.Machine.Fork | src/kernel/process.c:46-69 | sys_fork keeps every invariant and is one fork step, with tables of others untouched; -ENOMEM and a freed task structure in the task list iff one frame is free; a stop iff the frames last for the top-level table only, or the pids are used up |
| Kernel.Machine.ForkInto | src/kernel/process.c:54-67 | sys_fork from clone_mm on |
| Kernel.Machine.GrowKernel | src/mm/heap.c:26-41 | a frame for the heap keeps every invariant and what processes see |
| Kernel.Machine.FreeMm | src/mm/mm.c:81-120 | free_mm leaves only the top-level table and an empty area list |
| Kernel.Machine.FreeAreas | src/mm/mm.c:114-119 | the area list ends empty |
| Kernel.Machine.Switch | src/kernel/sched.c:57-85 | loading cr3 empties the cache; memory is unchanged |
| Kernel.Machine.FreeTask | src/kernel/process.c:106-114 | the top-level table and the task structure are released, each once |
| Kernel.Machine.Leave | src/kernel/process.c:100-114 | the switch away from the exited task, then its last two frames: every invariant holds again |
| Kernel.Machine.Exit | src/kernel/process.c:93-114 | sys_exit keeps every invariant and is one exit step; tables of others are untouched |
| Kernel.Machine.Exec | src/kernel/process.c:257-266 | sys_exec is one exec step; the cache is coherent afterwards exactly if it was empty |
| Kernel.Machine.ClearUserHalf | src/kernel/process.c:262 | the lower 256 entries are cleared, the upper ones kept |
| Session.RecordStep | src/mm/mm.c:18-278 | one more kernel step is one more step of the recorded run, with the right outcome |
| Session.Recorder.Load | src/mm/mm.c:199-278 | after any history, a load observes what the machine without pages shows; a stop iff refused there or the frames do not last |
| Session.Recorder.Store | src/mm/mm.c:199-278 | likewise for a store |
| Session.Recorder.Fork | src/kernel/process.c:46-69 | likewise for fork, which stops iff the frames or pids do not last |
| Session.Recorder.Exit | src/kernel/process.c:93-114 | likewise for exit |
| Session.Recorder.Exec | src/kernel/process.c:257-266 | likewise for exec |
| Session.Recorder.ExecElf | src/kernel/process.c:128-266 | exec of a file: the new areas are those the loader computes |
| Session.Recorder.Switch | src/kernel/sched.c:57-85 | a context switch is not observable |
| Session.Recorder.GrowKernel | src/mm/heap.c:26-41 | nor is the growth of the kernel heap |
| Session.StaleTranslation | src/kernel/process.c:257-266 | exec, one load, exec, from boot: the cache then disagrees with the tables |
| Conservation.BooksDetermined | src/mm/mm.c:18-120 | used frames, owners and counts are a function of tables, mapped frames and tasks |
| Conservation.Act | src/kernel/process.c:46-266 | one load, store, exec or whole grandchild of the child leaves every other process and table alone; false only if the kernel stopped |
| Conservation.ForkUse | src/kernel/process.c:46-69 | fork and any actions of the child: the other processes and tables are those of before; false only if the kernel stopped |
| Conservation.ForkUseExit | src/kernel/process.c:46-114 | fork, any loads, stores, programs and exiting children of the child, exit: bitmap, bytes in use, counts, tables and task list are restored; false only if the kernel stopped |
| MapPage.TranslateIsLeaf | src/mm/vmm.c:22-47 | the walk reads exactly the last-level tables |
| MapPage.TableAdded | src/mm/vmm.c:31-40 | a new table changes no translation |
| MapPage.Mapper.WalkDown | src/mm/vmm.c:27-41 | one level of map_page's walk |
| MapPage.Mapper.WalkTo | src/mm/vmm.c:27-43 | the last-level table of the page exists; as many frames taken as tables were missing |
| MapPage.Mapper.MapPage | src/mm/vmm.c:22-47 | the page translates to the frame afterwards, and no other translation differs |
| MapPage.HeapTabsMissing | src/mm/vmm.c:49-52 | the next page of the heap lacks exactly the tables that `Blocks.TablesFor` counts |
| MapPage.FramesTaken | src/mm/heap.c:28-46 | the frames of a growing kmalloc: one for each page, and those of the missing tables; a halt iff they end between a page and its tables |
| MapPage.MapHeapPage | src/mm/vmm.c:49-52 | mapping that page takes that many frames |
| MapPage.MapHeap | src/mm/heap.c:38-39 | mapping the heap's pages in order takes the sum of them, and every page translates |
| Elf.Memcmp | src/lib/string.c:76-86 | 0 exactly if the count is 0 or the first bytes are equal |
| Elf.PageAddressIsNoError | src/kernel/process.c:214-218 | an address that starts a page, cut to 32 bits, never reads as an error |
| Elf.CheckHeader | src/kernel/process.c:136-158 | which file headers are accepted |
| Elf.Mmap | src/mm/mm.c:186-197 | one area is added, or -ENOMEM, or the duplicate-start BUG_ON |
| Elf.MapSegment | src/kernel/process.c:185-226 | the one or two areas of a segment, with 32-bit sizes and the unnoticed failure of the second |
| Elf.DoExecElf | src/kernel/process.c:128-245 | the areas and the status for every file and every memory supply, as a function of the headers; what that function means is in `Elf.LoadEnds`, `Elf.LoadFails`, `Elf.LoadedByte`, `Elf.StoredByte`, `Elf.StackByte` and `ElfHeaders.HeadersRead` |
| Elf.SegmentHaltsIff | src/mm/mm.c:122-141 | one segment stops the kernel iff one of its areas starts where another one does |
| Elf.SegmentAdds | src/kernel/process.c:185-226 | which areas a segment adds, and how often it asks for memory |
| Elf.LoadFromEnds | src/kernel/process.c:161-240 | how loading ends from any header on |
| Elf.LoadEnds | src/kernel/process.c:128-245 | iff conditions on the headers for a halt and for success; the areas of a loaded program are those of its segments and its stack, with the flags of the last PT_GNU_STACK, and no others |
| Elf.LoadFails | src/kernel/process.c:136-245 | the error number: -ENOEXEC for a refused header, -EINVAL for a position behind the end of the file, -ENOMEM for the areas |
| Elf.SegmentOkIff | src/kernel/process.c:193-212 | which segments are refused |
| Elf.StackFlagsAre | src/kernel/process.c:160-236 | the flags of the last PT_GNU_STACK header, or 7 |
| Elf.SegmentRights | src/kernel/process.c:119-126 | the area of a segment byte can be read iff bit 2 of p_flags is set, written iff bit 1, executed iff bit 0 |
| Elf.ZeroAreaIff | src/kernel/process.c:214-219 | the zero area is there iff kzalloc, asked in its turn, had memory |
| Elf.AreasInside | src/kernel/process.c:203-219 | areas of a segment lie in its pages even if sizes wrap |
| Elf.LoadedAreasLow | src/kernel/process.c:198-219 | no area of a loaded program reaches into the kernel half |
| Elf.SegmentCovers | src/kernel/process.c:203-219 | the two areas of a segment cover exactly its pages |
| Elf.AreaOfSegment | src/kernel/process.c:185-226 | which area a fault at an address of a segment finds, and when it finds none |
| Elf.FileByte | src/mm/mm.c:251-270 | the page of an address in the file area is filled iff the file has the bytes it reads; each byte is then the file's, or zero behind the segment's part |
| Elf.ProgramImage | src/kernel/process.c:185-226 | file bytes, then zeros, at every address of a segment whose page no other one shares; none iff the file is too short or, behind the file's pages, the zero area is missing |
| Elf.WriteOnlySegment | src/kernel/process.c:213-219 | a byte of a segment lies in a write-only area iff of the flags only PF_W is set, and it can be filled |
| Elf.LoadedByte | src/kernel/process.c:128-266 | after exec and any run of all processes, a load of a byte of a segment with bit 2 or bit 0 of p_flags that was not stored to returns that image, or is refused if the page cannot be filled |
| Elf.StoredByte | src/kernel/process.c:119-226 | after exec and any run, a store to a byte of a segment is served iff bit 1 of p_flags is set and the page can be filled; a segment without flags serves no load |
| Elf.StackByte | src/kernel/process.c:239-245 | after exec and any run, the stack is zero where nothing was stored, and has the rights of the last PT_GNU_STACK header, or all |
| Elf.BssOnlyHalts | src/mm/mm.c:127 | a file that stops the kernel: a segment with bytes in memory and none of the file |
| Elf.StartsWithoutZeroArea | src/kernel/process.c:214-219 | a file and a memory supply with which exec succeeds without the zero area |
| Elf.LoadedAreasOk | src/kernel/process.c:128-245 | the loader's list is sorted and well formed, also when loading fails |
| ElfHeaders.FieldRead | src/include/elf.h:81-97 | a little-endian field that was written is read back |
| ElfHeaders.EhdrRead | src/include/elf.h:81-97 | a file header as the ELF format lays it out is read back, and accepted iff its fields are those of a 64-bit little-endian x86-64 executable with program headers |
| ElfHeaders.PhdrRead | src/include/elf.h:686-696 | a program header as the ELF format lays it out is read back |
| ElfHeaders.HeadersRead | src/kernel/process.c:161-183 | of a written program header table of any length, every header is read back |
| Blocks.Disjoint | src/mm/heap.c:23-78 | blocks of a tiling chain are pairwise disjoint |
| Blocks.CoalesceMerges | src/mm/heap.c:57-70 | coalescing leaves no two neighbouring free blocks |
| Blocks.CoalesceKeeps | src/mm/heap.c:57-70 | and keeps the used blocks and the words covered |
| Blocks.MergeRunCoalesce | src/mm/heap.c:57-70 | merging a run in place is invisible after coalescing |
| Blocks.FreeCoalesce | src/mm/heap.c:80-97 | freeing before or after coalescing gives the same coalesced heap |
| Blocks.FoundFits | src/mm/heap.c:52-57 | the block the scan takes is the one first fit over merged runs takes, cut the same way |
| Blocks.GrowStep | src/mm/heap.c:28-46 | one round of growing is one round of the textbook allocator's growing |
| Blocks.GrowsOnlyWhenNeeded | src/mm/heap.c:28-46 | pages are taken only while nothing fits; NULL only with no frame left |
| Blocks.FreeUndoesAlloc | src/mm/heap.c:23-97 | freeing what was just allocated gives back the merged heap |
| Blocks.CarveTiles | src/mm/heap.c:52-57 | cutting a block keeps the tiling and a free last block |
| Heap.Rounded | src/mm/heap.c:26 | the words reserved for a request, and the wrap at 2^32 - 7 |
| Heap.Heap.constructor | src/mm/heap.c:12-21 | one page, one free block |
| Heap.Heap.FreeRun | src/mm/heap.c:58-66 | the extra size of the free run behind a free block |
| Heap.Heap.Absorb | src/mm/heap.c:67-70 | the run is merged; used blocks are untouched |
| Heap.Heap.Split | src/mm/heap.c:52-57 | the block is cut; used blocks are untouched; the new one is new |
| Heap.Heap.Grow | src/mm/heap.c:38-43 | a page is joined to the last block |
| Heap.Heap.Kmalloc | src/mm/heap.c:23-78 | terminates; address, frames and coalesced heap are those of the textbook allocator; live blocks keep header and payload |
| Heap.Heap.Kfree | src/mm/heap.c:80-97 | the coalesced heap is that of a fully merging free; the other live blocks keep header and payload |
| Heap.Heap.Unmark | src/mm/heap.c:86-87 | the used bit is cleared |
| RunRing.ListAdd | src/include/list.h:16-22 | the cycle with one more element at the right place |
| RunRing.ListDel | src/include/list.h:32-36 | the cycle without the element; a second call changes nothing |
| Schedule.NextPicks | src/kernel/sched.c:87-99 | idle is picked only if alone; a task that has left is never picked |
| Schedule.OneCloser | src/kernel/sched.c:87-99 | each call brings every waiting task one step closer |
| Schedule.BoundedWaiting | src/kernel/sched.c:87-99 | with nobody entering, a waiting task runs after exactly its distance, below the ring size |
| Scheduler.SleepsLongEnough | src/kernel/sched.c:115 | a sleep is not too short, and less than a tick too long, iff its product fits 64 bits |
| Scheduler.NegativeTicks | src/kernel/sched.c:115 | a negative time is rounded to whole ticks too |
| Scheduler.WakesWhen | src/kernel/sched.c:114-119 | the wake time for every argument, with the wrap of a negative one |
| Scheduler.TimersSplit | src/kernel/sched.c:25-37 | every timer is kept or its task woken, as its time has not come or has |
| Scheduler.TimersLeft | src/kernel/sched.c:25-37 | never both, and nothing else is kept |
| Scheduler.Scheduler.constructor | src/kernel/process.c:16-29 | only idle, running |
| Scheduler.Scheduler.Schedule | src/kernel/sched.c:87-112 | the ring and the choice are those of the specification; a zombie's page is freed, and only after another task runs |
| Scheduler.Scheduler.ContextSwitchTail | src/kernel/sched.c:47-55 | exactly a zombie is freed |
| Scheduler.Scheduler.Fork | src/kernel/process.c:50-55 | the child enters the ring behind the running task |
| Scheduler.Scheduler.KernelThread | src/kernel/process.c:71-81 | a thread enters the ring behind idle |
| Scheduler.Scheduler.Usleep | src/kernel/sched.c:114-125 | the task leaves the ring once, although it is unlinked twice, and waits on the timer list |
| Scheduler.Scheduler.WaitqueueSleep | src/include/sched.h:46-54 | the task leaves the ring and waits on the queue |
| Scheduler.Scheduler.Exit | src/kernel/process.c:93-104 | the task is gone and another one runs |
| Scheduler.Scheduler.Yield | src/kernel/sched.c:87-112 | preemption changes only who runs |
| Scheduler.Scheduler.WaitqueueWakeup | src/include/sched.h:56-70 | all waiters of the queue, and no others, enter the ring behind idle |
| Scheduler.Scheduler.ExpireTimers | src/kernel/sched.c:21-37 | exactly the sleepers whose time has come enter the ring |
| Scheduler.Scheduler.Tick | src/kernel/sched.c:21-43 | and the running task is charged, with its slice renewed at 0 |
| RamFile.ReadStaysIff | src/fs/ramfs/ramfs.c:146-153 | a read copies exactly bytes of the file iff position plus count fits 32 bits |
| RamFile.RoundsAway | src/fs/ramfs/ramfs.c:5 | the sizes whose rounding wraps to 0 |
| RamFile.OverrunsHappen | src/fs/ramfs/ramfs.c:146-185 | a read and a write that leave the block, from a new file |
| RamFile.ReadAfterWrite | src/fs/ramfs/ramfs.c:146-185 | what is written is read back and nothing else changes |
| RamFile.WritesJoin | src/fs/ramfs/ramfs.c:157-185 | two writes in a row are one |
| RamFile.RamFile.Read | src/fs/vfs.c:377-389 | for every count: the bytes at the cursor, which advances; an overrun iff the sum wraps; -EINVAL without the mode |
| RamFile.RamFile.Write | src/fs/ramfs/ramfs.c:157-185 | for every count: bytes at the cursor are replaced or appended; iff conditions for -ENOMEM, with nothing changed, and for an overrun |
| RamFile.RamFile.CopyIn | src/fs/ramfs/ramfs.c:181-184 | bytes that fit |
| RamFile.RamFile.Regrow | src/fs/ramfs/ramfs.c:160-180 | growth keeps the contents; bytes moved so far never exceed the allocated size; fails iff kmalloc does |
| RamFile.RamFile.Seek | src/fs/vfs.c:405-423 | the cursor moves to the offset from the start, the cursor or the end, offsets from 2^31 on being negative, if that is in the file; otherwise -EINVAL and nothing moves |
| RamFile.RamFile.Open | src/fs/vfs.c:326-348 | the mode; with O_APPEND the handle is at the end and nothing goes, without it at 0, and with O_TRUNC the file is empty |
| RamFile.RamFile.Truncate | src/fs/ramfs/ramfs.c:187-197 | everything behind the position goes |
| RamFile.SeekWraps | src/fs/vfs.c:409-420 | the 32-bit sum of a seek lies in the file iff the signed one does |
| RamFile.AppendOpened | src/fs/vfs.c:329 | a write through a handle opened with O_APPEND appends, with or without O_TRUNC |
| RamFile.AppendSought | src/fs/vfs.c:409-420 | so does a write behind a seek to the end |
| RamFile.Tell | src/fs/vfs.c:409-420 | a seek by nothing tells the position |
| RamFile.BackAndForth | src/fs/vfs.c:405-423 | the offset 2^32 - k moves back by k, and k on again |
| RamFile.ReadRest | src/fs/ramfs/ramfs.c:146-155 | a read of at least the rest gives exactly the rest and leaves the cursor at the end |
| Tar.Atol8 | src/fs/bootimg.c:39-70 | exact up to 2^31 - 1; -1 beyond, 1 with a minus sign |
| Tar.Digits | src/fs/bootimg.c:58-67 | the digit loop |
| Tar.Atol256 | src/fs/bootimg.c:72-98 | the signed big-endian value, clamped to 32 bits |
| Tar.StaysOut | src/fs/bootimg.c:86-94 | once out of range, always out of range |
| Tar.Base256Read | src/fs/bootimg.c:72-98 | a number written in base 256 is read back, negative ones too |
| Tar.OctalFieldRead | src/fs/bootimg.c:39-70 | an octal field that was written is read back, with blanks in front and with a minus sign |
| Tar.SizeIsRead | src/fs/bootimg.c:100-105 | the size of a member is read back from either form |
| Tar.RoundUpPads | src/fs/bootimg.c:149-151 | the step to the next header is the padded size |
| Tar.HeaderFields | src/fs/bootimg.c:15-32 | name, size, type and magic lie where the reader looks, whatever the other fields hold |
| Tar.WrittenIsArchive | src/fs/bootimg.c:107-155 | what a ustar writer writes, all header fields filled, is a well-formed archive |
| BootImage.FillFile | src/fs/bootimg.c:129-136 | the file holds the data, or nothing iff there is no block for them |
| BootImage.OpenMember | src/fs/bootimg.c:129-133 | the tree and the files after the open of a member |
| BootImage.MakeFile | src/fs/bootimg.c:127-138 | the regular-file case as a step on tree and contents |
| BootImage.MakeDir | src/fs/bootimg.c:139-143 | the directory case as a step on tree and contents |
| BootImage.ExtractAt | src/fs/bootimg.c:116-148 | one round of the loop is the step of the member at p |
| BootImage.ExtractTar | src/fs/bootimg.c:107-155 | the file system afterwards is what the members make of it, in order; `BootImage.ExtractedTree` says what that is, by type byte |
| BootImage.OthersSkipped | src/fs/bootimg.c:144-147 | a member with a type byte other than '0', 0 and '5' leaves the disk as it was |
| BootImage.TreeStep | src/fs/bootimg.c:126-148 | one more member keeps the tree: a file ('0' or 0) or directory ('5') of a new name is one more node, a file of a known name replaces its data |
| BootImage.ExtractedTree | src/fs/bootimg.c:107-155 | extracting any list of members, each behind its directory, into an empty tree: every member of type '0', 0 or '5' is there and nothing else; the first of a name says by its type byte whether it is a directory, the last file of a name says what it holds |
| BootImage.RoundTrip | src/fs/bootimg.c:107-155 | a tree written as a ustar archive and extracted is that tree, in that sense |
| Paths.GetNextComponent | src/fs/vfs.c:66-93 | the next component, which is the path up to the next slash or its end; its kind and the rest of the path, or COMP_NO_MORE at the end or without memory |
| Paths.ParseSpelled | src/fs/vfs.c:66-93 | for every list of names, each with one or more slashes in front, and any slashes behind: parsing gives exactly those names, and whether there are slashes behind |
| Paths.DirFound | src/fs/vfs.c:113-183 | a directory is found iff it is there; -ENOTDIR for a file on the way, else -ENOENT |
| Paths.CreateFound | src/fs/vfs.c:113-193 | the place of a new directory is found iff its parent is one and the name is free; the error otherwise |
| Paths.OpenFound | src/fs/vfs.c:352-363 | the directory of a file to open is found iff it is there |
| Paths.PlainFound | src/fs/vfs.c:434-437 | the lookup of unlink, with the effect of trailing slashes |
| Paths.ShortFound | src/fs/vfs.c:124-129 | a walk that runs out of memory: -ENOMEM iff it gets that far, else the error on the way |
| Dentries.SiblingsDiffer | src/fs/ramfs/ramfs.c:15-44 | names are unique among siblings |
| Dentries.DentryPut | src/fs/vfs.c:101-109 | one reference less, in 32 bits; if the count was 1 the dentry is freed and its parent loses one, and so on upwards |
| Dentries.RefsFollow | src/fs/vfs.c:147-148 | the parent pointer set by a walk takes over the walk's reference: the counts, true and in 32 bits, stay right |
| Dentries.RefsRemoved | src/fs/ramfs/ramfs.c:129-137 | the counts of the rest stay right when a node leaves the tree |
| Dentries.RaisedOn | src/fs/vfs.c:147-148 | one step of a walk: every directory passed has exactly one reference more |
| Dentries.WhenFreed | src/fs/vfs.c:101-109 | the next dentry_put frees a linked dentry iff its references are 1 modulo 2^32 |
| Dentries.Fs.constructor | src/fs/ramfs/ramfs.c:46-80 | an empty root directory |
| Dentries.Fs.PutLinked | src/fs/vfs.c:101-109 | a linked dentry with at most 2^32 references is not freed |
| Dentries.Fs.Finish | src/fs/vfs.c:101-109 | with fewer than 2^32 walks and opens so far, no linked dentry is freed |
| Dentries.Fs.FindChild | src/fs/ramfs/ramfs.c:82-94 | the child with the name iff the tree has one; otherwise -ENOTDIR for a file, else -ENOENT |
| Dentries.Fs.LookupPath | src/fs/vfs.c:113-173 | the walk finds what the map says about the components, for every memory supply, leaves the tree alone, and leaves exactly one reference more on each directory above its end |
| Dentries.NamesSpelled | src/fs/vfs.c:113-129 | the components of every path that is written out: exactly the names between the slashes |
| Dentries.Fs.WalkOne | src/fs/vfs.c:122-167 | one round of its loop is one step of that walk |
| Dentries.Fs.MakeNode | src/fs/ramfs/ramfs.c:15-44 | one more entry, or -ENOMEM; the name leaves its buffer iff it has 255 bytes or more |
| Dentries.Fs.Detach | src/fs/ramfs/ramfs.c:129-137 | the node leaves its directory's list and the map |
| Dentries.Fs.PutUnlinked | src/fs/vfs.c:101-109 | giving up a removed node leaves all linked ones alive |
| Dentries.Fs.Mkdir | src/fs/vfs.c:260-271 | the map's effect and the error number; the name overruns iff it is created and too long |
| Dentries.Fs.Getdents | src/fs/vfs.c:249-258 | the lookup of a directory: its error number, and exactly one reference more on each directory above |
| Dentries.Fs.Rmdir | src/fs/vfs.c:273-282 | only empty directories go; -EBUSY for the root, -ENOTEMPTY, -ENOTDIR, -ENOENT |
| Dentries.Fs.Unlink | src/fs/vfs.c:434-443 | exactly the file goes and its data with it, or the error number; an open file's dentry stays |
| Dentries.Fs.DOpen | src/fs/vfs.c:284-326 | create, exclusive create and open in a directory, up to the new handle; the name overruns iff it is created and too long |
| Dentries.Fs.Open | src/fs/vfs.c:352-363 | the map's effect, the error number and the reference of the handle; the name overruns iff it is created and too long |
| Dentries.Fs.Close | src/fs/vfs.c:365-375 | the reference is given back |
| Dentries.DirectoryAnswers | src/fs/vfs.c:249-282 | each error number of mkdir, rmdir and getdents, with the condition for it |
| Dentries.FileAnswers | src/fs/vfs.c:284-363 | each error number of unlink and open, with the condition for it, and when a file is created |
| Dentries.ShortAnswers | src/fs/vfs.c:124-129 | all of them when memory lasts for the first components only |
| Dentries.MakeFirst | src/fs/ramfs/ramfs.c:15-44 | in an empty root: every name of 255 bytes or more leaves its buffer, every other one makes a directory |
| Dentries.LookUp | src/fs/vfs.c:249-258 | lookups of one directory until the root has 2^32 - 1 references |
| Dentries.RootFreed | src/fs/vfs.c:101-109 | from an empty file system: the root is freed while it is linked |

## Left out

- Kernel.Machine.PageFault: faults in kernel mode halt, as in the source; kernel stores to user pages are not modelled.
- Kernel.Machine.Fork: without a frame for the task structure the source writes through a null pointer. The areas are copied without a lack of heap memory, where the source stops. The copied register frame is not modelled.
- Kernel.Machine.Store: without a frame for the copy of a shared page the source copies to a null pointer.
- Kernel.Machine.Exec: arguments, registers and the entry point are not modelled; user code after exec needs an empty translation cache, which the source does not provide.
- Kernel.Machine.Exit: process 1 and the idle task do not exit; which task runs next is a parameter here and decided in `Scheduler`.
- Kernel.Machine.AccessKernelHalf: addresses between the halves never reach the page-fault handler and are not part of it.
- Conservation.ForkUseExit: neither the parent nor a process that was there before runs in between, a child of the child exits before the child goes on, and the kernel heap does not grow; the parent's pages stay write-protected. A child stops acting when fewer than two frames are free.
- Elf.DoExecElf: the file is already open; path lookup, closing, the entry point and the initial registers are not part of it.
- Elf.ProgramImage: the sizes and the end of the segment in the file fit 32 bits; where two segments share a page, the one the list search meets first wins, and only that search is specified.
- Heap.Heap.Kmalloc: frames are a number here; which frames the page tables are is modelled in `MapPage`, tied by `MapPage.MapHeap`. kzalloc's clearing is not modelled.
- Scheduler.Scheduler.Usleep: sleeping and the following schedule are one step; interrupts between the two are not modelled. Timer and wait lists are sequences, the run ring is a pointer structure. Signed overflow is taken as wrapping.
- Dentries.Fs.Unlink: what handles of the file find in the freed data.
- Dentries.Fs.Mkdir: paths have at least one component; for "/" the source goes on with a name it has not set. What a name that is too long overwrites is not modelled, and operations are limited to fewer than 2^32 walks and opens, beyond which `Dentries.RootFreed` is possible.
- RamFile.RamFile.Write: one handle per file; a second handle that truncates would leave the first behind the end, where the source gives writes no meaning. What an overrun destroys is not modelled.
- BootImage.ExtractTar: the image is well formed and has fewer than 2^31 members, which its 32-bit size implies; names have fewer than 100 bytes and a component. The reader ignores the prefix field of longer ones, and "/" alone is as in `Dentries.Fs.Mkdir`.
- Area lists are sequences: the links between `vm_area` structures are not modelled.
- Mount points, devfs, getdents, the file descriptor table and system call dispatch.
- The kernel's entries of the page tables are constants in `Kernel`; the first process and the idle task share the static table.
- Register save and restore, interrupts, boot, drivers, printing and symbol lookup.
