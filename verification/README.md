# Verified model of the kernel's memory, processes and libraries

This project models the core of a small 64-bit RISC-V teaching kernel and of its user library in Dafny 4.11, and proves
properties of the model. Check it with `dafny verify dfyconfig.toml`.

Everything the kernel does with memory happens in one flat physical memory: the free list lives inside the free frames,
the page tables and the user pages live in frames taken from it. The model keeps this. `PageMemory` is the allocator
and owns the words of all frames; the ghost map `role` says what each frame handed out is used for (a root, a middle or
a low page table, a user page, or plain data) and, for all but roots and plain frames, which table entry points to it.
Because a frame has one role, the trees of all processes are disjoint without saying so pair by pair.

| module | source | what it holds |
|---|---|---|
| `Sv39`, `PageTree` | `include/page.h` | words of frames, entry format, table walks; the tree-shape invariant of all tables at once |
| `AllocTracker`, `PageMemory` | `kernel/alloc-tracker.c`, `kernel/page.c` | tracker, free list, bump pointer |
| `PageTables`, `Walkers` | `kernel/page.c` | `map_page`, `unmap_page`; the three software walks and the walk of the hardware |
| `Teardown`, `Reaping` | `kernel/page.c`, `kernel/process.c`, `kernel/alloc-tracker.c` | `free_pagetable`, `process_free_userspace`, `free_proc` |
| `AddressSpace`, `HeapGrowth`, `Build`, `Fork` | `kernel/process.c`, `kernel/syscall.c` | building, growing and copying address spaces |
| `Elf`, `Tar` | `kernel/elf-loader.c`, `kernel/tar-parser.c` | loading a program, finding a file |
| `ProcTable` | `kernel/process.c`, `kernel/scheduler.c`, `kernel/syscall.c` | slots, states, scheduling |
| `Kernel`, `Loading`, `Syscalls`, `Boot` | `kernel/syscall.c`, `kernel/kernel.c` | the invariant of the whole kernel, the system calls that keep it, and the boot that establishes it |
| `Shipped` | `kernel.ld`, `bin/kernel.map`, `user/idle.map`, `user/shell.map` | the kernel and the programs as they are linked: boot and the first command succeed |
| `Runs` | `kernel/syscall.c`, `kernel/scheduler.c` | that invariant over whole runs, and each call as a step of a run |
| `Bytes`, `CopyToUser`, `DirectStores`, `Arguments` | `kernel/user.c`, `kernel/syscall.c`, `kernel/arguments.c` | memory byte by byte; writing to user memory through `walkaddr` and straight through the page table; argv |
| `KernelHeap`, `UserHeap`, `Break` | `kernel/heap.c`, `user/lib/malloc.c`, `user/lib/sbrk.c` | the two heaps; the two ends of the user heap in lock step |
| `Calendar`, `Format` | `kernel/time.c`, `kernel/common.c`, `kernel/virtio-emerg.c` | dates; number and string formatting |

Conventions. A frame is a physical page number: frame `f` occupies the addresses `[4096 f, 4096 f + 4096)`; a virtual
page is named by `va / 4096`. `PANIC` is a result (`None` or `false`) after which nothing is promised. A method that
can run out of memory names a number of frames with which it does not, and how many it takes at most: one for each page
it maps and one for each page table it may have to make (`PageTables.TableCost`). `Shipped` shows that the machine the
kernel is linked for has them. Shifts and masks are written as division and remainder. The number of
frames, of process slots and of tracker records is symbolic. Parameters carry what the model does not compute: the
answer of the kernel in `UserHeap`, the program headers and the three layout symbols in `Elf` and `Build`. In the layout
of `user.ld` the stack lies over the last image pages; the loader maps it after the image, and the pages it replaces stay
charged to the process.

## Where the code falls short of what it promises

Each of these is kept as the code has it, with the exact condition proved and, where the failure is one of behaviour,
a lemma at an input that shows it.

- `yield` starves processes: one that can run gets to run again if and only if fewer than two processes in lower
  slots can run (`ProcTable.RunsAgainIff`). With the shell and two commands, the second command never runs
  (`ProcTable.SecondCommandStarves`).
- Freeing a kernel heap block right after it was allocated restores the list if and only if the block was split, or
  the block behind it is not free (`KernelHeap.FreeUndoesMalloc`; `KernelHeap.CoalescingForgets`).
- Both `malloc`s round the request up with wrap-around: a kernel block is at least as large as requested if and only if
  the request is at most 2^64 - 8 (`KernelHeap.MallocServes`; `KernelHeap.WrappedRequestGetsNothing`).
- The user `malloc` hands the sum of size and header to `sbrk` as a signed long, and `sys_sbrk` accepts negative and zero
  increments without mapping anything. A block is as large as requested and inside the heap, extended by that increment,
  if and only if rounding did not wrap and, for a block at the end, rounded size plus header is at most 2^63 - 1
  (`UserHeap.MallocServes`). A request of 2^64 - 16 bytes calls `sbrk(0)` (`UserHeap.HugeRequestUnbacked`).
- `sys_sbrk` takes the heap below its start, but maps nothing there when it grows again. An address that `sbrk` hands out
  is mapped if and only if it is not below the start of the heap, or was mapped before (`Break.HandedOutIsMapped`). After
  `sbrk(-4096)` right after loading, `sbrk(8192)` hands out an unmapped page (`Break.ShrinkThenGrow`).
- Reaping a process frees every frame charged to its pid, and fork charges the child's frames to the parent. The other
  address spaces stay whole if and only if the pid is charged with none of their frames (`Reaping.FreeProc`,
  `Reaping.ReapingSparesOthersIff`). A parent that forks, exits and is reaped before its child takes the child's page
  table along (`Syscalls.OrphanLosesItsPages`).
- `sys_wait` does not check the status pointer. With a null pointer or one to writable user memory the invariant is
  kept; one into the identity map overwrites kernel memory, and one to an entry of the caller's own root table breaks the
  page tables (`Syscalls.SysWait`, `Syscalls.StatusAtPageTable`).
- A process that has exited can go on and call exec, and then always leaves the zombie state (`ProcTable.ZombieStep`,
  `ProcTable.ShellRevives`).
- The loader maps stack and first heap page over the image: an address of a segment reads its file byte if and only if
  its page is not mapped over, or the byte is zero (`Elf.ProgramReadsFile`; `Loading.LoadShort`).
- The scan of the archive adds a 64-bit step to its pointer, and characters below '0' count as negative digits. It moves
  forward if and only if the field is at least -511, or so negative that the pointer wraps below zero (`Tar.TurnIs`). A
  scan that stops at no header with a smaller field ends (`Tar.ScanEnds`); one that meets the field "0000000(000" behind
  a file of 3072 bytes goes back and forth for ever (`Tar.ScanLoops`, `Tar.BadDigits`).
- `free_all_tracked_for_pid` decrements the record counter twice per record (`Reaping.FreeAllTracked`).
- `alloc_pages(n)` records one page of the `n` (`PageMemory.PageMemory.BumpPages`).
- Decoding adds the two hours of the time zone, so encoding what was decoded gives the epoch plus 7200
  (`Calendar.ComputeDatetime`, `Calendar.DecodeThenEncode`).

`sys_sbrk` does not check the new end of the heap either. With the 64 MiB of free RAM that `kernel.ld` provides this does
no harm: the heap runs out of frames before it reaches the kernel (`Kernel.HeapStaysBelowKernel`), so every call that
returns and leaves the end above zero keeps the invariant. On a machine with more RAM the kernel would stay mapped if and
only if the new end were not above it (`Syscalls.KernelLeavesIff`).

## Model

| member | source | states |
|---|---|---|
| `Sv39.PteRoundTrip` | include/page.h:21-53 | an entry decodes to the frame and the permissions it was made from, and fits 64 bits |
| `Sv39.PteBits` | include/page.h:21-53 | in numbers: the low ten bits are 1 for V, 2 for R, 4 for W, 8 for X and 16 for U, added up, and nothing else; the frame starts at bit 10 |
| `Sv39.IndicesOfAddress` | include/page.h:37 | the three index fields of an address are those of its page number modulo 2^27 |
| `Sv39.JoinIndices` | include/page.h:37 | a page number is determined by its three indices |
| `PageTree.WalkStays` | kernel/page.c:114-133 | on a well-shaped tree a walk only meets tables of that tree, at the right level |
| `PageTree.WalkReaches` | kernel/page.c:114-133 | every table of a tree is reached by the walk of some page |
| `PageTree.UserFramesDistinct` | kernel/page.c:133 | two valid user entries that map the same frame are the same entry of the same address space |
| `PageTree.TreeFrame` | kernel/page.c:106-157 | the tree shape depends on the words of table frames only |
| `PageTree.EntryBits` | kernel/page.c:116-133 | in every tree, the low ten bits of a valid entry are 1 alone when it points to a table, and in a leaf below 32 with at least one of 2, 4, 8: no entry is global |
| `AllocTracker.Tracker.TrackAlloc` | kernel/alloc-tracker.c:9-21 | the first unused slot takes the record; a full table drops it silently |
| `AllocTracker.Tracker.TrackFree` | kernel/alloc-tracker.c:23-31 | the record of the frame goes, if there is one; all others stay |
| `PageMemory.Conservation` | kernel/page.c:43-104 | free frames and frames handed out together are all frames below the bump pointer |
| `PageMemory.PopFree` | kernel/page.c:43-50 | the link word of the head frame leads to the rest of the list, which stays acyclic |
| `PageMemory.PushFree` | kernel/page.c:91-97 | writing the link into a frame in use and making it the head extends the list by that frame |
| `PageMemory.PageMemory.constructor` | include/page.h:61 | at the start nothing is free or handed out |
| `PageMemory.PageMemory.AllocFreeList` | kernel/page.c:43-50 | the head frame is removed, 0 is returned exactly when the list is empty |
| `PageMemory.PageMemory.AllocPage` | kernel/page.c:56-74 | panics exactly when no frame is left; the frame was not handed out, is zeroed, and is charged to the current pid |
| `PageMemory.PageMemory.BumpPages` | kernel/page.c:76-86 | n contiguous zeroed frames that were not handed out; panics exactly when they do not fit; one record |
| `PageMemory.PageMemory.AllocPages` | kernel/page.c:53-88 | both branches: contiguous, zeroed, not in use before, inside RAM, exact panic condition |
| `PageMemory.PageMemory.FreePage` | kernel/page.c:91-97 | the frame becomes the head of the list and leaves the frames in use; its record goes, no other |
| `PageTables.AddTable` | kernel/page.c:116-130 | hanging a fresh zeroed frame under an invalid entry keeps every lookup of every tree and the invariants |
| `PageTables.SetLeafMaps` | kernel/page.c:133 | writing a leaf changes one lookup of one tree and keeps the invariants |
| `PageTables.MapPage` | kernel/page.c:106-136 | panics exactly on an unaligned address or when the missing tables cannot be allocated; else one page of one tree is mapped and nothing else changes |
| `PageTables.TablesTurn` | kernel/page.c:116-130 | going through the pages of a range in order, the tables still missing for the next page are paid for by what the count of 512-page and 512 * 512-page blocks grows by |
| `PageTables.MapRefines` | kernel/page.c:106-136 | seen as a finite map from pages to frames and permissions, `map_page` sets one key of one root and leaves every other root alone |
| `PageTables.UnmapPage` | kernel/page.c:138-157 | panics exactly on an unaligned address; else one translation of one tree disappears and the page is no longer owned |
| `PageTables.UnmapRefines` | kernel/page.c:138-157 | as a finite map, one key of one root is removed |
| `Walkers.HardwareReachesLeaf` | include/page.h:37-53 | on the kernel's trees the Sv39 walk meets no superpage and ends at the level-0 entry that the software walk finds |
| `Walkers.WalkPage` | kernel/page.c:219-228 | the frame of the leaf entry, or 0 when some entry on the way is not valid |
| `Walkers.Walk` | kernel/page.c:230-251 | the slot of the level-0 entry, or null when a table is missing |
| `Walkers.WalkAddr` | kernel/page.c:254-281 | 0 for kernel addresses and for pages without a permission bit, else frame plus offset |
| `Walkers.WalkAddrAgreesWithHardware` | kernel/page.c:254-281 | `walkaddr` and the hardware translate alike if and only if the leaf is not writable without being readable |
| `Kernel.LiveWalkAgrees` | kernel/page.c:254-281 | no live address space has such a leaf: below the kernel `walkaddr` and the hardware agree everywhere |
| `Kernel.LiveEntries` | kernel/process.c:96-140 | every translation of every live process has the low ten bits 15 (kernel page at its own address), or 23 or 31 (user page, without or with X) in a frame of the free RAM |
| `Walkers.WalkAddrExtendsWalkPage` | kernel/page.c:219-281 | both walks answer exactly for the pages of the finite map, and differ by the page offset |
| `Teardown.FreePagetable` | kernel/page.c:187-217 | everything under the table is freed once, supervisor leaves are not, no other frame changes, and links written into freed frames are never read as entries |
| `Teardown.FreeUserLeaf` | kernel/process.c:278-300 | one turn of the leaf pass: the user page at the address is unmapped and freed; if there is none, nothing changes |
| `Teardown.FreeUserspace` | kernel/process.c:267-313 | for all ends for which the leaf pass ends: the address space is dismantled and the free counter grows by exactly the number of frames it had |
| `Teardown.UnderIsReachable` | kernel/process.c:267-313 | what is freed is exactly what a walk from the root can reach: its tables and its user pages |
| `Teardown.SurvivorsUntouched` | kernel/process.c:267-313 | every root still in use translates, and reads, as before |
| `Teardown.OtherRootSurvives` | kernel/process.c:267-313 | taking one address space apart leaves every other root in use |
| `AddressSpace.MapKernel` | kernel/process.c:96-100 | the loop identity-maps exactly [kernel base, end of RAM) as supervisor pages; no panic with a frame for each block of 512 pages and of 512 * 512 pages that the range meets, and no more are taken |
| `AddressSpace.MapMmioRange` | kernel/page.c:165-173 | the pages of the range map the frames of the device registers in order, no other page changes; the same count of frames |
| `HeapGrowth.MapFreshRange` | kernel/syscall.c:55-60 | each page of the range gets a zeroed frame of its own that was not in use; all other pages of the process are kept; no panic with a frame for each page and the tables counted for the range; at least a frame for each page is taken, at most that number |
| `Build.MapImage` | kernel/process.c:104-116 | page i of the program is a frame of its own that holds what frame i of the flat image holds |
| `Build.MapStackAndHeap` | kernel/process.c:129-140 | stack pages including the one at `stack_top`, and one heap page, all zeroed and fresh |
| `Build.BuildSpace` | kernel/process.c:158-213 | page by page: zeroed stack and first heap page, where these do not lie the image, the kernel, and nothing else; no other address space changes; no panic with `BuildCost` frames, and no more are taken |
| `Elf.Extent` | kernel/elf-loader.c:63-74 | the lowest start and the highest end of the loadable segments |
| `Elf.CopySegments` | kernel/elf-loader.c:87-96 | every write stays inside the flat image, and the image holds the file parts of all segments, zero elsewhere |
| `Elf.ImageHoldsSegments` | kernel/elf-loader.c:87-96 | later segments do not overwrite earlier ones: each address of a segment holds its file byte, or zero past the file part |
| `Elf.ExtractImage` | kernel/elf-loader.c:54-96 | size pass, zero fill and copy: the pages from the user base to the highest end of the segments; exact panic condition |
| `Elf.TopPageIs` | kernel/elf-loader.c:63-79 | no segment reaches beyond the top page of the image, and one reaches it |
| `Elf.ProgramReads` | kernel/elf-loader.c:62-107 | in the loaded program, reading a segment address by translation gives zero on the pages of the stack and the first heap page, elsewhere the file byte, or zero past the file part |
| `Elf.GapReads` | kernel/elf-loader.c:83-96 | an address of the image that belongs to no segment reads zero |
| `Elf.ProgramReadsFile` | kernel/process.c:181-213 | the file byte is read if and only if the page is not mapped over or the byte is zero |
| `Loading.LoadProgram` | kernel/elf-loader.c:54-107 | image and address space together: contents, translations, no other address space disturbed; no panic when the image fits above the bump pointer and `LoadCost` frames are left; the pages of the segments can be executed; heap end and stack top of the process |
| `Loading.ProgramRuns` | kernel/process.c:181-205 | every page of a loadable segment has the low bits 31 (V, R, W, X, U), so it can be executed; 23 (no X) where stack or heap page replace it |
| `Loading.CreatedSpace` | kernel/process.c:158-213 | a program that fits gets an address space that satisfies the invariant |
| `Loading.StackHidesBytes` | kernel/process.c:197-205 | a program of 17 pages: in any state that loading it leads to, its file byte 7 at the bottom of the stack reads as 0 |
| `Loading.LoadShort` | kernel/process.c:181-205 | that program is loaded when there are 59 frames and the tables for the kernel, and then the byte reads as 0 |
| `Loading.StackIsReady` | kernel/process.c:197-205 | after loading every byte of the stack is mapped, writable and zero, with the low bits 23 (V, R, W, U) |
| `Tar.Lookup` | kernel/tar-parser.c:6-36 | on an archive of files, NULL if and only if no file has the name; otherwise the contents of the file with the name that no earlier file has; the scan ends |
| `Tar.ForwardIff` | kernel/tar-parser.c:27-32 | for a field of value s, negative digits included, the step as a signed number is at least 512 if and only if s >= -511, and then spans header and contents; else it is at most 0 |
| `Tar.TurnIs` | kernel/tar-parser.c:9-33 | the wrapped pointer after one turn, and when it has moved forward |
| `Tar.ScanEnds` | kernel/tar-parser.c:9-33 | a scan that stops at no header with a field below -511 ends after at most one turn per block; what the other offsets hold does not matter |
| `Tar.ScanLoops` | kernel/tar-parser.c:9-33 | a file of 3072 bytes followed by a field of value -4096: the scan never ends |
| `Tar.BadDigits` | kernel/tar-parser.c:28-30 | "00000000(00" has the value -512 and moves the scan by 0, "0000000(000" has the value -4096 and moves it by -3584 |
| `Tar.SameName` | kernel/tar-parser.c:18 | the comparison succeeds exactly for the stored name and never runs past its NUL |
| `Fork.ClonePage` | kernel/syscall.c:161-163 | a page copied to a fresh frame and mapped RWXU in the child; no other page of the child and no page in use changes |
| `Fork.CloneUserPages` | kernel/syscall.c:158-164 | every page of the range is mapped in the child exactly when the parent maps it, with equal contents |
| `Fork.ForkSpace` | kernel/syscall.c:139-164 | the child's translations, page by page; the parent and all others are untouched; no panic with a frame for each page the parent maps and the tables for kernel and user pages, and no more are taken |
| `Fork.CopyTurn` | kernel/syscall.c:158-164 | a page the parent does not map costs the copy nothing, each other page a frame and the tables missing for it |
| `Fork.ForkCopies` | kernel/syscall.c:153-164 | after fork the child reads what the parent reads, and everyone else reads what they read before |
| `Fork.ForkIsDeep` | kernel/syscall.c:161-163 | the child's pages are pairwise distinct and were not in use |
| `Fork.StoresArePrivate` | kernel/syscall.c:153-164 | a user store changes one word of one address space and no translation |
| `CopyToUser.Copy` | kernel/user.c:103-118 | 0 exactly when every address of the range translates; then the range reads as the source, and no other user byte of any process and no translation changes; on -1 the bytes before the first untranslated address are written |
| `CopyToUser.SameByte` | kernel/user.c:106-116 | two user addresses share a physical byte only if they are the same address of the same address space |
| `Bytes.PutThenGet` | kernel/user.c:114 | writing a byte of a word changes that byte only |
| `Reaping.FreePagesRange` | kernel/page.c:99-104 | the frames of the range are freed once each |
| `Reaping.FreeAllTracked` | kernel/alloc-tracker.c:61-94 | every frame still charged to the pid is freed once, whatever its use, and no record of the pid remains; the trees keep their shape when those frames are plain; the counter drops by two per record |
| `Reaping.FreeProc` | kernel/process.c:229-265 | image, address space and all frames charged to the pid are freed once, every other frame in use keeps its contents, no record of the pid remains; every other address space stays whole if and only if the pid is charged with none of its frames |
| `Reaping.OwnsNothingElseIff` | kernel/alloc-tracker.c:68-80 | the condition for reaping: no frame charged to the pid is another root or hangs under one |
| `Reaping.ReapingSparesOthersIff` | kernel/process.c:229-265 | after reaping, every frame of every other address space is still in use if and only if that condition held |
| `Kernel.UnsafeReapBreaks` | kernel/process.c:229-265 | reaping a process charged with a frame of another live one breaks the invariant of the kernel |
| `Syscalls.ForkSpoilsReaping` | kernel/page.c:61 | after a fork whose page table was recorded, the parent does not meet that condition while the child lives |
| `Syscalls.OrphanLosesItsPages` | kernel/syscall.c:285-321 | fork, exit of the parent, reaping of the parent: the root of the live child's page table is free |
| `ProcTable.ApplyInv` | kernel/scheduler.c:17-94 | each of fork, exec, exit, wait and yield keeps the table invariant |
| `ProcTable.RunInv` | kernel/scheduler.c:17-94 | over every run: exact process count, only the current process can be RUNNING, pids are slot + 1, free slots have pid 0 |
| `ProcTable.PidsDistinct` | kernel/process.c:22-32 | live pids are distinct |
| `ProcTable.YieldMoves` | kernel/scheduler.c:17-78 | yield changes states only: a running caller becomes runnable, the chosen process running if it was runnable, and nothing else in any slot |
| `ProcTable.ExecMoves` | kernel/syscall.c:214-272 | exec changes the caller's space and leaves it runnable; pids, parents and exit codes of all stay, and the spaces of the others |
| `ProcTable.ZombieStep` | kernel/syscall.c:276-321 | a zombie stays one through every step but two, after which it is none: its parent's wait reaps it, or it goes on and calls exec; its parent stays, and its exit code unless it exits again |
| `ProcTable.ShellRevives` | kernel/syscall.c:276-283 | a shell that exits and then calls exec can run again |
| `ProcTable.DeadStayDead` | kernel/syscall.c:276-283 | a process that takes no step after exit is never scheduled again, in any run, and its exit code stays |
| `ProcTable.IdleOnlyWhenAlone` | kernel/scheduler.c:28-51 | idle is chosen only when no process but the current one can run |
| `ProcTable.NextIs` | kernel/scheduler.c:28-65 | the first process that can run, other than the current one, runs next |
| `ProcTable.Alternates` | kernel/scheduler.c:28-65 | with exactly two processes that can run, yields alternate them strictly |
| `ProcTable.LowSlotsWin` | kernel/scheduler.c:28-45 | while two lower slots can run, nothing above the second is ever chosen |
| `ProcTable.RunsAgainIff` | kernel/scheduler.c:28-65 | a process that can run is scheduled again, under yields, if and only if fewer than two lower slots can run |
| `ProcTable.SecondCommandStarves` | kernel/scheduler.c:28-65 | with idle, the shell and two commands that only yield, the second command never runs |
| `ProcTable.ProcessTable.constructor` | kernel/kernel.c:63-76 | the table after booting idle and the shell satisfies the invariant |
| `ProcTable.ProcessTable.AllocFreeProc` | kernel/process.c:22-32 | the first unused slot, wiped and given its pid |
| `ProcTable.ProcessTable.Yield` | kernel/scheduler.c:17-78 | the array after the call is what the specification of yield says |
| `ProcTable.ProcessTable.FindZombieChild` | kernel/syscall.c:291-298 | the first zombie whose parent is the caller |
| `ProcTable.ProcessTable.Free` | kernel/process.c:251-261 | the PCB is reset and the count drops by one; no other slot changes |
| `Boot.CreateProcess` | kernel/process.c:90-151 | a program loaded into a new process: image, translations and contents, no other address space disturbed, no panic while there is room for `LoadCost` frames, and no more are taken |
| `Boot.PagingInit` | kernel/page.c:18-40 | the kernel's own page table maps [kernel base, end of the kernel heap) and the virtio registers at their addresses, and nothing else |
| `Boot.KernelPagingBits` | kernel/page.c:24-33 | in numbers: addresses 0x10001000 to 0x10008fff with the low bits 7, the kernel with 15, each at its own address; nothing else is mapped |
| `Boot.Start` | kernel/kernel.c:55-78 | idle and the shell are created without panic while there is room for both, and then the invariant of the whole kernel holds; both programs can be executed |
| `Boot.KernelMain` | kernel/kernel.c:46-78 | paging and both processes; the kernel's page table is still as `paging_init` left it at the first yield |
| `Shipped.KernelTables` | bin/kernel.map:3-6681 | identity-mapping the kernel takes 35 tables as linked, and at most 1058 for any kernel image up to 2 GiB |
| `Shipped.ShellCopyCost` | kernel/syscall.c:139-164 | copying the freshly loaded shell takes at most 88 frames as linked |
| `Shipped.PowerOn` | kernel/kernel.c:34-78 | on the linked machine, whatever the RAM and the bytes of the programs hold, boot returns a process table in which the invariant of the whole kernel holds: no panic; the page of the entry point of both programs has the low bits 31 |
| `Shipped.FirstCommand` | kernel/kernel.c:97-99 | from power-on the shell is scheduled and forks, its child gets pid 3, is scheduled and execs any program that takes at most 8192 frames, which is then loaded in its address space, and the shell runs again; no panic, and the invariant holds; the pages of its segments can be executed |
| `Shipped.ShippedProgramsFit` | user/shell.map:1620 | `idle.elf` and `shell.elf`, with the headers and symbols they are linked with, are programs this boot can load, and 64 MiB of RAM make a small machine; their stack lies over the image |
| `Kernel.ForkInv` | kernel/syscall.c:105-170 | fork keeps the invariant of the whole kernel, for every process at once |
| `Kernel.SbrkInv` | kernel/syscall.c:46-65 | so does sbrk |
| `Kernel.PagesTakeFrames` | kernel/page.c:133 | a range of n user pages takes n different frames |
| `Kernel.HeapStaysBelowKernel` | kernel/syscall.c:54-60 | with fewer frames than pages between heap start and kernel, an sbrk that returns leaves the end at or below the kernel |
| `Kernel.ExecInv` | kernel/syscall.c:214-222 | so does replacing an address space |
| `Kernel.ReapKernelInv` | kernel/process.c:229-265 | so does reaping, for a pid that is charged with nothing of other live processes |
| `Kernel.TableStep` | kernel/scheduler.c:17-78 | so does every step of the table that keeps the live slots and their spaces |
| `Syscalls.SysFork` | kernel/syscall.c:105-170 | -1 exactly when no slot is free and then nothing changes; else a child in the first free slot with a deep copy of the address space; invariant kept; no panic with more than `SpaceCost` frames, which counts the pages the parent maps; the new PCB field by field, with the caller as parent, and no other slot changes |
| `Syscalls.ForkRuns` | kernel/syscall.c:153-164 | the child maps each page from the user base on that the parent maps and that begins below its heap end or stack top, with the same contents and the low bits 31, and no other page below the kernel |
| `Syscalls.SysSbrk` | kernel/syscall.c:46-65 | for every long: the old end is returned, new pages are fresh and zeroed, all other pages are kept; a panic when there are fewer frames than new pages, none when there are enough for the pages and the tables counted for them; the invariant is kept when the new end lies between 0 and the kernel, and on a small machine it never lies above; new pages have the low bits 23; no other slot changes |
| `Syscalls.KernelLeavesIff` | kernel/syscall.c:54-60 | the kernel stays mapped in the process if and only if the new end is not above it |
| `Syscalls.SysExec` | kernel/syscall.c:187-274 | the old address space is dismantled, the new one holds the program, all others are kept, then the process yields; no panic when the image fits above the bump pointer and `LoadCost` frames are left; the pages of its segments can be executed, and heap end and stack top are those of the program |
| `Syscalls.ExecReads` | kernel/syscall.c:214-222 | after exec, a segment address reads zero on the pages of the stack and the first heap page, elsewhere the file byte, or zero past the file part |
| `Syscalls.SysExit` | kernel/syscall.c:276-283 | the caller becomes a zombie with its exit code, nothing else in the table changes; invariant kept |
| `Syscalls.SysYield` | kernel/scheduler.c:17-78 | yield on the whole kernel; invariant kept |
| `Syscalls.SysWait` | kernel/syscall.c:285-321 | one turn of the loop, for every status pointer: the exit code of the first zombie child is stored, the child reaped with all it holds and its pid returned, or the caller yields and no memory changes; the invariant is kept when the pointer is null or writable user memory and the pid is charged with nothing of others; other pointers fault or hit kernel memory; the slot of a reaped child is cleared and no other changes |
| `Syscalls.StatusRead` | kernel/syscall.c:302-306 | the caller then reads the exit code at its pointer, and no other user byte of any process has changed |
| `Syscalls.StatusValue` | kernel/syscall.c:302-306 | read as an int, lowest byte first, the four bytes are the exit code modulo 2^32 |
| `Syscalls.StatusAtPageTable` | kernel/syscall.c:302-306 | a pointer to a valid entry of the caller's root table does not fault, and with an even exit code the trees are broken |
| `DirectStores.AfterSeen` | kernel/syscall.c:302-306 | stores through the page table to writable user pages change those bytes of that address space, no other user byte, and no translation |
| `DirectStores.StoreThrough` | kernel/arguments.c:24-26 | memcpy to user addresses, byte by byte through the page table |
| `Runs.NextKeeps` | kernel/syscall.c:46-321 | each step (user store, sbrk, fork, exec, exit, yield, reap), described by what the call promises, keeps the invariant of the whole kernel |
| `Runs.RunInv` | kernel/scheduler.c:17-78 | that invariant holds over runs of any length |
| `Runs.ExitCodeArrives` | kernel/syscall.c:276-321 | over any run, from a child's exit(code) to the wait of its parent that reaps it, if the child only yields in between: afterwards the parent reads the code at its status pointer |
| `Runs.CodeKept` | kernel/syscall.c:276-283 | until then the code and the parent stay in the process table |
| `Runs.ForkCall` | kernel/syscall.c:105-170 | a fork that returns a child is a step of a run; one that returns -1 changes nothing; no panic with more than `SpaceCost` frames |
| `Runs.SbrkCall` | kernel/syscall.c:46-65 | an sbrk that returns and leaves the end above zero is a step; no panic with `PagesCost` frames |
| `Runs.ExecCall` | kernel/syscall.c:187-274 | so is an exec; no panic when the image fits above the bump pointer and `LoadCost` frames are left |
| `Runs.WaitCall` | kernel/syscall.c:285-321 | so is a turn of wait that yields or reaps safely |
| `Runs.YieldCall` | kernel/scheduler.c:17-78 | so is a yield |
| `Runs.ExitCall` | kernel/syscall.c:276-283 | so is an exit |
| `KernelHeap.TilesTotal` | kernel/heap.c:19-72 | a tiling accounts for every byte: sizes plus 24 per block sum to the heap |
| `KernelHeap.TakeTiles` | kernel/heap.c:36-52 | taking a block, split or whole, keeps the tiling |
| `KernelHeap.GiveTiles` | kernel/heap.c:62-71 | freeing a block, merged or not, keeps the tiling |
| `KernelHeap.BlocksDisjoint` | kernel/heap.c:8-12 | no byte belongs to two blocks |
| `KernelHeap.FreeUndoesMalloc` | kernel/heap.c:31-72 | freeing what was just taken restores the list if and only if it was split or nothing free lies behind it |
| `KernelHeap.CoalescingForgets` | kernel/heap.c:66-71 | two neighbours, one taken whole and freed: one block is left |
| `KernelHeap.PayloadMemory` | kernel/heap.c:8-12 | whatever is written into payloads, the headers still spell out the list |
| `KernelHeap.MallocServes` | kernel/heap.c:31-57 | the block lies inside the heap, is live, and is large enough if and only if rounding does not wrap |
| `KernelHeap.MallocWastes` | kernel/heap.c:36-52 | the first block that fits is taken; one larger by 32 bytes or more is cut to the rounded request and the rest less 24 is free behind it, any other is taken whole, with less than 32 bytes of waste; no other block changes |
| `KernelHeap.FreeMerges` | kernel/heap.c:62-71 | one free block of both sizes plus 24 in the place of the freed block and its free neighbour, or just the freed one; no other block changes |
| `KernelHeap.WrappedRequestGetsNothing` | kernel/heap.c:14 | a request of 2^64 - 1 bytes gets a block without payload |
| `KernelHeap.Heap.Malloc` | kernel/heap.c:31-57 | the lowest free block that fits is taken; NULL exactly when none fits; the headers in memory spell out the new list |
| `KernelHeap.Heap.Free` | kernel/heap.c:59-72 | the block is freed and merged with a free block behind it; NULL does nothing |
| `KernelHeap.Heap.constructor` | kernel/heap.c:19-29 | one free block fills the heap |
| `UserHeap.TakeSound` | user/lib/malloc.c:14-34 | taking a block of the free list, split or whole: the blocks tile the heap, and exactly one more is live, which was free and is large enough |
| `UserHeap.AppendSound` | user/lib/malloc.c:40-48 | so does a block appended at the break, which no old block overlaps |
| `UserHeap.GiveSound` | user/lib/malloc.c:51-57 | freeing keeps the tiling, and exactly one block less is live |
| `UserHeap.PayloadsDisjoint` | user/lib/malloc.c:4-57 | live payloads lie inside the heap, pairwise disjoint and clear of every header |
| `UserHeap.PayloadMemory` | user/lib/malloc.c:4-57 | whatever a program writes into its live payloads, both lists stay intact |
| `UserHeap.MallocServes` | user/lib/malloc.c:4-49 | one new live block, disjoint from all others; as large as requested and inside the heap, extended by what `sbrk` was asked for, if and only if rounding did not wrap and a block at the end fits a long |
| `UserHeap.MallocWastes` | user/lib/malloc.c:14-48 | the first block of the list that fits is taken; one larger by 24 bytes or more is cut to the rounded request and the rest less 16 takes its place in the list, any other is taken whole, with less than 24 bytes of waste; without one the list stays |
| `UserHeap.HugeRequestUnbacked` | user/lib/malloc.c:41 | a request of 2^64 - 16 bytes asks `sbrk` for nothing and gets a block that ends 2^64 bytes beyond the heap |
| `UserHeap.WrappedRequestGetsNothing` | user/lib/malloc.c:12 | a request of 2^64 - 1 bytes gets a block without payload |
| `UserHeap.FreeThenMalloc` | user/lib/malloc.c:4-57 | the next request of its size gets the freed block back, and the heap is as before |
| `UserHeap.Library.Sbrk` | user/lib/sbrk.c:5-19 | the variable moves by the increment, modulo 2^64, exactly when the kernel agrees, and the old break is returned |
| `UserHeap.Library.Malloc` | user/lib/malloc.c:4-49 | first fit in the list, else one block more at the break when size plus header is a positive long that stays in the address range, NULL exactly when nothing fits and the kernel refuses; in the remaining case only a header is written at the break and the variable moves; the search ends |
| `UserHeap.Library.Free` | user/lib/malloc.c:51-57 | the block is pushed on the list; NULL does nothing |
| `Break.UserSbrk` | user/lib/sbrk.c:5-19 | sbrk on top of `sys_sbrk`, with its variable in the process's own page: both ends move by the increment and stay one page apart, wherever the end goes |
| `Break.HandedOutIsMapped` | kernel/syscall.c:46-65 | an address that sbrk hands out is mapped for the program to read and write if and only if it is not below the start of the heap, or was mapped before |
| `Break.ShrinkThenGrow` | user/lib/sbrk.c:5-19 | right after loading, sbrk(-4096) and then sbrk(8192), which hands out a page that is not mapped |
| `Break.BlocksMapped` | user/lib/malloc.c:4-57 | in every state of a run, every byte of every block on the user heap is mapped for reading and writing in the process's own page table |
| `Break.NewBlockMapped` | user/lib/malloc.c:40-48 | so is a block that malloc puts at the break, when its size fits a long |
| `Break.NextKeeps` | kernel/syscall.c:46-321 | each step (user store, sbrk, fork, exec, exit, yield, reap) keeps the kernel's invariant and the lock step in every process |
| `Break.RunInStep` | user/lib/sbrk.c:3-19 | over every run, in every process, `heap_end` is the break plus one page |
| `Break.CreatedInStep` | kernel/process.c:137-146 | a program loaded at boot starts in step |
| `Break.LoadedCell` | kernel/process.c:181-217 | after exec the variable reads as zero, because its bytes in the program do, or because its page is a zeroed one |
| `Arguments.RegionsDisjoint` | kernel/arguments.c:15-42 | the strings and the array are 8-aligned, below the old stack pointer, and pairwise disjoint |
| `Arguments.RegionsTight` | kernel/arguments.c:15-42 | at most seven bytes are skipped between one region and the next |
| `Arguments.StackUse` | kernel/arguments.c:21-37 | eight arguments take at most 1096 bytes, so the panics are unreachable on a stack of that size |
| `Arguments.UserStack.SetupUserArguments` | kernel/arguments.c:10-45 | through its page table the program finds argv[i] pointing to a copy of string i and argv[argc] NULL; no byte outside, of any process, and no translation changes; panics exactly when the layout does not fit |
| `Calendar.ComputeEpoch` | kernel/time.c:8-22 | the seconds of the date, modulo 2^64 |
| `Calendar.ComputeDatetimeFromEpoch` | kernel/time.c:24-55 | the date of the epoch plus 7200; both loops end, and the month table is never overrun; a valid date of the right weekday whose seconds are the epoch plus 7200 |
| `Calendar.ComputeDatetime` | kernel/time.c:57-63 | a valid date whose seconds are build time plus uptime plus 7200, on the right weekday |
| `Calendar.DaysBeforeClosed` | kernel/time.c:10-12 | the year loop adds up to the closed form of the Gregorian calendar |
| `Calendar.MonthClosed` | kernel/time.c:13-19 | the days before month M are (367 M - 362) / 12, less one from March on in leap years and two in others; every month has 28 to 31 days |
| `Calendar.SecondsClosed` | kernel/time.c:8-22 | the whole encoding in closed form, without loops or tables |
| `Calendar.EpochIsThursday` | kernel/time.c:53-54 | second 0 decodes to Thursday, 1 January 1970 |
| `Calendar.DecodeThenEncode` | kernel/time.c:8-55 | every second decodes to a valid date that encodes to it |
| `Calendar.EncodeThenDecode` | kernel/time.c:8-55 | every valid date from 1970 on survives encoding and decoding |
| `Calendar.Monotone` | kernel/time.c:8-22 | the order of dates field by field is the order of their seconds |
| `Calendar.WeekdayRight` | kernel/time.c:53-54 | counting from a Thursday gives the weekday of Sakamoto's congruence |
| `Format.DigitsDenote` | kernel/common.c:5-22 | the digits read back as the number, without a leading zero, in every base |
| `Format.UintFits` | kernel/common.c:6 | at most 32 digits, ten in base ten: the buffers of 33 characters suffice |
| `Format.PieceReads` | kernel/common.c:52-99 | %u, %x and %d read back as the argument, with a minus sign for negative ones, %p as its low 32 bits behind 0x; %s and %c are copied, an unknown directive stands for itself |
| `Format.ExpandText` | kernel/common.c:37-108 | text without a percent sign is copied |
| `Format.ExpandDirective` | kernel/common.c:45-99 | a directive uses up one argument, %% and an unknown one none, and the rest follows |
| `Format.ItoaUnsigned` | kernel/common.c:5-22 | the digits of the number, or the empty string for a base outside 2..16; the buffer is never overrun |
| `Format.ItoaSigned` | kernel/common.c:24-35 | a minus sign and the digits in base ten, the unsigned value in other bases |
| `Format.CutConcat` | kernel/common.c:37-108 | cutting a concatenation is cutting its parts in turn |
| `Format.Kvnprintf` | kernel/common.c:37-108 | exactly the first size - 1 characters of the unbounded expansion, then NUL, and no character outside |
| `Format.LogLine` | kernel/virtio-emerg.c:40-84 | three chained calls leave the concatenation of the three expansions, cut to 511 characters |
| `Format.VirtioEmergLog` | kernel/virtio-emerg.c:40-55 | the line is "[level] ", the message and a newline, cut to 511 characters |

## Left out

Weaker than the code, or than what one might expect of it:

- PageMemory.PageMemory.AllocPages: a request for 0 pages is excluded, where the code would hand out the frame at the bump pointer and not move it, and so is a byte count that wraps 64 bits; no caller makes either.
- PageTables.MapPage: flags are limited to V, R, W, X and U, which is what every caller passes.
- Walkers.Walk: the branch that allocates tables is not modelled; no caller asks for it.
- Walkers.HardwareReachesLeaf: permission checks, accessed and dirty bits and the canonical upper half of the hardware walk are not modelled.
- Syscalls.SysSbrk: pages are not unmapped when the heap shrinks, as in the code. The branch that returns -1 cannot be reached, since the allocator panics first.
- Syscalls.SysExec: the page that holds the arguments (one frame more than `LoadCost` counts), the copying of the arguments, the trap frame and the name are not part of the step; `Arguments` models the argument layout by itself. A program that is not found, and an argument count above 8, are not modelled.
- Syscalls.SysFork: the trap frame page is allocated, stays out of every address space and is never given back, as in the code; its contents are not modelled. Every frame of the child is charged to the parent's pid, as in the code.
- Syscalls.SysWait: one turn of the loop. A status pointer that is not a multiple of four is stored byte by byte; after a store into kernel memory nothing more is modelled. Without `ReapSafe` the invariant is not promised, and `Kernel.UnsafeReapBreaks` says why.
- Kernel.ReapKernelInv: requires `ReapSafe`, that no frame charged to the pid belongs to another address space or image.
- Shipped.FirstCommand: the same holds of its exec.
- Runs.RunInv: on a small machine (`Config.SmallRam`); a wait that reaps unsafely or has a status pointer that is neither null nor writable user memory, and an sbrk to below address 0, are not steps.
- Runs.ExitCodeArrives: the wait is a step of the run, so its status pointer is writable user memory and it reaps safely.
- Reaping.FreeAllTracked: the record counter is an unbounded integer here; the code's counter wraps below zero.
- ProcTable.ZombieStep: a zombie that goes on and execs leaves the state; the kernel does not stop it. Idle may be scheduled in any state.
- ProcTable.ProcessTable.Yield: the switch of address space and stack is an assignment to the current slot.
- Break.RunInStep: the same steps, and the program writes its variable only through sbrk.c, a status pointer included; `malloc` shares the heap with no direct call of `sbrk`.
- Break.HandedOutIsMapped: says nothing of addresses below the start of the heap that were mapped before as something else, such as a stack that ends there; they stay what they were.
- Break.UserSbrk: the new end stays at or above the start of the heap; `Syscalls.SysSbrk` by itself is modelled for every long.
- KernelHeap.Heap.Malloc: memory is a map from word addresses; the int `free` is a word of its own.
- Arguments.UserStack.SetupUserArguments: each row holds a NUL, as the caller ensures; without one the code reads into the next row.
- Calendar.ComputeDatetimeFromEpoch: the year must fit an int, beyond which the code overflows.
- Format.ItoaSigned: negating the smallest int, which C leaves undefined, is taken to wrap around.
- Tar.Lookup: the archive is well formed; where the scan goes on other archives is `Tar.TurnIs`.
- Teardown.FreeUserspace: the rounded end is not the last page of the address range, where the loop of the code would not end.
- Elf.ExtractImage: loadable segments are disjoint, inside the file and the 39-bit address space, and start at or above the user base, the lowest in its first page; the loader checks none of this.

Modelled on values: the words of physical memory, of the heaps and of the user stack are maps in a field that the
methods reassign, not arrays; each word is one integer. Frames are read and written one word or one byte at a time.

Not modelled:

- Trap entry and return, `satp`, `sfence`, the SUM bit, interrupts: hardware effects.
- UART, virtio, SBI, the emergency console and all logging side effects.
- Symbol lookup in the ELF file: its results are parameters.
- The IPC mailbox, the string library, the shell, the servers and the user programs.
- The bus scan, the test of the date and the debug dumps of `kernel_main`.
- The commented-out round-robin `yield`.
- `virtio_emerg_log_ext` and `virtio_emerg_log_va` differ from `virtio_emerg_log` in the first format string only.
