/** Boot: from a machine with no processes to the first state in which the invariant of the kernel holds. */
module Boot {
  import opened Wrappers
  import opened Sv39
  import opened PageTree
  import opened PageMemory
  import opened PageTables
  import opened Teardown
  import opened AddressSpace
  import opened Build
  import opened Elf
  import opened Bytes
  import opened Kernel
  import opened Loading
  import opened Syscalls
  import P = ProcTable

  /** The two programs of kernel_main. */
  datatype Binary = Binary(file: seq<Byte>, phdrs: seq<Phdr>, sym: Symbols) {
    ghost predicate Ok(c: Config) {
      Program(file, phdrs) && Fits(phdrs, sym, c.kernelBase) && sym.heapStart == c.heapStart
    }

    function Cost(c: Config): nat { LoadCost(phdrs, sym, c.kernelBase, c.limit) }
  }

  // ---------------------------------------------------------------- paging_init

  const MMIO_VPN := 0x1_0001    // VIRTIO_MMIO_BASE / PAGE_SIZE
  const MMIO_DEVICES := 8
  const KERNEL_RW := Perms(true, true, false, false)

  /** What the kernel's own page table maps: the kernel up to the end of its heap, and the virtio registers. */
  ghost predicate KernelPaging(mem: Memory, root: int, kb: int, heapEnd: int) {
    forall v :: 0 <= v < VPNS ==>
      LeafPte(mem, root, v) == if MMIO_VPN <= v < MMIO_VPN + MMIO_DEVICES then MakePte(v, KERNEL_RW)
                               else if kb <= v < heapEnd then MakePte(v, KERNEL_RWX) else 0
  }

  function PagingCost(kb: int, heapEnd: int): nat { 1 + TableCost(kb, heapEnd) + TableCost(MMIO_VPN, MMIO_VPN + MMIO_DEVICES) }

  /** paging_init: the root of the kernel's page table. None stands for PANIC("out of memory"). */
  method PagingInit(ram: PageMemory, kb: int, heapEnd: int) returns (r: Option<int>)
    requires Sound(ram) && 0 < kb && heapEnd <= VPNS
    modifies ram, ram.tracker, ram.tracker.table
    ensures r.None? ==> old(ram.Available()) < PagingCost(kb, heapEnd)
    ensures r.Some? ==> ram.Room() >= old(ram.Room()) - PagingCost(kb, heapEnd)
    ensures r.Some? ==> Sound(ram) && Grows(old(Now(ram)), Now(ram), r.value) && IsTable(ram.role, r.value, 2)
    ensures r.Some? ==> ram.currentPid == old(ram.currentPid)
    ensures r.Some? ==> KernelPaging(ram.mem, r.value, kb, heapEnd)
  {
    hide Tables, Leaves, TableCost;
    ghost var s0 := Now(ram);
    r := NewPageTable(ram);
    if r.None? { return; }
    var ok := MapKernel(ram, r.value, kb, heapEnd, s0);
    if !ok { return None; }
    ok := MapMmioRange(ram, r.value, MMIO_VPN, MMIO_VPN, MMIO_DEVICES, KERNEL_RW, s0);
    if !ok { return None; }
  }

  /** In numbers: the virtio registers at 0x10001000 to 0x10008fff are mapped with the low bits 7 (V, R, W), the kernel
      with 15 (V, R, W, X), both at their own addresses; no other page is mapped. */
  lemma KernelPagingBits(mem: Memory, root: int, kb: int, heapEnd: int, va: int)
    requires KernelPaging(mem, root, kb, heapEnd) && 0 <= va < 0x80_0000_0000
    ensures var e := LeafPte(mem, root, va / 4096);
            if 0x1000_1000 <= va < 0x1000_9000 then e % 1024 == 7 && e / 1024 == va / 4096
            else if 4096 * kb <= va < 4096 * heapEnd then e % 1024 == 15 && e / 1024 == va / 4096
            else e == 0
  {
    PteBits(va / 4096, KERNEL_RW);
    PteBits(va / 4096, KERNEL_RWX);
  }

  /** Loading a program leaves the kernel's page table alone. */
  lemma PagingKept(s0: Snapshot, s2: Snapshot, s: Snapshot, sp: P.Space, root: int, kb: int, heapEnd: int, b: Binary, c: Config)
    requires b.Ok(c) && Created(s0, s2, s, sp, b.file, b.phdrs, b.sym, c)
    requires NONE !in s0.role && IsTable(s0.role, root, 2) && KernelPaging(s0.mem, root, kb, heapEnd)
    ensures IsTable(s.role, root, 2) && KernelPaging(s.mem, root, kb, heapEnd)
  {
    forall v | 0 <= v < VPNS ensures LeafPte(s.mem, root, v) == LeafPte(s0.mem, root, v) {
      assert LeafPte(s2.mem, root, v) == LeafPte(s0.mem, root, v);
    }
  }

  // ---------------------------------------------------------------- kernel_main

  /** The process table before the first yield: idle, renumbered to pid 0, and the shell. */
  ghost predicate FirstProcs(t: P.Table, idle: P.Space, shell: P.Space) {
    && |t.procs| >= 2 && t.current == P.IDLE && t.count == 2
    && t.procs[0] == P.Pcb(0, P.Runnable, P.NOBODY, 0, idle) && t.procs[1] == P.Pcb(2, P.Runnable, P.IDLE, 0, shell)
    && forall i :: 2 <= i < |t.procs| ==> t.procs[i] == P.EMPTY_PCB
  }

  lemma TwoSpaces(t: P.Table, s1: Snapshot, s2: Snapshot, s: Snapshot, idle: P.Space, shell: P.Space,
                  b: Binary, c: Config)
    requires c.Valid() && b.Ok(c) && P.TableInv(t) && t.current == P.IDLE && t.procs[t.current].pid == s.pid
    requires forall i :: P.InUse(t, i) ==> i == 0 || i == 1
    requires |t.procs| >= 2 && t.procs[0].space == idle && t.procs[1].space == shell
    requires WellFormed(s1) && WellFormed(s) && NONE !in s.role && s.owned.Keys <= s.role.Keys && SpaceOk(s1, idle, c) && SpaceOk(s, shell, c)
    requires Created(s1, s2, s, shell, b.file, b.phdrs, b.sym, c)
    ensures KernelInv(t, s, c)
  {
    SpaceKeptByFork(s1, s2, s, shell.pageTable, idle, c);
  }

  /** One process of kernel_main: create_init_process with its image. */
  method CreateProcess(ram: PageMemory, b: Binary, c: Config) returns (r: Option<P.Space>, ghost s2: Snapshot)
    requires Sound(ram) && c.Valid() && c.Matches(ram) && b.Ok(c)
    modifies ram, ram.tracker, ram.tracker.table
    ensures r.None? ==> old(ram.Room()) < b.Cost(c)
    ensures r.Some? ==> Sound(ram) && ram.Room() >= old(ram.Room()) - b.Cost(c) && ram.currentPid == old(ram.currentPid)
    ensures r.Some? ==> WellFormed(s2) && SpaceOk(Now(ram), r.value, c)
    ensures r.Some? ==> Created(old(Now(ram)), s2, Now(ram), r.value, b.file, b.phdrs, b.sym, c)
    ensures r.Some? ==> Executable(ram.mem, r.value.pageTable, b.phdrs, b.sym)
  {
    ghost var s0 := Now(ram);
    r, s2 := LoadProgram(ram, b.file, b.phdrs, b.sym, c);
    if r.Some? {
      CreatedSpace(s0, s2, Now(ram), r.value, b.file, b.phdrs, b.sym, c);
    }
  }

  /** kernel_main from the first process on: idle and the shell are created, and the invariant holds of the result. None
      stands for PANIC("out of memory"), which does not happen while there is room for both programs. */
  method Start(ram: PageMemory, slots: nat, idle: Binary, shell: Binary, c: Config)
    returns (r: Option<P.ProcessTable>, ghost s1: Snapshot, ghost s2: Snapshot, ghost s3: Snapshot)
    requires Sound(ram) && c.Valid() && c.Matches(ram) && ram.currentPid == 0 && slots >= 2
    requires idle.Ok(c) && shell.Ok(c)
    modifies ram, ram.tracker, ram.tracker.table
    ensures r.None? ==> old(ram.Room()) < idle.Cost(c) + shell.Cost(c)
    ensures r.Some? ==> ram.Room() >= old(ram.Room()) - idle.Cost(c) - shell.Cost(c)
    ensures r.Some? ==> fresh(r.value) && fresh(r.value.procs) && Inv(r.value, ram, c) && r.value.procs.Length == slots
    ensures r.Some? ==> FirstProcs(r.value.View(), r.value.procs[0].space, r.value.procs[1].space)
    ensures r.Some? ==> Created(old(Now(ram)), s1, s2, r.value.procs[0].space, idle.file, idle.phdrs, idle.sym, c)
    ensures r.Some? ==> Created(s2, s3, Now(ram), r.value.procs[1].space, shell.file, shell.phdrs, shell.sym, c)
    ensures r.Some? ==> NONE !in s2.role
    ensures r.Some? ==> Executable(ram.mem, r.value.procs[0].space.pageTable, idle.phdrs, idle.sym)
    ensures r.Some? ==> Executable(ram.mem, r.value.procs[1].space.pageTable, shell.phdrs, shell.sym)
  {
    hide Created, Sound, SpaceOk, LoadCost, Executable;
    s1, s2, s3 := Now(ram), Now(ram), Now(ram);
    var space0, space1;
    space0, s1 := CreateProcess(ram, idle, c);
    if space0.None? {
      return None, s1, s2, s3;
    }
    s2 := Now(ram);
    NoneOutside(ram);
    space1, s3 := CreateProcess(ram, shell, c);
    if space1.None? {
      return None, s1, s2, s3;
    }
    StaysExecutable(s2, s3, Now(ram), space0.value, space1.value, idle, shell, c);
    var table := FirstTable(ram, slots, space0.value, space1.value, s2, s3, shell, c);
    r := Some(table);
  }

  /** Loading the shell leaves idle's pages executable. */
  lemma StaysExecutable(s2: Snapshot, s3: Snapshot, s: Snapshot, idle: P.Space, shell: P.Space, first: Binary, second: Binary, c: Config)
    requires first.Ok(c) && second.Ok(c) && SpaceOk(s2, idle, c) && NONE !in s2.role
    requires Created(s2, s3, s, shell, second.file, second.phdrs, second.sym, c)
    requires Executable(s2.mem, idle.pageTable, first.phdrs, first.sym)
    ensures Executable(s.mem, idle.pageTable, first.phdrs, first.sym)
  {
    hide Executable, Loaded, Holds, FreshImage, Program;
    ExecutableKept(s2, s3, NONE, idle.pageTable, first.file, first.phdrs, first.sym);
    ExecutableKept(s3, s, shell.pageTable, idle.pageTable, first.file, first.phdrs, first.sym);
  }

  lemma NoneOutside(ram: PageMemory)
    requires Sound(ram)
    ensures WellFormed(Now(ram)) && NONE !in ram.role
  {
  }

  method FirstTable(ram: PageMemory, slots: nat, space0: P.Space, space1: P.Space, ghost s1: Snapshot, ghost s2: Snapshot,
                    ghost shell: Binary, ghost c: Config) returns (table: P.ProcessTable)
    requires Sound(ram) && c.Valid() && c.Matches(ram) && ram.currentPid == 0 && slots >= 2 && shell.Ok(c)
    requires WellFormed(s1) && SpaceOk(s1, space0, c) && SpaceOk(Now(ram), space1, c)
    requires Created(s1, s2, Now(ram), space1, shell.file, shell.phdrs, shell.sym, c)
    ensures fresh(table) && fresh(table.procs) && Inv(table, ram, c)
    ensures table.procs.Length == slots && table.procs[0].space == space0 && table.procs[1].space == space1
    ensures FirstProcs(table.View(), space0, space1)
  {
    table := new P.ProcessTable(slots, space0, space1);
    TwoSpaces(table.View(), s1, s2, Now(ram), space0, space1, shell, c);
  }

  /** What kernel_main has done when it first yields. */
  ghost predicate Booted(table: P.ProcessTable, ram: PageMemory, root: int, heapEnd: int, c: Config)
    reads table, table.procs, ram, ram.tracker, ram.tracker.table
  {
    && Inv(table, ram, c)
    && table.procs.Length >= 2 && FirstProcs(table.View(), table.procs[0].space, table.procs[1].space)
    && IsTable(ram.role, root, 2) && KernelPaging(ram.mem, root, c.kernelBase, heapEnd)
  }

  /** kernel_main up to the first yield: paging, idle, and the shell, whose states before and after its image was
      extracted are s2 and s3. */
  method KernelMain(ram: PageMemory, slots: nat, idle: Binary, shell: Binary, heapEnd: int, c: Config)
    returns (r: Option<P.ProcessTable>, ghost root: int, ghost s2: Snapshot, ghost s3: Snapshot)
    requires Sound(ram) && c.Valid() && c.Matches(ram) && ram.currentPid == 0 && slots >= 2 && heapEnd <= VPNS
    requires idle.Ok(c) && shell.Ok(c)
    modifies ram, ram.tracker, ram.tracker.table
    ensures r.None? ==> old(ram.Room()) < PagingCost(c.kernelBase, heapEnd) + idle.Cost(c) + shell.Cost(c)
    ensures r.Some? ==> ram.Room() >= old(ram.Room()) - PagingCost(c.kernelBase, heapEnd) - idle.Cost(c) - shell.Cost(c)
    ensures r.Some? ==> fresh(r.value) && fresh(r.value.procs) && r.value.procs.Length == slots
    ensures r.Some? ==> Booted(r.value, ram, root, heapEnd, c)
    ensures r.Some? ==> Created(s2, s3, Now(ram), r.value.procs[1].space, shell.file, shell.phdrs, shell.sym, c)
    ensures r.Some? ==> Executable(ram.mem, r.value.procs[0].space.pageTable, idle.phdrs, idle.sym)
    ensures r.Some? ==> Executable(ram.mem, r.value.procs[1].space.pageTable, shell.phdrs, shell.sym)
  {
    hide Executable, Created, Tables, Leaves, Grows, PagingCost, LoadCost, KernelPaging, KernelInv, FirstProcs;
    s2, s3 := Now(ram), Now(ram);
    var kernelRoot := PagingInit(ram, c.kernelBase, heapEnd);
    root := NONE;
    if kernelRoot.None? {
      return None, root, s2, s3;
    }
    root := kernelRoot.value;
    ghost var s0, s1 := Now(ram), Now(ram);
    NoneOutside(ram);
    r, s1, s2, s3 := Start(ram, slots, idle, shell, c);
    if r.Some? {
      PagingKept(s0, s1, s2, r.value.procs[0].space, root, c.kernelBase, heapEnd, idle, c);
      PagingKept(s2, s3, Now(ram), r.value.procs[1].space, root, c.kernelBase, heapEnd, shell, c);
    }
  }
}
