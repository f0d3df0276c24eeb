/** The kernel and the programs as they are linked: the machine has room to boot, and for the first command. */
module Shipped {
  import opened Sv39
  import opened PageTree
  import opened AllocTracker
  import opened PageMemory
  import opened PageTables
  import opened Teardown
  import opened AddressSpace
  import opened HeapGrowth
  import opened Build
  import opened Fork
  import opened Elf
  import opened Bytes
  import opened Kernel
  import opened Loading
  import opened Syscalls
  import opened Boot
  import P = ProcTable

  /** The symbols of user.ld, the same for every program. */
  const USER_SYMBOLS := Symbols(0x101_0000, 0x102_0000, 0x300_0000)
  const IDLE_HEADERS := [Phdr(1, 0x1000, 0x100_0000, 0xc8, 0xc8), Phdr(1, 0x10c8, 0x100_00c8, 0x1_ff38, 0x1_ff38),
                         Phdr(0x6474_e551, 0, 0, 0, 0)]
  const SHELL_HEADERS := [Phdr(1, 0x1000, 0x100_0000, 0x1180, 0x1180), Phdr(1, 0x2180, 0x100_1180, 0x3f8, 0x3f8),
                          Phdr(1, 0x2578, 0x100_1578, 0x1_ea88, 0x1_ea88), Phdr(0x6474_e551, 0, 0, 0, 0)]

  /** The kernel that kernel.ld places at 0x80200000, with 64 MiB of free RAM from frame base on and its heap of 32 MiB
      behind that. */
  function Machine(base: int): Config { Config(0x8_0200, base, base + 0x4000, 0x300_0000) }

  function HeapEnd(base: int): int { base + 0x6000 }

  /** The free RAM of the kernel as it is linked starts at 0x804cb000. */
  const LINKED_BASE := 0x8_04cb

  /** idle.elf and shell.elf, whatever their bytes, can be loaded; the stack lies over the last 16 of their 32 image
      pages. */
  lemma ShippedProgramsFit(idle: seq<Byte>, shell: seq<Byte>, base: int)
    requires |idle| == 145400 && |shell| == 211000 && 0x8_0200 <= base <= VPNS - 0x4000
    ensures var c := Machine(base);
            c.Valid() && c.SmallRam() && Binary(idle, IDLE_HEADERS, USER_SYMBOLS).Ok(c) && Binary(shell, SHELL_HEADERS, USER_SYMBOLS).Ok(c)
    ensures ImagePages(IDLE_HEADERS) == 32 == ImagePages(SHELL_HEADERS)
    ensures forall v :: 0x1010 <= v < 0x1020 ==> Remapped(USER_SYMBOLS, v)
  {
    hide Program, Fits, ImagePages;
    IdleFits(idle);
    ShellFits(shell);
  }

  lemma IdleFits(idle: seq<Byte>)
    requires |idle| == 145400
    ensures Program(idle, IDLE_HEADERS) && Fits(IDLE_HEADERS, USER_SYMBOLS, 0x8_0200) && ImagePages(IDLE_HEADERS) == 32
  {
    assert IDLE_HEADERS[0].vaddr == 0x100_0000;
    TopPageIs(IDLE_HEADERS);
    assert PageUp(IDLE_HEADERS[1].vaddr + IDLE_HEADERS[1].memsz) == 0x1020;
  }

  lemma ShellFits(shell: seq<Byte>)
    requires |shell| == 211000
    ensures Program(shell, SHELL_HEADERS) && Fits(SHELL_HEADERS, USER_SYMBOLS, 0x8_0200) && ImagePages(SHELL_HEADERS) == 32
  {
    assert SHELL_HEADERS[0].vaddr == 0x100_0000;
    TopPageIs(SHELL_HEADERS);
    assert PageUp(SHELL_HEADERS[2].vaddr + SHELL_HEADERS[2].memsz) == 0x1020;
  }

  // ---------------------------------------------------------------- frames

  /** The tables for the kernel's own mapping, for a kernel image of up to 2 GiB. */
  lemma KernelTables(base: int)
    requires 0x8_0200 <= base <= 0x10_0000
    ensures TableCost(0x8_0200, base + 0x4000) <= 1058 && PagingCost(0x8_0200, HeapEnd(base)) <= 1077
    ensures base == LINKED_BASE ==> TableCost(0x8_0200, base + 0x4000) == 35 && PagingCost(0x8_0200, HeapEnd(base)) == 54
  {
    hide TableCost;
    LinkedTables();
    TableCostGrows(0x8_0200, base + 0x4000, 0x10_4000);
    TableCostGrows(0x8_0200, HeapEnd(base), 0x10_6000);
  }

  lemma LinkedTables()
    ensures TableCost(0x8_0200, 0x10_4000) == 1058 && TableCost(0x8_0200, 0x10_6000) == 1074
    ensures TableCost(0x8_0200, LINKED_BASE + 0x4000) == 35 && TableCost(0x8_0200, HeapEnd(LINKED_BASE)) == 51
    ensures TableCost(MMIO_VPN, MMIO_VPN + MMIO_DEVICES) == 2
  {
  }

  /** A program of 32 image pages takes 89 frames and the tables for the kernel; as linked, 124. */
  lemma ProgramCost(phdrs: seq<Phdr>, base: int)
    requires ImagePages(phdrs) == 32
    ensures LoadCost(phdrs, USER_SYMBOLS, 0x8_0200, base + 0x4000) == 89 + TableCost(0x8_0200, base + 0x4000)
  {
    assert TableCost(0x1000, 0x1020) == 2 == TableCost(0x1010, 0x1021);
  }

  lemma NotLoaded(s2: Snapshot, s: Snapshot, root: int, image: int, kb: int, limit: int, v: int)
    requires Loaded(s2, s, root, image, 32, USER_SYMBOLS, kb, limit) && 0x3001 <= kb && 0x1021 <= v < 0x3000
    ensures !V(LeafPte(s.mem, root, v))
  {
    hide LeafPte, FreshPage, ImagePage, MakePte;
    assert LoadedPage(s2, s, root, image, 32, USER_SYMBOLS, kb, limit, v);
    assert !Remapped(USER_SYMBOLS, v);
  }

  /** A program that has just been loaded has at most 34 pages. */
  lemma LoadedPages(s2: Snapshot, s: Snapshot, root: int, image: int, kb: int, limit: int)
    requires Loaded(s2, s, root, image, 32, USER_SYMBOLS, kb, limit) && 0x3001 <= kb
    ensures MappedPages(s.mem, root, USER_VPN, 0x3001) <= 34
  {
    hide Loaded, LeafPte, MappedPages;
    forall v | 0x1021 <= v < 0x3000 ensures !V(LeafPte(s.mem, root, v)) {
      NotLoaded(s2, s, root, image, kb, limit, v);
    }
    NoPages(s.mem, root, USER_VPN);
    MappedBound(s.mem, root, USER_VPN, USER_VPN, 0x1021);
    MappedGap(s.mem, root, USER_VPN, 0x1021, 0x3000);
    MappedBound(s.mem, root, USER_VPN, 0x3000, 0x3001);
  }

  lemma UserTables()
    ensures TableCost(0x1000, 0x3001) == 18
  {
  }

  /** A copy of the shell takes at most 53 frames and the tables for the kernel; as linked, 88. */
  lemma ShellCopyCost(s0: Snapshot, s2: Snapshot, s: Snapshot, sp: P.Space, shell: seq<Byte>, base: int)
    requires |shell| == 211000 && 0x8_0200 <= base <= VPNS - 0x4000
    requires Program(shell, SHELL_HEADERS) && Created(s0, s2, s, sp, shell, SHELL_HEADERS, USER_SYMBOLS, Machine(base))
    ensures SpaceCost(s.mem, sp, Machine(base)) <= 53 + TableCost(0x8_0200, base + 0x4000)
  {
    hide Program, Grows, Holds, Loaded, TableCost, MappedPages;
    ShippedProgramsFit(seq(145400, _ => 0), shell, base);
    LoadedPages(s2, s, sp.pageTable, sp.image, 0x8_0200, base + 0x4000);
    assert EndVpn(sp.heapEnd) == 0x3001;
    UserTables();
  }

  // ---------------------------------------------------------------- boot

  lemma NothingInUse(mem: Memory, role: Roles)
    requires role == map[]
    ensures Tables(mem, role) && Leaves(mem, role)
  {
    assert forall t :: !IsBranch(role, t) && !IsTable(role, t, 0);
  }

  /** The page of the entry point, 0x1000000, can be executed. */
  lemma EntryPage(mem: Memory, idle: int, shell: int)
    requires Executable(mem, idle, IDLE_HEADERS, USER_SYMBOLS) && Executable(mem, shell, SHELL_HEADERS, USER_SYMBOLS)
    ensures LeafPte(mem, idle, 0x1000) % 1024 == 31 == LeafPte(mem, shell, 0x1000) % 1024
  {
    assert IDLE_HEADERS[0].vaddr == 0x100_0000 == SHELL_HEADERS[0].vaddr && 0x100_0000 / 4096 == 0x1000;
    assert !Remapped(USER_SYMBOLS, 0x1000);
  }

  /** The kernel boots on its machine, whatever the RAM holds at power-on: no step of kernel_main panics, and at the
      first yield the invariant of the whole kernel holds. */
  method PowerOn(idle: seq<Byte>, shell: seq<Byte>, base: int, mem: Memory, slots: nat, records: nat)
    returns (table: P.ProcessTable, ram: PageMemory, ghost root: int, ghost s2: Snapshot, ghost s3: Snapshot)
    requires |idle| == 145400 && |shell| == 211000 && 0x8_0200 <= base <= 0x10_0000 && slots >= 2
    ensures fresh(table) && fresh(table.procs) && fresh(ram) && fresh(ram.tracker) && fresh(ram.tracker.table)
    ensures table.procs.Length == slots && Booted(table, ram, root, HeapEnd(base), Machine(base))
    ensures ram.Room() >= 0x4000 - PagingCost(0x8_0200, HeapEnd(base)) - 2 * (89 + TableCost(0x8_0200, base + 0x4000))
    ensures Program(shell, SHELL_HEADERS)
    ensures Created(s2, s3, Now(ram), table.procs[1].space, shell, SHELL_HEADERS, USER_SYMBOLS, Machine(base))
    ensures LeafPte(ram.mem, table.procs[0].space.pageTable, 0x1000) % 1024 == 31
    ensures LeafPte(ram.mem, table.procs[1].space.pageTable, 0x1000) % 1024 == 31
  {
    hide Created, Booted, Program, Fits, PagingCost, TableCost, LoadCost, ImagePages, Executable;
    var c := Machine(base);
    ShippedProgramsFit(idle, shell, base);
    KernelTables(base);
    ProgramCost(IDLE_HEADERS, base);
    ProgramCost(SHELL_HEADERS, base);
    var tracker := new Tracker(records);
    ram := new PageMemory(base, base + 0x4000, tracker, mem);
    NothingInUse(ram.mem, ram.role);
    var idleProgram, shellProgram := Binary(idle, IDLE_HEADERS, USER_SYMBOLS), Binary(shell, SHELL_HEADERS, USER_SYMBOLS);
    var r;
    r, root, s2, s3 := KernelMain(ram, slots, idleProgram, shellProgram, HeapEnd(base), c);
    table := r.value;
    EntryPage(ram.mem, table.procs[0].space.pageTable, table.procs[1].space.pageTable);
  }

  // ---------------------------------------------------------------- the first command

  /** The first yield picks the shell ... */
  lemma ShellStarts(t: P.Table, idle: P.Space, shell: P.Space)
    requires FirstProcs(t, idle, shell) && |t.procs| >= 3
    ensures P.YieldTable(t) == P.Table(t.procs[1 := P.Pcb(2, P.Running, P.IDLE, 0, shell)], 1, 2)
    ensures P.FreeSlot(P.YieldTable(t).procs, 0) == 2
  {
    assert P.Eligible(t.procs, 0, 2, 1);
    var t1 := P.YieldTable(t);
    assert t1.procs[2].state == P.Unused;
  }

  /** ... and then the shell and its child alternate. */
  lemma OtherRuns(t: P.Table, a: int, b: int)
    requires |t.procs| >= 3 && t.count == 3 && t.current == a && ((a == 1 && b == 2) || (a == 2 && b == 1))
    requires t.procs[a].pid != 0 && t.procs[a].state == P.Running && t.procs[b].pid != 0 && t.procs[b].state == P.Runnable
    ensures P.YieldTable(t) == P.Table(t.procs[a := t.procs[a].(state := P.Runnable)][b := t.procs[b].(state := P.Running)], b, 3)
  {
    var d := P.Demoted(t);
    assert P.Eligible(d.procs, a, 3, b) && !P.Eligible(d.procs, a, 3, a);
  }

  /** The shell, running after the first yield, forks, and its child is switched to. */
  method ForkShell(table: P.ProcessTable, ram: PageMemory, c: Config, ghost t: P.Table, ghost idle: P.Space, ghost shell: P.Space)
    returns (pid: int)
    requires Inv(table, ram, c) && table.View() == t && FirstProcs(t, idle, shell) && |t.procs| >= 3
    requires ram.Room() > SpaceCost(ram.mem, shell, c)
    modifies table, table.procs, ram, ram.tracker, ram.tracker.table
    ensures Inv(table, ram, c) && pid == 3 && ram.Room() >= old(ram.Room()) - 1 - SpaceCost(old(ram.mem), shell, c)
    ensures |table.View().procs| == |t.procs| && table.current == 2 && table.processCount == 3
    ensures table.View().procs[1] == P.Pcb(2, P.Runnable, P.IDLE, 0, shell)
    ensures table.View().procs[2].pid == 3 && table.View().procs[2].parent == 1
  {
    hide KernelInv, Sound, Grows, Forked, SpaceCost, WellFormed, P.YieldTable;
    ShellStarts(t, idle, shell);
    SysYield(table, ram, c);
    ghost var t1 := table.View();
    var r;
    ghost var s1, child;
    r, s1, child := SysFork(table, ram, c);
    pid := r.value;
    OtherRuns(table.View(), 1, 2);
    SysYield(table, ram, c);
  }

  /** The first command: after boot the shell runs and forks, its child runs and execs a program, which is loaded into
      its address space, and the shell runs again. No step panics when the program takes at most 8192 frames. */
  method FirstCommand(idle: seq<Byte>, shell: seq<Byte>, command: Binary, base: int, mem: Memory, slots: nat, records: nat)
    returns (table: P.ProcessTable, ram: PageMemory, pid: int, ghost st: Stages)
    requires |idle| == 145400 && |shell| == 211000 && 0x8_0200 <= base <= 0x10_0000 && slots >= 3
    requires command.Ok(Machine(base)) && command.Cost(Machine(base)) <= 0x2000
    ensures fresh(table) && fresh(table.procs) && fresh(ram)
    ensures Inv(table, ram, Machine(base)) && pid == 3 && table.procs.Length == slots && table.current == 1
    ensures table.procs[2].pid == pid && table.procs[2].parent == 1 && table.procs[2].state == P.Runnable
    ensures Created(st.s1, st.s2, st.s3, table.procs[2].space, command.file, command.phdrs, command.sym, Machine(base)) && ram.mem == st.s3.mem
    ensures Executable(ram.mem, table.procs[2].space.pageTable, command.phdrs, command.sym)
  {
    hide Executable, LeafPte, KernelInv, Sound, Created, Dismantled, SpaceCost, TableCost, PagingCost, KernelPaging, P.YieldTable;
    var c := Machine(base);
    ghost var root, s2, s3;
    table, ram, root, s2, s3 := PowerOn(idle, shell, base, mem, slots, records);
    ShellCopyCost(s2, s3, Now(ram), table.procs[1].space, shell, base);
    KernelTables(base);
    pid := ForkShell(table, ram, c, table.View(), table.procs[0].space, table.procs[1].space);
    ghost var t := table.View();
    var ok;
    ghost var sp;
    ok, st, sp := SysExec(table, ram, command.file, command.phdrs, command.sym, c);
    assert ok;
    OtherRuns(P.Table(t.procs[2 := t.procs[2].(state := P.Running, space := sp)], 2, 3), 2, 1);
  }
}
