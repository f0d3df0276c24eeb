/** The kernel's heap_end and the user library's break move in lock step: over every run of system calls and user
    stores, in every process linked with sbrk.c, heap_end is the break plus one page. The break is what sbrk.c finds
    in its static variable, read from the process's own memory through its page table. */
module Break {
  import opened Wrappers
  import opened Arithmetic
  import opened Sv39
  import opened PageTree
  import opened PageMemory
  import opened PageTables
  import opened Teardown
  import opened AddressSpace
  import opened HeapGrowth
  import opened Build
  import opened Fork
  import opened Bytes
  import opened CopyToUser
  import opened Elf
  import opened Kernel
  import opened DirectStores
  import opened Syscalls
  import opened Loading
  import P = ProcTable
  import Runs
  import UH = UserHeap

  /** Where a program keeps the static variable of sbrk.c: word k of page v. */
  datatype Cell = Cell(v: int, k: int)

  /** A word whose eight bytes are zero reads as zero. */
  lemma ZeroBytes(x: int)
    requires forall b :: 0 <= b < 8 ==> ByteOf(x, b) == 0
    ensures x % WORD_LIMIT == 0
  {
    var q := LowZeros(x, 8);
    assert Pow256(8) == WORD_LIMIT;
  }

  lemma {:induction false} LowZeros(x: int, n: nat) returns (q: int)
    requires forall b :: 0 <= b < n ==> ByteOf(x, b) == 0
    ensures x == Pow256(n) * q
    decreases n
  {
    q := x;
    if n > 0 {
      assert ByteOf(x, 0) == 0;
      forall b | 0 <= b < n - 1 ensures ByteOf(x / 256, b) == 0 {
        assert ByteOf(x, b + 1) == 0;
      }
      q := LowZeros(x / 256, n - 1);
      assert x == 256 * (Pow256(n - 1) * q) == (256 * Pow256(n - 1)) * q;
    }
  }

  /** The variable's place: in the image, below the heap. */
  ghost predicate Placed(cell: Cell, c: Config) {
    USER_VPN <= cell.v < c.heapStart / PAGE_SIZE && cell.v < VPNS && 0 <= cell.k < ENTRIES
  }

  /** The 64-bit value the program reads from the variable. */
  function Static(mem: Memory, root: int, cell: Cell): Option<int>
    requires 0 <= cell.k < ENTRIES
  {
    match UserWord(mem, root, cell.v, cell.k)
    case None => None
    case Some(x) => Some(x % WORD_LIMIT)
  }

  /** heapEnd is one page above the break that the program under root has in mind. */
  ghost predicate InStep(mem: Memory, root: int, heapEnd: int, cell: Cell, c: Config) {
    && Placed(cell, c) && W(LeafPte(mem, root, cell.v)) && c.heapStart <= heapEnd
    && Static(mem, root, cell).Some?
    && UH.BreakOf(Static(mem, root, cell).value, c.heapStart) + PAGE_SIZE == heapEnd
  }

  /** The whole system; cells names the slots whose program uses sbrk.c. */
  datatype World = World(t: P.Table, s: Snapshot, cells: map<int, Cell>)

  ghost predicate SlotInStep(w: World, i: int, c: Config)
    requires P.Slot(w.t, i) && i in w.cells
  {
    InStep(w.s.mem, w.t.procs[i].space.pageTable, w.t.procs[i].space.heapEnd, w.cells[i], c)
  }

  ghost function Core(w: World): Runs.State { Runs.State(w.t, w.s) }

  ghost predicate AllInStep(w: World, c: Config) {
    forall i :: i in w.cells && P.InUse(w.t, i) ==> SlotInStep(w, i, c)
  }

  // ---------------------------------------------------------------- pages that keep their word

  lemma SameWord(mem: Memory, mem': Memory, r: int, heapEnd: int, cell: Cell, c: Config)
    requires InStep(mem, r, heapEnd, cell, c) && LeafPte(mem', r, cell.v) == LeafPte(mem, r, cell.v)
    requires var f := PteFrame(LeafPte(mem, r, cell.v)); Entry(mem', f, cell.k) == Entry(mem, f, cell.k)
    ensures InStep(mem', r, heapEnd, cell, c)
  {
  }

  /** While another address space is built or extended. */
  lemma StepKept(s0: Snapshot, s: Snapshot, root: int, r: int, heapEnd: int, cell: Cell, c: Config)
    requires WellFormed(s0) && IsTable(s0.role, r, 2) && Grows(s0, s, root) && r != root
    requires InStep(s0.mem, r, heapEnd, cell, c)
    ensures InStep(s.mem, r, heapEnd, cell, c)
  {
    ParentPage(s0, s, r, root, cell.v);
    SameWord(s0.mem, s.mem, r, heapEnd, cell, c);
  }

  /** While frames of other processes are freed. */
  lemma StepSurvives(s0: Snapshot, s: Snapshot, r: int, heapEnd: int, cell: Cell, c: Config)
    requires WellFormed(s0) && WellFormed(s) && Survives(s0, s) && IsTable(s.role, r, 2)
    requires InStep(s0.mem, r, heapEnd, cell, c)
    ensures InStep(s.mem, r, heapEnd, cell, c)
  {
    hide WellFormed, Survives, LeafPte, Translations;
    SurvivorsUntouched(s0, s, r);
    Runs.RootSurvives(s0, s, r);
    assert LeafPte(s.mem, r, cell.v) == LeafPte(s0.mem, r, cell.v);
    Runs.UserFrameOwned(s0, r, cell.v);
    SameWord(s0.mem, s.mem, r, heapEnd, cell, c);
  }

  // ---------------------------------------------------------------- the steps

  /** A user store by process i to any word but its own variable. */
  ghost predicate StoreStep(w: World, w': World, i: int, v: int, k: int, x: int) {
    Runs.StoreStep(Core(w), Core(w'), i, v, k, x) && (i in w.cells ==> Cell(v, k) != w.cells[i]) && w'.cells == w.cells
  }

  /** sbrk of the user library in the current process: sys_sbrk, which leads to state s, and then the assignment to the
      variable in sbrk.c. */
  ghost predicate SbrkStep(w: World, w': World, increment: int, s: Snapshot, c: Config)
    requires P.Slot(w.t, w.t.current)
  {
    var i := w.t.current;
    && i in w.cells && Placed(w.cells[i], c) && Static(w.s.mem, w.t.procs[i].space.pageTable, w.cells[i]).Some?
    && c.heapStart <= w.t.procs[i].space.heapEnd + increment
    && Runs.SbrkStep(Core(w), Runs.State(w'.t, s), increment, c)
    && Runs.StoreStep(Runs.State(w'.t, s), Core(w'), i, w.cells[i].v, w.cells[i].k, NewBreak(w, increment, c))
    && w'.cells == w.cells
  }

  /** sys_sbrk by a program that does without sbrk.c. */
  ghost predicate PlainSbrkStep(w: World, w': World, increment: int, c: Config)
    requires P.Slot(w.t, w.t.current)
  {
    w.t.current !in w.cells && w'.cells == w.cells && Runs.SbrkStep(Core(w), Core(w'), increment, c)
  }

  /** sys_fork: the child runs the same program, so its variable is at the same place. */
  ghost predicate ForkStep(w: World, w': World, s1: Snapshot, child: int, c: Config)
    requires P.Slot(w.t, w.t.current)
  {
    var slot := P.FreeSlot(w.t.procs, 0);
    && Runs.ForkStep(Core(w), Core(w'), s1, child, c)
    && w'.cells == if w.t.current in w.cells then w.cells[slot := w.cells[w.t.current]] else w.cells - {slot}
  }

  /** The program's variable starts out as zero: its eight bytes lie in one loadable segment and are zero there. */
  ghost predicate StartsZero(file: seq<Byte>, phdrs: seq<Phdr>, j: int, cell: Cell)
    requires Program(file, phdrs)
  {
    && 0 <= j < |phdrs| && phdrs[j].ptype == PT_LOAD
    && phdrs[j].vaddr <= Addr(cell.v) + 8 * cell.k && Addr(cell.v) + 8 * cell.k + 8 <= phdrs[j].vaddr + phdrs[j].memsz
    && forall a :: Addr(cell.v) + 8 * cell.k <= a < Addr(cell.v) + 8 * cell.k + 8 ==> SegmentByte(file, phdrs[j], a) == 0
  }

  /** sys_exec of a program, with or without sbrk.c; segment j holds the variable, on a page of its own or on one that
      the stack replaces. */
  ghost predicate ExecStep(w: World, w': World, st: Stages, sp: P.Space, file: seq<Byte>, phdrs: seq<Phdr>, sym: Symbols,
                           cell: Option<Cell>, j: int, c: Config)
    requires P.Slot(w.t, w.t.current)
  {
    && Runs.ExecStep(Core(w), Core(w'), st, sp, file, phdrs, sym, c)
    && (cell.Some? ==> Placed(cell.value, c) && StartsZero(file, phdrs, j, cell.value))
    && w'.cells == if cell.Some? then w.cells[w.t.current := cell.value] else w.cells - {w.t.current}
  }

  /** The word that holds the byte at an address. */
  function CellAt(va: int): Cell { Cell(Key(va), va % PAGE_SIZE / 8) }

  /** A wait whose status pointer leaves the caller's variable alone. */
  ghost predicate ReapStep(w: World, w': World, z: int, status: int, c: Config)
    requires P.Slot(w.t, w.t.current)
  {
    && Runs.ReapStep(Core(w), Core(w'), z, status, c) && w'.cells == w.cells
    && (w.t.current in w.cells && status != 0 ==> forall va :: status <= va < status + 4 ==> CellAt(va) != w.cells[w.t.current])
  }

  datatype Event =
    | Store(i: int, v: int, k: int, x: int)
    | Sbrk(increment: int, s: Snapshot)
    | PlainSbrk(increment: int)
    | Forks(s1: Snapshot, child: int)
    | Execs(st: Stages, sp: P.Space, file: seq<Byte>, phdrs: seq<Phdr>, sym: Symbols, cell: Option<Cell>, j: int)
    | Exits(code: int)
    | Yields
    | Reaps(z: int, status: int)

  /** One step of the system: the kernel's part, and where the variables are. */
  ghost predicate Next(w: World, e: Event, w': World, c: Config)
    requires P.Slot(w.t, w.t.current)
  {
    match e
    case Store(i, v, k, x) => StoreStep(w, w', i, v, k, x)
    case Sbrk(increment, s) => SbrkStep(w, w', increment, s, c)
    case PlainSbrk(increment) => PlainSbrkStep(w, w', increment, c)
    case Forks(s1, child) => ForkStep(w, w', s1, child, c)
    case Execs(st, sp, file, phdrs, sym, cell, j) => ExecStep(w, w', st, sp, file, phdrs, sym, cell, j, c)
    case Exits(code) => Runs.TableStepTo(Core(w), Core(w'), P.ExitTable(w.t, code)) && w'.cells == w.cells
    case Yields => Runs.TableStepTo(Core(w), Core(w'), P.YieldTable(w.t)) && w'.cells == w.cells
    case Reaps(z, status) => ReapStep(w, w', z, status, c)
  }

  /** The kernel's part of a step keeps the kernel's invariant. */
  lemma CoreKeeps(w: World, e: Event, w': World, c: Config)
    requires KernelInv(w.t, w.s, c) && c.SmallRam() && Next(w, e, w', c)
    ensures KernelInv(w'.t, w'.s, c) && (e.Sbrk? ==> KernelInv(w'.t, e.s, c))
  {
    match e {
      case Store(i, v, k, x) => Runs.NextKeeps(Core(w), Runs.Event.Store(i, v, k, x), Core(w'), c);
      case Sbrk(increment, s) =>
        var i := w.t.current;
        Runs.NextKeeps(Core(w), Runs.Event.Sbrk(increment), Runs.State(w'.t, s), c);
        Runs.NextKeeps(Runs.State(w'.t, s), Runs.Event.Store(i, w.cells[i].v, w.cells[i].k, NewBreak(w, increment, c)), Core(w'), c);
      case PlainSbrk(increment) => Runs.NextKeeps(Core(w), Runs.Event.Sbrk(increment), Core(w'), c);
      case Forks(s1, child) => Runs.NextKeeps(Core(w), Runs.Event.Forks(s1, child), Core(w'), c);
      case Execs(st, sp, file, phdrs, sym, _, _) => Runs.NextKeeps(Core(w), Runs.Event.Execs(st, sp, file, phdrs, sym), Core(w'), c);
      case Exits(code) => Runs.NextKeeps(Core(w), Runs.Event.Exits(code), Core(w'), c);
      case Yields => Runs.NextKeeps(Core(w), Runs.Event.Yields, Core(w'), c);
      case Reaps(z, status) => Runs.NextKeeps(Core(w), Runs.Event.Reaps(z, status), Core(w'), c);
    }
  }

  /** A store leaves every variable alone but, perhaps, the one it names. */
  lemma StoreElsewhere(s: Snapshot, root: int, v: int, k: int, x: int, r: int, heapEnd: int, cell: Cell, c: Config)
    requires WellFormed(s) && IsTable(s.role, root, 2) && 0 <= v < VPNS && 0 <= k < ENTRIES && IsTable(s.role, r, 2)
    requires InStep(s.mem, r, heapEnd, cell, c) && (r == root ==> Cell(v, k) != cell)
    ensures InStep(UserStore(s.mem, root, v, k, x), r, heapEnd, cell, c)
  {
    var mem' := UserStore(s.mem, root, v, k, x);
    StoresArePrivate(s, root, v, k, x);
    assert LeafPte(mem', r, cell.v) == LeafPte(s.mem, r, cell.v);
    assert UserWord(mem', r, cell.v, cell.k) == UserWord(s.mem, r, cell.v, cell.k);
  }

  lemma StoreKeeps(w: World, w': World, i: int, v: int, k: int, x: int, c: Config, j: int)
    requires KernelInv(w.t, w.s, c) && AllInStep(w, c) && StoreStep(w, w', i, v, k, x) && j in w'.cells && P.InUse(w'.t, j)
    ensures SlotInStep(w', j, c)
  {
    Runs.LiveRoot(w.t, w.s, i, c);
    Runs.LiveRoot(w.t, w.s, j, c);
    assert SlotInStep(w, j, c);
    StoreElsewhere(w.s, w.t.procs[i].space.pageTable, v, k, x, w.t.procs[j].space.pageTable, w.t.procs[j].space.heapEnd, w.cells[j], c);
  }

  // ---------------------------------------------------------------- sbrk

  /** sys_sbrk leaves the page with the variable alone. */
  lemma SbrkKeepsCell(s0: Snapshot, s: Snapshot, r: int, cell: Cell, c: Config)
    requires WellFormed(s0) && IsTable(s0.role, r, 2) && Placed(cell, c) && KeepsPage(s0, s, r, cell.v)
    ensures LeafPte(s.mem, r, cell.v) == LeafPte(s0.mem, r, cell.v)
    ensures UserWord(s.mem, r, cell.v, cell.k) == UserWord(s0.mem, r, cell.v, cell.k)
  {
  }

  lemma BelowHeapKept(s0: Snapshot, s: Snapshot, root: int, heapEnd: int, hi: int, cell: Cell, c: Config)
    requires Placed(cell, c) && KeepsOutside(s0, s, root, PageUp(heapEnd), hi) && c.heapStart <= heapEnd
    ensures KeepsPage(s0, s, root, cell.v)
  {
    assert LeafPte(s.mem, root, cell.v) == LeafPte(s.mem, root, cell.v);
    assert cell.v < PageUp(heapEnd);
  }

  /** The variable holds what the library stored. */
  lemma CellUpdated(s: Snapshot, root: int, cell: Cell, x: int, c: Config)
    requires WellFormed(s) && IsTable(s.role, root, 2) && Placed(cell, c)
    requires W(LeafPte(s.mem, root, cell.v)) && Static(s.mem, root, cell).Some?
    requires 0 < x < WORD_LIMIT && c.heapStart <= x + PAGE_SIZE
    ensures InStep(UserStore(s.mem, root, cell.v, cell.k, x), root, x + PAGE_SIZE, cell, c)
  {
    StoresArePrivate(s, root, cell.v, cell.k, x);
    var mem' := UserStore(s.mem, root, cell.v, cell.k, x);
    assert LeafPte(mem', root, cell.v) == LeafPte(s.mem, root, cell.v);
    assert UserWord(mem', root, cell.v, cell.k) == Some(x);
  }

  lemma SbrkElsewhere(s0: Snapshot, s: Snapshot, root: int, own: Cell, x: int, r: int, heapEnd: int, cell: Cell, c: Config)
    requires WellFormed(s0) && WellFormed(s) && Grows(s0, s, root) && IsTable(s.role, root, 2)
    requires 0 <= own.v < VPNS && 0 <= own.k < ENTRIES
    requires IsTable(s0.role, r, 2) && IsTable(s.role, r, 2) && r != root && InStep(s0.mem, r, heapEnd, cell, c)
    ensures InStep(UserStore(s.mem, root, own.v, own.k, x), r, heapEnd, cell, c)
  {
    StepKept(s0, s, root, r, heapEnd, cell, c);
    StoreElsewhere(s, root, own.v, own.k, x, r, heapEnd, cell, c);
  }

  lemma SbrkSlots(t: P.Table, sp: P.Space, j: int)
    requires P.InUse(t, t.current)
    ensures var t' := WithSpace(t, sp);
            && (P.InUse(t', j) <==> P.InUse(t, j)) && t'.current == t.current && t'.procs[t.current].space == sp
            && (P.InUse(t, j) && j != t.current ==> t'.procs[j] == t.procs[j])
  {
  }

  /** The break after a step of sbrk. */
  function NewBreak(w: World, increment: int, c: Config): int
    requires P.Slot(w.t, w.t.current) && w.t.current in w.cells && 0 <= w.cells[w.t.current].k < ENTRIES
  {
    match Static(w.s.mem, w.t.procs[w.t.current].space.pageTable, w.cells[w.t.current])
    case None => 0
    case Some(x) => UH.BreakOf(x, c.heapStart) + increment
  }

  /** The variable is on a page that sys_sbrk leaves alone. */
  lemma OwnPageKept(w: World, w': World, increment: int, s: Snapshot, c: Config)
    requires P.Slot(w.t, w.t.current) && SbrkStep(w, w', increment, s, c) && SlotInStep(w, w.t.current, c)
    ensures KeepsPage(w.s, s, w.t.procs[w.t.current].space.pageTable, w.cells[w.t.current].v)
  {
    var sp := w.t.procs[w.t.current].space;
    BelowHeapKept(w.s, s, sp.pageTable, sp.heapEnd, PageUp(sp.heapEnd + increment), w.cells[w.t.current], c);
  }

  lemma SbrkKeepsOwn(w: World, w': World, increment: int, s: Snapshot, c: Config)
    requires KernelInv(w.t, w.s, c) && AllInStep(w, c) && KernelInv(w'.t, s, c) && SbrkStep(w, w', increment, s, c)
    ensures SlotInStep(w', w.t.current, c)
  {
    var i := w.t.current;
    var sp, cell, x := w.t.procs[i].space, w.cells[i], NewBreak(w, increment, c);
    assert SlotInStep(w, i, c);
    OwnPageKept(w, w', increment, s, c);
    SbrkSlots(w.t, sp.(heapEnd := sp.heapEnd + increment), i);
    Runs.LiveRoot(w.t, w.s, i, c);
    Runs.LiveRoot(w'.t, s, i, c);
    SbrkKeepsCell(w.s, s, sp.pageTable, cell, c);
    CellUpdated(s, sp.pageTable, cell, x, c);
  }

  lemma SbrkKeepsOther(w: World, w': World, increment: int, s: Snapshot, c: Config, j: int)
    requires KernelInv(w.t, w.s, c) && AllInStep(w, c) && KernelInv(w'.t, s, c) && SbrkStep(w, w', increment, s, c)
    requires j in w'.cells && P.InUse(w'.t, j) && j != w.t.current
    ensures SlotInStep(w', j, c)
  {
    var i := w.t.current;
    var sp, cell, x := w.t.procs[i].space, w.cells[i], NewBreak(w, increment, c);
    SbrkSlots(w.t, sp.(heapEnd := sp.heapEnd + increment), j);
    Runs.LiveRoot(w.t, w.s, i, c);
    Runs.LiveRoot(w.t, w.s, j, c);
    Runs.LiveRoot(w'.t, s, j, c);
    assert SlotInStep(w, j, c);
    assert w'.t.procs[i].space.pageTable == sp.pageTable;
    SbrkElsewhere(w.s, s, sp.pageTable, cell, x, w.t.procs[j].space.pageTable, w.t.procs[j].space.heapEnd, w.cells[j], c);
  }

  lemma PlainSbrkKeepsSlot(w: World, w': World, increment: int, c: Config, j: int)
    requires KernelInv(w.t, w.s, c) && AllInStep(w, c) && PlainSbrkStep(w, w', increment, c)
    requires j in w'.cells && P.InUse(w'.t, j)
    ensures SlotInStep(w', j, c)
  {
    var i := w.t.current;
    var sp := w.t.procs[i].space;
    SbrkSlots(w.t, sp.(heapEnd := sp.heapEnd + increment), j);
    Runs.LiveRoot(w.t, w.s, i, c);
    Runs.LiveRoot(w.t, w.s, j, c);
    assert SlotInStep(w, j, c);
    StepKept(w.s, w'.s, sp.pageTable, w.t.procs[j].space.pageTable, w.t.procs[j].space.heapEnd, w.cells[j], c);
  }

  /** The program can read and write page v. */
  ghost predicate ReadWrite(mem: Memory, root: int, v: int) {
    var e := LeafPte(mem, root, v);
    V(e) && U(e) && R(e) && W(e)
  }

  /** An address that a call of sbrk hands out is mapped for the program to read and write, wherever the heap ends up, if
      and only if it is not below the start of the heap, or was mapped before; s0 is the state before the system call, s
      the one after it. */
  lemma HandedOutIsMapped(s0: Snapshot, s: Snapshot, sp: P.Space, cell: Cell, increment: int, c: Config, a: int)
    requires c.Valid() && SpaceOk(s0, sp, c) && InStep(s0.mem, sp.pageTable, sp.heapEnd, cell, c)
    requires SbrkDone(s0, s, sp, sp.heapEnd + increment)
    requires var brk := UH.BreakOf(Static(s0.mem, sp.pageTable, cell).value, c.heapStart); brk <= a < brk + increment
    ensures ReadWrite(s.mem, sp.pageTable, a / PAGE_SIZE) <==> c.heapStart <= a || ReadWrite(s0.mem, sp.pageTable, a / PAGE_SIZE)
  {
    if c.heapStart <= a {
      assert c.heapStart / PAGE_SIZE <= a / PAGE_SIZE < PageUp(sp.heapEnd + increment);
      GrownPage(s0, s, sp, sp.heapEnd + increment, c, a / PAGE_SIZE);
    } else {
      assert 0 <= a / PAGE_SIZE < PageUp(sp.heapEnd) && a / PAGE_SIZE < VPNS;
      assert LeafPte(s.mem, sp.pageTable, a / PAGE_SIZE) == LeafPte(s0.mem, sp.pageTable, a / PAGE_SIZE);
    }
  }

  // ---------------------------------------------------------------- fork

  lemma ForkedCell(s1: Snapshot, s: Snapshot, sp: P.Space, child: int, cell: Cell, c: Config)
    requires c.Valid() && WellFormed(s1) && WellFormed(s) && SpaceOk(s1, sp, c) && Grows(s1, s, child) && child !in s1.role
    requires var endVa := if sp.heapEnd > sp.userStackTop then sp.heapEnd else sp.userStackTop;
             Forked(s1, s, sp.pageTable, child, EndVpn(endVa), c.kernelBase, c.limit)
    requires InStep(s1.mem, sp.pageTable, sp.heapEnd, cell, c)
    ensures InStep(s.mem, child, sp.heapEnd, cell, c)
  {
    var endVa := if sp.heapEnd > sp.userStackTop then sp.heapEnd else sp.userStackTop;
    ParentRange(s1, sp, c);
    assert cell.v < PageUp(sp.heapEnd) <= EndVpn(endVa);
    ForkCopies(s1, s, sp.pageTable, child, EndVpn(endVa), c.kernelBase, c.limit, cell.v, cell.k);
    ForkedLeaf(s1, s, sp.pageTable, child, EndVpn(endVa), c, cell.v);
  }

  lemma ForkKeepsSlot(w: World, w': World, s1: Snapshot, child: int, c: Config, j: int)
    requires KernelInv(w.t, w.s, c) && AllInStep(w, c) && ForkStep(w, w', s1, child, c)
    requires j in w'.cells && P.InUse(w'.t, j)
    ensures SlotInStep(w', j, c)
  {
    hide InStep, Tables, Leaves, HeapMapped, OnlyUserPages, KernelLeaves, ReadWriteUser, Forked;
    var slot, sp := P.FreeSlot(w.t.procs, 0), w.t.procs[w.t.current].space;
    var i := if j == slot then w.t.current else j;
    assert i in w.cells && P.InUse(w.t, i) && w'.cells[j] == w.cells[i] && SlotInStep(w, i, c);
    var r, heapEnd := w.t.procs[i].space.pageTable, w.t.procs[i].space.heapEnd;
    Runs.LiveRoot(w.t, w.s, i, c);
    StepKept(w.s, s1, NONE, r, heapEnd, w.cells[i], c);
    if j == slot {
      SpaceKept(w.s, s1, NONE, sp, c);
      ForkedCell(s1, w'.s, sp, child, w.cells[i], c);
    } else {
      StepKept(s1, w'.s, child, r, heapEnd, w.cells[j], c);
    }
  }

  // ---------------------------------------------------------------- exec

  /** A word and its eight bytes, as a program reads them. */
  lemma BytesOfWord(mem: Memory, root: int, v: int, k: int, b: int)
    requires 0 <= v < VPNS && 0 <= k < ENTRIES && 0 <= b < 8
    ensures var a := Addr(v) + 8 * k + b;
            UserByte(mem, root, a) == match UserWord(mem, root, v, k) case None => None case Some(x) => Some(ByteOf(x, b))
  {
    var a, off, f := Addr(v) + 8 * k + b, 8 * k + b, PteFrame(LeafPte(mem, root, v));
    SplitAddress(v, off);
    SplitAddress(f, off);
    assert Key(a) == v;
    PageRem8(f, off);
    Rem8(k, b);
  }

  /** A byte of the variable after exec. */
  lemma LoadedByte(s2: Snapshot, s: Snapshot, sp: P.Space, file: seq<Byte>, phdrs: seq<Phdr>, sym: Symbols, cell: Cell, j: int, c: Config, b: int)
    requires Program(file, phdrs) && StartsZero(file, phdrs, j, cell) && Placed(cell, c) && 0 <= b < 8
    requires sp.imagePages == ImagePages(phdrs)
    requires Holds(s2.mem, sp.image, sp.imagePages, USER_BASE, file, phdrs, |phdrs|)
    requires Loaded(s2, s, sp.pageTable, sp.image, sp.imagePages, sym, c.kernelBase, c.limit)
    ensures UserByte(s.mem, sp.pageTable, Addr(cell.v) + 8 * cell.k + b) == Some(0)
  {
    hide Holds, Loaded, UserByte, ImagePages, Disjoint;
    var a := Addr(cell.v) + 8 * cell.k + b;
    CoversImage(file, phdrs);
    assert SegmentByte(file, phdrs[j], a) == 0;
    ProgramReads(s2, s, sp.pageTable, sp.image, sp.imagePages, sym, c.kernelBase, c.limit, file, phdrs, j, a);
  }

  /** After exec the variable reads as zero. */
  lemma LoadedCell(s2: Snapshot, s: Snapshot, sp: P.Space, file: seq<Byte>, phdrs: seq<Phdr>, sym: Symbols, cell: Cell, j: int, c: Config)
    requires Program(file, phdrs) && StartsZero(file, phdrs, j, cell) && Placed(cell, c) && c.Valid() && c.heapStart <= Addr(VPNS)
    requires sp.imagePages == ImagePages(phdrs)
    requires Holds(s2.mem, sp.image, sp.imagePages, USER_BASE, file, phdrs, |phdrs|)
    requires Loaded(s2, s, sp.pageTable, sp.image, sp.imagePages, sym, c.kernelBase, c.limit)
    ensures Static(s.mem, sp.pageTable, cell) == Some(0) && W(LeafPte(s.mem, sp.pageTable, cell.v))
  {
    var root, a := sp.pageTable, Addr(cell.v) + 8 * cell.k;
    var word := UserWord(s.mem, root, cell.v, cell.k);
    SplitAddress(cell.v, 8 * cell.k);
    CoversImage(file, phdrs);
    PageOfProgram(a, sp.imagePages);
    assert LoadedPage(s2, s, root, sp.image, sp.imagePages, sym, c.kernelBase, c.limit, cell.v);
    PteRoundTrip(PteFrame(LeafPte(s.mem, root, cell.v)), USER_RW);
    PteRoundTrip(PteFrame(LeafPte(s.mem, root, cell.v)), USER_RWX);
    forall b | 0 <= b < 8 ensures ByteOf(word.value, b) == 0 {
      BytesOfWord(s.mem, root, cell.v, cell.k, b);
      LoadedByte(s2, s, sp, file, phdrs, sym, cell, j, c, b);
    }
    ZeroBytes(word.value);
  }

  lemma ExecKeepsSlot(w: World, w': World, st: Stages, sp: P.Space, file: seq<Byte>, phdrs: seq<Phdr>, sym: Symbols,
                      cell: Option<Cell>, j: int, c: Config, k: int)
    requires KernelInv(w.t, w.s, c) && AllInStep(w, c)
    requires ExecStep(w, w', st, sp, file, phdrs, sym, cell, j, c)
    requires k in w'.cells && P.InUse(w'.t, k)
    ensures SlotInStep(w', k, c)
  {
    var i, old' := w.t.current, w.t.procs[w.t.current].space.pageTable;
    ExecSlots(w.t, sp);
    Runs.LiveRoot(w.t, w.s, i, c);
    if k == i {
      LoadedCell(st.s2, st.s3, sp, file, phdrs, sym, cell.value, j, c);
    } else {
      Runs.LiveRoot(w.t, w.s, k, c);
      assert SlotInStep(w, k, c);
      ExecElsewhere(w.s, st, old', sp.pageTable, w.t.procs[k].space.pageTable, w.t.procs[k].space.heapEnd, w.cells[k], c);
    }
  }

  lemma ExecSlots(t: P.Table, sp: P.Space)
    requires P.TableInv(t)
    ensures var t' := P.ExecTable(t, sp);
            && |t'.procs| == |t.procs| && t'.procs[t.current].space == sp
            && forall k :: P.InUse(t', k) && k != t.current ==> P.InUse(t, k) && t'.procs[k].space == t.procs[k].space
  {
  }

  lemma ExecElsewhere(s0: Snapshot, st: Stages, old': int, new': int, r: int, heapEnd: int, cell: Cell, c: Config)
    requires WellFormed(s0) && WellFormed(st.s1) && WellFormed(st.s2) && NONE !in s0.role
    requires Dismantled(s0, st.s1, old') && IsTable(s0.role, old', 2) && IsTable(s0.role, r, 2) && r != old'
    requires Grows(st.s1, st.s2, NONE) && Grows(st.s2, st.s3, new') && new' !in st.s2.role
    requires InStep(s0.mem, r, heapEnd, cell, c)
    ensures InStep(st.s3.mem, r, heapEnd, cell, c)
  {
    OtherRootSurvives(s0, st.s1, old', r);
    StepSurvives(s0, st.s1, r, heapEnd, cell, c);
    assert r != NONE;
    StepKept(st.s1, st.s2, NONE, r, heapEnd, cell, c);
    StepKept(st.s2, st.s3, new', r, heapEnd, cell, c);
  }

  // ---------------------------------------------------------------- all runs

  lemma {:induction false} AfterKeepsStep(s: Snapshot, root: int, va: int, src: seq<Byte>, n: nat, r: int, heapEnd: int, cell: Cell, c: Config)
    requires WellFormed(s) && IsTable(s.role, root, 2) && IsTable(s.role, r, 2) && n <= |src| && AllUserStorable(s.mem, root, va, n)
    requires InStep(s.mem, r, heapEnd, cell, c) && (r == root ==> forall a :: va <= a < va + n ==> CellAt(a) != cell)
    ensures InStep(After(s.mem, root, va, src, n), r, heapEnd, cell, c)
  {
    hide WellFormed, InStep, UserStore, StoreByte, LeafPte, PutByte;
    if n > 0 {
      var s1, a := s.(mem := After(s.mem, root, va, src, n - 1)), va + n - 1;
      AfterKeepsStep(s, root, va, src, n - 1, r, heapEnd, cell, c);
      AfterSeen(s, root, va, src, n - 1);
      assert LeafPte(s1.mem, root, Key(a)) == LeafPte(s.mem, root, Key(a));
      assert UserStorable(s.mem, root, a);
      ByteIsUserStore(s1.mem, root, a, src[n - 1]);
      var k := a % PAGE_SIZE / 8;
      var x := PutByte(Entry(s1.mem, PteFrame(LeafPte(s1.mem, root, Key(a))), k), a % 8, src[n - 1]);
      assert CellAt(a) == Cell(Key(a), k);
      StoreElsewhere(s1, root, Key(a), k, x, r, heapEnd, cell, c);
    }
  }

  lemma ReapKeepsSlot(w: World, w': World, z: int, status: int, c: Config, j: int)
    requires KernelInv(w.t, w.s, c) && AllInStep(w, c) && KernelInv(w'.t, w'.s, c) && ReapStep(w, w', z, status, c)
    requires j in w'.cells && P.InUse(w'.t, j)
    ensures SlotInStep(w', j, c)
  {
    hide SpaceOk, InStep, After;
    var root, code := w.t.procs[w.t.current].space.pageTable, w.t.procs[z].exitCode;
    var r, heapEnd, s1 := w.t.procs[j].space.pageTable, w.t.procs[j].space.heapEnd, AtStatus(w.s, root, status, code);
    assert P.InUse(w.t, j) && w'.t.procs[j] == w.t.procs[j] && SlotInStep(w, j, c);
    CurrentSpace(w.t, w.s, c);
    Runs.LiveRoot(w.t, w.s, j, c);
    Runs.LiveRoot(w'.t, w'.s, j, c);
    if status != 0 {
      AfterSeen(w.s, root, status, IntBytes(code), 4);
      AfterKeepsStep(w.s, root, status, IntBytes(code), 4, r, heapEnd, w.cells[j], c);
    }
    StepSurvives(s1, w'.s, r, heapEnd, w.cells[j], c);
  }

  lemma TableKeepsSlot(w: World, w': World, t': P.Table, c: Config, j: int)
    requires AllInStep(w, c) && Runs.TableStepTo(Core(w), Core(w'), t') && w'.cells == w.cells && |t'.procs| == |w.t.procs|
    requires forall i :: P.Slot(w.t, i) ==> (P.InUse(t', i) <==> P.InUse(w.t, i)) && t'.procs[i].space == w.t.procs[i].space
    requires j in w'.cells && P.InUse(w'.t, j)
    ensures SlotInStep(w', j, c)
  {
    assert SlotInStep(w, j, c);
  }

  /** The steps of programs and of sbrk keep the lock step, slot by slot. */
  lemma MemoryStepKeepsSlot(w: World, e: Event, w': World, c: Config, j: int)
    requires KernelInv(w.t, w.s, c) && AllInStep(w, c) && Next(w, e, w', c) && j in w'.cells && P.InUse(w'.t, j)
    requires KernelInv(w'.t, w'.s, c) && (e.Store? || e.PlainSbrk? || (e.Sbrk? && KernelInv(w'.t, e.s, c)))
    ensures SlotInStep(w', j, c)
  {
    if e.Store? {
      StoreKeeps(w, w', e.i, e.v, e.k, e.x, c, j);
    } else if e.PlainSbrk? {
      PlainSbrkKeepsSlot(w, w', e.increment, c, j);
    } else if j == w.t.current {
      SbrkKeepsOwn(w, w', e.increment, e.s, c);
    } else {
      SbrkKeepsOther(w, w', e.increment, e.s, c, j);
    }
  }

  /** So do the steps that create, replace, schedule or end processes. */
  lemma ProcessStepKeepsSlot(w: World, e: Event, w': World, c: Config, j: int)
    requires KernelInv(w.t, w.s, c) && AllInStep(w, c) && Next(w, e, w', c) && j in w'.cells && P.InUse(w'.t, j)
    requires KernelInv(w'.t, w'.s, c) && !(e.Store? || e.PlainSbrk? || e.Sbrk?)
    ensures SlotInStep(w', j, c)
  {
    hide Tables, Leaves, HeapMapped, OnlyUserPages, KernelLeaves, ReadWriteUser, InStep;
    if e.Forks? {
      ForkKeepsSlot(w, w', e.s1, e.child, c, j);
    } else if e.Execs? {
      ExecKeepsSlot(w, w', e.st, e.sp, e.file, e.phdrs, e.sym, e.cell, e.j, c, j);
    } else if e.Exits? {
      TableKeepsSlot(w, w', P.ExitTable(w.t, e.code), c, j);
    } else if e.Yields? {
      YieldKeepsSpaces(w.t);
      TableKeepsSlot(w, w', P.YieldTable(w.t), c, j);
    } else {
      ReapKeepsSlot(w, w', e.z, e.status, c, j);
    }
  }

  /** Each step keeps the kernel's invariant and the lock step. */
  lemma NextKeeps(w: World, e: Event, w': World, c: Config)
    requires KernelInv(w.t, w.s, c) && c.SmallRam() && AllInStep(w, c) && Next(w, e, w', c)
    ensures KernelInv(w'.t, w'.s, c) && AllInStep(w', c)
  {
    CoreKeeps(w, e, w', c);
    forall j | j in w'.cells && P.InUse(w'.t, j) ensures SlotInStep(w', j, c) {
      if e.Store? || e.PlainSbrk? || e.Sbrk? { MemoryStepKeepsSlot(w, e, w', c, j); } else { ProcessStepKeepsSlot(w, e, w', c, j); }
    }
  }

  /** A program that has just been loaded at boot is in step. */
  lemma CreatedInStep(s0: Snapshot, s2: Snapshot, s: Snapshot, sp: P.Space, file: seq<Byte>, phdrs: seq<Phdr>, sym: Symbols,
                      cell: Cell, j: int, c: Config)
    requires c.Valid() && c.heapStart <= Addr(VPNS) && Program(file, phdrs) && Created(s0, s2, s, sp, file, phdrs, sym, c)
    requires Placed(cell, c) && StartsZero(file, phdrs, j, cell)
    ensures InStep(s.mem, sp.pageTable, sp.heapEnd, cell, c)
  {
    LoadedCell(s2, s, sp, file, phdrs, sym, cell, j, c);
  }

  ghost predicate IsRun(ws: seq<World>, es: seq<Event>, c: Config) {
    && |ws| == |es| + 1
    && forall i :: 0 <= i < |es| ==> P.Slot(ws[i].t, ws[i].t.current) && Next(ws[i], es[i], ws[i + 1], c)
  }

  /** Over every run, at every step boundary, in every process that uses sbrk.c, heap_end is the break plus a page. */
  lemma {:induction false} RunInStep(ws: seq<World>, es: seq<Event>, c: Config, n: nat)
    requires c.SmallRam() && IsRun(ws, es, c) && n < |ws|
    requires KernelInv(ws[0].t, ws[0].s, c) && AllInStep(ws[0], c)
    ensures KernelInv(ws[n].t, ws[n].s, c) && AllInStep(ws[n], c)
  {
    hide KernelInv, Next, AllInStep;
    if n > 0 {
      RunInStep(ws, es, c, n - 1);
      NextKeeps(ws[n - 1], es[n - 1], ws[n], c);
    }
  }

  // ---------------------------------------------------------------- malloc on top of sbrk

  /** The break of the program in slot i. */
  ghost function BreakIn(w: World, i: int, c: Config): int
    requires P.Slot(w.t, i) && i in w.cells && SlotInStep(w, i, c)
  {
    UH.BreakOf(Static(w.s.mem, w.t.procs[i].space.pageTable, w.cells[i]).value, c.heapStart)
  }

  /** Wherever a run has led: every byte of every block on the heap of a program, up to its break, is mapped for the
      program to read and write, live payloads included. */
  lemma BlocksMapped(w: World, i: int, h: UH.Blocks, c: Config, b: UH.Blk, a: int)
    requires KernelInv(w.t, w.s, c) && P.InUse(w.t, i) && i in w.cells && SlotInStep(w, i, c)
    requires UH.Sound(h, c.heapStart, BreakIn(w, i, c)) && b in h.all && b.addr <= a < UH.End(b)
    ensures var e := LeafPte(w.s.mem, w.t.procs[i].space.pageTable, a / PAGE_SIZE); V(e) && U(e) && R(e) && W(e)
  {
    assert SpaceOk(w.s, w.t.procs[i].space, c);
    UH.InsideHeap(h.all, c.heapStart, BreakIn(w, i, c), b);
    assert c.heapStart / PAGE_SIZE <= a / PAGE_SIZE < PageUp(w.t.procs[i].space.heapEnd);
  }

  /** The block that malloc puts at the break is mapped after the call of sbrk it made, wherever the heap ends up,
      provided that its size fits a long. */
  lemma NewBlockMapped(s0: Snapshot, s: Snapshot, sp: P.Space, cell: Cell, h: UH.Blocks, request: int, c: Config, a: int)
    requires c.Valid() && SpaceOk(s0, sp, c) && InStep(s0.mem, sp.pageTable, sp.heapEnd, cell, c)
    requires 0 <= request < WORD_LIMIT && SbrkDone(s0, s, sp, sp.heapEnd + UH.Increment(Align8(request)))
    requires var brk := UH.BreakOf(Static(s0.mem, sp.pageTable, cell).value, c.heapStart);
             && c.heapStart <= brk && UH.FirstFit(h.free, Align8(request), 0) == |h.free|
             && Align8(request) + UH.BLOCK_SIZE <= UH.LONG_MAX
             && UH.Served(h, request, brk).addr <= a < UH.End(UH.Served(h, request, brk))
    ensures var e := LeafPte(s.mem, sp.pageTable, a / PAGE_SIZE); V(e) && U(e) && R(e) && W(e)
  {
    hide SpaceOk, SbrkDone;
    AlignCovers(request);
    HandedOutIsMapped(s0, s, sp, cell, UH.Increment(Align8(request)), c, a);
  }

  // ---------------------------------------------------------------- sbrk.c on top of the kernel

  /** The variable's page is mapped, writable and in use. */
  lemma CellFrame(s: Snapshot, r: int, heapEnd: int, cell: Cell, c: Config)
    requires WellFormed(s) && IsTable(s.role, r, 2) && InStep(s.mem, r, heapEnd, cell, c)
    ensures var e := LeafPte(s.mem, r, cell.v); V(e) && U(e) && W(e) && PteFrame(e) in s.role
  {
    WalkStays(s.mem, s.role, r, cell.v);
    assert LeafEntry(s.mem, s.role, LowTable(s.mem, r, cell.v), Px(0, cell.v));
  }

  /** What sbrk.c reads first: its variable, or the start of the heap when that is still zero. */
  method LoadCell(table: P.ProcessTable, ram: PageMemory, sp: P.Space, cell: Cell, start: int, ghost c: Config) returns (prev: int)
    requires Inv(table, ram, c) && start == c.heapStart && sp == table.procs[table.current].space
    requires InStep(ram.mem, sp.pageTable, sp.heapEnd, cell, c)
    ensures prev == sp.heapEnd - PAGE_SIZE
  {
    var frame := PteFrame(LeafPte(ram.mem, sp.pageTable, cell.v));
    prev := UH.BreakOf(Entry(ram.mem, frame, cell.k) % WORD_LIMIT, start);
  }

  /** The store at the end of sbrk.c. */
  method StoreCell(table: P.ProcessTable, ram: PageMemory, root: int, cell: Cell, x: int, ghost heapEnd: int, ghost c: Config, ghost s: Snapshot)
    requires Sound(ram) && s == Now(ram) && IsTable(s.role, root, 2) && InStep(s.mem, root, heapEnd, cell, c)
    requires 0 < x < WORD_LIMIT && c.heapStart <= x + PAGE_SIZE
    modifies ram`mem
    ensures Sound(ram) && Now(ram) == s.(mem := UserStore(s.mem, root, cell.v, cell.k, x))
    ensures InStep(ram.mem, root, x + PAGE_SIZE, cell, c)
    ensures table.View() == old(table.View()) && (old(Inv(table, ram, c)) ==> Inv(table, ram, c))
  {
    hide Tables, Leaves, Spaces;
    CellFrame(s, root, heapEnd, cell, c);
    StoresArePrivate(s, root, cell.v, cell.k, x);
    CellUpdated(s, root, cell, x, c);
    if KernelInv(table.View(), s, c) {
      StoreKeepsKernel(table.View(), s, root, cell.v, cell.k, x, c);
    }
    ram.StoreWord(PteFrame(LeafPte(ram.mem, root, cell.v)), cell.k, x);
    assert Now(ram) == s.(mem := UserStore(s.mem, root, cell.v, cell.k, x));
  }

  lemma CellStays(s0: Snapshot, s: Snapshot, root: int, heapEnd: int, hi: int, cell: Cell, c: Config)
    requires WellFormed(s0) && IsTable(s0.role, root, 2) && InStep(s0.mem, root, heapEnd, cell, c)
    requires KeepsOutside(s0, s, root, PageUp(heapEnd), hi)
    ensures InStep(s.mem, root, heapEnd, cell, c)
  {
    BelowHeapKept(s0, s, root, heapEnd, hi, cell, c);
    SbrkKeepsCell(s0, s, root, cell, c);
  }

  /** The system call inside sbrk.c, as the library sees it: its variable stays where it is. */
  method SbrkCall(table: P.ProcessTable, ram: PageMemory, increment: int, sp: P.Space, ghost cell: Cell, ghost c: Config)
    returns (ok: bool, ghost s: Snapshot)
    requires Inv(table, ram, c) && sp == table.procs[table.current].space
    requires InStep(ram.mem, sp.pageTable, sp.heapEnd, cell, c) && c.heapStart <= sp.heapEnd + increment && IsLong(increment)
    modifies table.procs, ram, ram.tracker, ram.tracker.table
    ensures !ok ==> old(ram.Available()) < PagesCost(PageUp(sp.heapEnd), PageUp(sp.heapEnd + increment))
    ensures ok ==> ram.Available() >= old(ram.Available()) - PagesCost(PageUp(sp.heapEnd), PageUp(sp.heapEnd + increment))
    ensures ok ==> Sound(ram) && Now(ram) == s && WellFormed(s) && SbrkDone(old(Now(ram)), s, sp, sp.heapEnd + increment)
    ensures ok ==> table.View() == WithSpace(old(table.View()), sp.(heapEnd := sp.heapEnd + increment))
    ensures ok ==> IsTable(s.role, sp.pageTable, 2) && InStep(s.mem, sp.pageTable, sp.heapEnd, cell, c) && 0 < sp.heapEnd - PAGE_SIZE + increment < WORD_LIMIT
    ensures ok && sp.heapEnd + increment <= Addr(c.kernelBase) ==> Inv(table, ram, c)
  {
    ghost var s0 := Now(ram);
    assert P.InUse(table.View(), table.current) && SpaceOk(s0, sp, c);
    NewEndIs(sp, increment, c);
    var res := SysSbrk(table, ram, increment, sp, c);
    s := Now(ram);
    ok := res.Some?;
    if ok {
      CellStays(s0, s, sp.pageTable, sp.heapEnd, PageUp(sp.heapEnd + increment), cell, c);
    }
  }

  /** sbrk of the user library, run by the current process: it reads its variable, calls sys_sbrk and stores the new
      break. Afterwards both ends have moved by the increment, and are in step again; s is the state between the system
      call and the store. None stands for PANIC("out of memory"), which does not happen while there are enough frames
      for the new pages and their tables. */
  method UserSbrk(table: P.ProcessTable, ram: PageMemory, increment: int, sp: P.Space, cell: Cell, start: int, ghost c: Config)
    returns (r: Option<int>, ghost s: Snapshot)
    requires Inv(table, ram, c) && start == c.heapStart && sp == table.procs[table.current].space
    requires InStep(ram.mem, sp.pageTable, sp.heapEnd, cell, c) && start <= sp.heapEnd + increment && IsLong(increment)
    modifies table.procs, ram, ram.tracker, ram.tracker.table
    ensures r.None? ==> old(ram.Available()) < PagesCost(PageUp(sp.heapEnd), PageUp(sp.heapEnd + increment))
    ensures r.Some? ==> ram.Available() >= old(ram.Available()) - PagesCost(PageUp(sp.heapEnd), PageUp(sp.heapEnd + increment))
    ensures r.Some? ==> r.value == sp.heapEnd - PAGE_SIZE && Sound(ram) && WellFormed(s) && SbrkDone(old(Now(ram)), s, sp, sp.heapEnd + increment)
    ensures r.Some? ==> table.View() == WithSpace(old(table.View()), sp.(heapEnd := sp.heapEnd + increment))
    ensures r.Some? ==> Now(ram) == s.(mem := UserStore(s.mem, sp.pageTable, cell.v, cell.k, sp.heapEnd - PAGE_SIZE + increment))
    ensures r.Some? ==> InStep(ram.mem, sp.pageTable, sp.heapEnd + increment, cell, c)
    ensures r.Some? && sp.heapEnd + increment <= Addr(c.kernelBase) ==> Inv(table, ram, c)
  {
    hide *;
    var prev := LoadCell(table, ram, sp, cell, start, c);
    var ok;
    ok, s := SbrkCall(table, ram, increment, sp, cell, c);
    if !ok {
      return None, s;
    }
    StoreCell(table, ram, sp.pageTable, cell, prev + increment, sp.heapEnd, c, s);
    return Some(prev), s;
  }

  /** A call of sbrk leaves the pages below the old end alone. */
  lemma BelowEndKept(s0: Snapshot, s: Snapshot, s': Snapshot, sp: P.Space, newEnd: int, cell: Cell, x: int, v: int)
    requires SbrkDone(s0, s, sp, newEnd) && WellFormed(s) && 0 <= cell.v < VPNS && 0 <= cell.k < ENTRIES
    requires s' == s.(mem := UserStore(s.mem, sp.pageTable, cell.v, cell.k, x))
    requires 0 <= v < VPNS && v < PageUp(sp.heapEnd)
    ensures LeafPte(s'.mem, sp.pageTable, v) == LeafPte(s0.mem, sp.pageTable, v)
  {
    StoresArePrivate(s, sp.pageTable, cell.v, cell.k, x);
    assert LeafPte(s'.mem, sp.pageTable, v) == LeafPte(s.mem, sp.pageTable, v) == LeafPte(s0.mem, sp.pageTable, v);
  }

  lemma InvValid(table: P.ProcessTable, ram: PageMemory, sp: P.Space, c: Config)
    requires Inv(table, ram, c) && sp == table.procs[table.current].space
    ensures c.Valid() && ram.Available() >= ram.Room() >= 0 && 0 <= table.current < table.procs.Length
  {
  }

  lemma InStepPlaced(mem: Memory, root: int, heapEnd: int, cell: Cell, c: Config)
    requires InStep(mem, root, heapEnd, cell, c)
    ensures 0 <= cell.v < VPNS && 0 <= cell.k < ENTRIES
  {
  }

  lemma TwoPagesCost(v: int)
    ensures PagesCost(v, v + 2) <= 6 && PagesCost(v + 1, v) == 0
  {
  }

  lemma PageBelow(start: int, c: Config)
    requires c.Valid() && start == c.heapStart && start + PAGE_SIZE <= Addr(c.kernelBase)
    ensures 0 <= start / PAGE_SIZE - 1 < VPNS && (start - PAGE_SIZE) / PAGE_SIZE == start / PAGE_SIZE - 1
    ensures PageUp(start) == start / PAGE_SIZE && PageUp(start + PAGE_SIZE) == start / PAGE_SIZE + 1 && PageUp(start + 2 * PAGE_SIZE) == start / PAGE_SIZE + 2
    ensures IsLong(-PAGE_SIZE) && IsLong(2 * PAGE_SIZE)
  {
  }

  /** The calls that reach below the heap: right after loading, sbrk(-4096) takes the break a page below the start of the
      heap, and sbrk(8192) then hands out that page, which is not mapped. */
  method ShrinkThenGrow(table: P.ProcessTable, ram: PageMemory, sp: P.Space, cell: Cell, start: int, ghost c: Config) returns (r: Option<int>)
    requires Inv(table, ram, c) && start == c.heapStart && sp == table.procs[table.current].space
    requires InStep(ram.mem, sp.pageTable, sp.heapEnd, cell, c) && sp.heapEnd == start + PAGE_SIZE && start + 2 * PAGE_SIZE <= Addr(c.kernelBase)
    requires LeafPte(ram.mem, sp.pageTable, start / PAGE_SIZE - 1) == 0
    modifies table.procs, ram, ram.tracker, ram.tracker.table
    ensures r.None? ==> old(ram.Available()) < 6
    ensures r.Some? ==> r.value == start - PAGE_SIZE && !V(LeafPte(ram.mem, sp.pageTable, r.value / PAGE_SIZE))
    ensures r.Some? ==> Inv(table, ram, c)
  {
    hide KernelInv, Sound, WellFormed, SbrkDone, InStep, LeafPte, UserStore, PagesCost, Leaves, Tables;
    ghost var s0, s, s' := Now(ram), Now(ram), Now(ram);
    InvValid(table, ram, sp, c);
    PageBelow(start, c);
    TwoPagesCost(start / PAGE_SIZE);
    InStepPlaced(ram.mem, sp.pageTable, sp.heapEnd, cell, c);
    var r1;
    r1, s := UserSbrk(table, ram, -PAGE_SIZE, sp, cell, start, c);
    assert r1.Some?;
    ghost var s1 := Now(ram);
    BelowEndKept(s0, s, s1, sp, start, cell, start - PAGE_SIZE, start / PAGE_SIZE - 1);
    r, s' := UserSbrk(table, ram, 2 * PAGE_SIZE, sp.(heapEnd := start), cell, start, c);
    if r.Some? {
      BelowEndKept(s1, s', Now(ram), sp.(heapEnd := start), start + 2 * PAGE_SIZE, cell, start + PAGE_SIZE, start / PAGE_SIZE - 1);
    }
  }
}
