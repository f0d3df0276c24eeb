/** Whole runs of the system: user stores and system calls of any process, in any order and number, keep the
    invariant of the kernel. Each step says what the method that performs it promises. */
module Runs {
  import opened Wrappers
  import opened Sv39
  import opened PageTree
  import opened PageMemory
  import opened PageTables
  import opened Teardown
  import opened HeapGrowth
  import opened Build
  import opened Fork
  import opened Bytes
  import opened CopyToUser
  import opened Elf
  import opened Kernel
  import opened Syscalls
  import P = ProcTable

  datatype State = State(t: P.Table, s: Snapshot)

  /** What Sound says of the allocator, the trees and the tracker, without the invariant of the kernel. */
  ghost predicate Stands(s: Snapshot, c: Config) { WellFormed(s) && s.owned.Keys <= s.role.Keys && c.InRam(s) }

  /** A store by user program i. */
  ghost predicate StoreStep(a: State, b: State, i: int, v: int, k: int, x: int) {
    && P.InUse(a.t, i) && 0 <= v < VPNS && 0 <= k < ENTRIES
    && b == State(a.t, a.s.(mem := UserStore(a.s.mem, a.t.procs[i].space.pageTable, v, k, x)))
  }

  /** sys_sbrk by the current process, to an end that is not negative. */
  ghost predicate SbrkStep(a: State, b: State, increment: int, c: Config)
    requires P.Slot(a.t, a.t.current)
  {
    var sp := a.t.procs[a.t.current].space;
    && 0 <= sp.heapEnd + increment
    && SbrkDone(a.s, b.s, sp, sp.heapEnd + increment) && Stands(b.s, c)
    && b.t == WithSpace(a.t, sp.(heapEnd := sp.heapEnd + increment))
  }

  /** A sys_fork that finds a free slot. */
  ghost predicate ForkStep(a: State, b: State, s1: Snapshot, child: int, c: Config)
    requires P.Slot(a.t, a.t.current)
  {
    && P.FreeSlot(a.t.procs, 0) != P.NOBODY && WellFormed(s1)
    && ForkDone(a.t, a.s, s1, b.t, b.s, child, c) && Stands(b.s, c)
  }

  /** sys_exec. */
  ghost predicate ExecStep(a: State, b: State, st: Stages, sp: P.Space, file: seq<Byte>, phdrs: seq<Phdr>, sym: Symbols, c: Config)
    requires P.Slot(a.t, a.t.current)
  {
    && Program(file, phdrs) && Fits(phdrs, sym, c.kernelBase) && sym.heapStart == c.heapStart
    && ExecDone(a.s, st.s1, st.s2, st.s3, a.t.procs[a.t.current].space.pageTable, sp, file, phdrs, sym, c) && Stands(st.s3, c)
    && b.t == P.ExecTable(a.t, sp) && P.Slot(b.t, b.t.current) && b.s == st.s3.(pid := b.t.procs[b.t.current].pid)
  }

  /** Only the process table moves, and with it the pid that allocations are charged to. */
  ghost predicate TableStepTo(a: State, b: State, t: P.Table) {
    b.t == t && P.Slot(t, t.current) && b.s == a.s.(pid := t.procs[t.current].pid)
  }

  /** A wait that stores the exit code of slot z, the caller's first zombie child, through status and reaps the slot. */
  ghost predicate ReapStep(a: State, b: State, z: int, status: int, c: Config)
    requires P.Slot(a.t, a.t.current)
  {
    var root := a.t.procs[a.t.current].space.pageTable;
    && z == P.ZombieChild(a.t.procs, a.t.current, 0) && P.InUse(a.t, z) && z != a.t.current && z != P.IDLE && ReapSafe(a.t, a.s, z) && StatusOk(a.s.mem, root, status)
    && b.t == P.Reap(a.t, z) && Stands(b.s, c)
    && ReapDone(a.t, AtStatus(a.s, root, status, a.t.procs[z].exitCode), b.s, z)
  }

  datatype Event =
    | Store(i: int, v: int, k: int, x: int)
    | Sbrk(increment: int)
    | Forks(s1: Snapshot, child: int)
    | Execs(st: Stages, sp: P.Space, file: seq<Byte>, phdrs: seq<Phdr>, sym: Symbols)
    | Exits(code: int)
    | Yields
    | Reaps(z: int, status: int)

  ghost predicate Next(a: State, e: Event, b: State, c: Config)
    requires P.Slot(a.t, a.t.current)
  {
    match e
    case Store(i, v, k, x) => StoreStep(a, b, i, v, k, x)
    case Sbrk(increment) => SbrkStep(a, b, increment, c)
    case Forks(s1, child) => ForkStep(a, b, s1, child, c)
    case Execs(st, sp, file, phdrs, sym) => ExecStep(a, b, st, sp, file, phdrs, sym, c)
    case Exits(code) => TableStepTo(a, b, P.ExitTable(a.t, code))
    case Yields => TableStepTo(a, b, P.YieldTable(a.t))
    case Reaps(z, status) => ReapStep(a, b, z, status, c)
  }

  // ---------------------------------------------------------------- each step

  lemma LiveRoot(t: P.Table, s: Snapshot, i: int, c: Config)
    requires KernelInv(t, s, c) && P.InUse(t, i)
    ensures var sp := t.procs[i].space;
            IsTable(s.role, sp.pageTable, 2) && SpaceOk(s, sp, c) && 0 <= sp.heapEnd <= Addr(c.kernelBase) <= MAXVA
    ensures forall j :: P.InUse(t, j) && j != i ==> t.procs[j].space.pageTable != t.procs[i].space.pageTable
  {
  }

  /** The space of a process after its heap end moved. */
  lemma MovedSpace(s0: Snapshot, s: Snapshot, sp: P.Space, newHeap: int, c: Config)
    requires c.Valid() && SpaceOk(s0, sp, c) && SbrkDone(s0, s, sp, newHeap) && 0 <= newHeap <= Addr(c.kernelBase)
    ensures SpaceOk(s, sp.(heapEnd := newHeap), c)
  {
    if newHeap > sp.heapEnd {
      GrownSpace(s0, s, sp, newHeap, c);
    } else {
      assert PageUp(newHeap) <= PageUp(sp.heapEnd);
      forall v | 0 <= v < VPNS ensures LeafPte(s.mem, sp.pageTable, v) == LeafPte(s0.mem, sp.pageTable, v) {
        assert KeepsPage(s0, s, sp.pageTable, v);
      }
    }
  }

  lemma ConfigValid(t: P.Table, s: Snapshot, c: Config)
    requires KernelInv(t, s, c)
    ensures c.Valid()
  {
  }

  lemma SbrkKeeps(a: State, b: State, increment: int, c: Config)
    requires KernelInv(a.t, a.s, c) && c.SmallRam() && SbrkStep(a, b, increment, c)
    ensures KernelInv(b.t, b.s, c)
  {
    hide KernelInv, SpaceOk, WellFormed, KeepsOutside, FreshRange;
    CurrentSpace(a.t, a.s, c);
    ConfigValid(a.t, a.s, c);
    var sp := a.t.procs[a.t.current].space;
    HeapStaysBelowKernel(a.s, b.s, sp, sp.heapEnd + increment, c);
    MovedSpace(a.s, b.s, sp, sp.heapEnd + increment, c);
    SbrkInv(a.t, a.s, b.s, sp.heapEnd + increment, c);
  }

  lemma ExecKeeps(a: State, b: State, st: Stages, sp: P.Space, file: seq<Byte>, phdrs: seq<Phdr>, sym: Symbols, c: Config)
    requires KernelInv(a.t, a.s, c) && ExecStep(a, b, st, sp, file, phdrs, sym, c)
    ensures KernelInv(b.t, b.s, c)
  {
    FitsLaidOut(phdrs, sym, c.kernelBase);
    ExecInv(a.t, a.s, st.s1, st.s2, st.s3, sp, sym, c);
    Syscalls.ExecStep(a.t, sp, st.s3, c);
  }

  lemma YieldKeeps(a: State, b: State, c: Config)
    requires KernelInv(a.t, a.s, c) && TableStepTo(a, b, P.YieldTable(a.t))
    ensures KernelInv(b.t, b.s, c)
  {
    P.YieldInv(a.t);
    YieldKeepsSpaces(a.t);
    TableStep(a.t, b.t, a.s, c);
  }

  lemma ExitKeeps(a: State, b: State, code: int, c: Config)
    requires KernelInv(a.t, a.s, c) && TableStepTo(a, b, P.ExitTable(a.t, code))
    ensures KernelInv(b.t, b.s, c)
  {
    P.ApplyInv(a.t, P.Op.Exit(code));
    TableStep(a.t, b.t, a.s, c);
  }

  lemma ReapKeeps(a: State, b: State, z: int, status: int, c: Config)
    requires KernelInv(a.t, a.s, c) && ReapStep(a, b, z, status, c)
    ensures KernelInv(b.t, b.s, c)
  {
    hide SpaceOk, AtStatus, ReapSafe, Survives;
    var root, code := a.t.procs[a.t.current].space.pageTable, a.t.procs[z].exitCode;
    CurrentSpace(a.t, a.s, c);
    StatusKeepsKernel(a.t, a.s, root, status, code, c);
    StatusKeepsSafety(a.t, a.s, z, root, status, code);
    ReapKernelInv(a.t, AtStatus(a.s, root, status, code), b.s, z, c);
  }

  /** Each step keeps the invariant of the kernel. */
  lemma NextKeeps(a: State, e: Event, b: State, c: Config)
    requires KernelInv(a.t, a.s, c) && c.SmallRam() && Next(a, e, b, c)
    ensures KernelInv(b.t, b.s, c)
  {
    match e {
      case Store(i, v, k, x) =>
        LiveRoot(a.t, a.s, i, c);
        StoreKeepsKernel(a.t, a.s, a.t.procs[i].space.pageTable, v, k, x, c);
      case Sbrk(increment) => SbrkKeeps(a, b, increment, c);
      case Forks(s1, child) => ForkInv(a.t, a.s, s1, b.s, child, c);
      case Execs(st, sp, file, phdrs, sym) => ExecKeeps(a, b, st, sp, file, phdrs, sym, c);
      case Exits(code) => ExitKeeps(a, b, code, c);
      case Yields => YieldKeeps(a, b, c);
      case Reaps(z, status) => ReapKeeps(a, b, z, status, c);
    }
  }

  // ---------------------------------------------------------------- all runs

  ghost predicate IsRun(states: seq<State>, es: seq<Event>, c: Config) {
    && |states| == |es| + 1
    && forall i :: 0 <= i < |es| ==> P.Slot(states[i].t, states[i].t.current) && Next(states[i], es[i], states[i + 1], c)
  }

  /** Over every run, the invariant of the whole kernel holds at every step boundary. */
  lemma {:induction false} RunInv(states: seq<State>, es: seq<Event>, c: Config, n: nat)
    requires c.SmallRam() && IsRun(states, es, c) && n < |states| && KernelInv(states[0].t, states[0].s, c)
    ensures KernelInv(states[n].t, states[n].s, c)
  {
    hide KernelInv, Next;
    if n > 0 {
      RunInv(states, es, c, n - 1);
      NextKeeps(states[n - 1], es[n - 1], states[n], c);
    }
  }

  // ---------------------------------------------------------------- the exit code on its way to the parent

  /** A zombie that is not the current process and is not reaped is left alone by every step. */
  lemma ZombieKept(a: State, e: Event, b: State, z: int, c: Config)
    requires KernelInv(a.t, a.s, c) && Next(a, e, b, c)
    requires P.Slot(a.t, z) && a.t.procs[z].state == P.Zombie && z != P.IDLE && (z == a.t.current ==> e.Yields?)
    requires !(e.Reaps? && e.z == z)
    ensures P.Slot(b.t, z) && b.t.procs[z] == a.t.procs[z] && b.t.current != z
  {
    hide KernelInv, SbrkDone, ForkDone, ExecDone, ReapDone, P.YieldTable, P.ExecTable;
    TableOf(a.t, a.s, c);
    match e {
      case Store(i, v, k, x) =>
      case Sbrk(increment) =>
      case Forks(s1, child) => ForkedTable(a, b, s1, child, c);
      case Execs(st, sp, file, phdrs, sym) =>
        P.ExecMoves(a.t, sp);
        P.ZombieStep(a.t, P.Op.Exec(sp), z);
      case Exits(code) =>
      case Yields =>
        P.YieldMoves(a.t);
        P.ZombieStep(a.t, P.Op.Yield, z);
        YieldLeavesZombie(a.t, z);
      case Reaps(z', status) =>
    }
  }

  lemma TableOf(t: P.Table, s: Snapshot, c: Config)
    requires KernelInv(t, s, c)
    ensures P.TableInv(t)
  {
  }

  lemma ForkedTable(a: State, b: State, s1: Snapshot, child: int, c: Config)
    requires P.Slot(a.t, a.t.current) && ForkStep(a, b, s1, child, c)
    ensures var sp := a.t.procs[a.t.current].space; b.t == P.ForkTable(a.t, P.Space(child, sp.heapEnd, sp.userStackTop, 0, 0))
  {
  }

  lemma YieldLeavesZombie(t: P.Table, z: int)
    requires P.TableInv(t) && P.Slot(t, z) && t.procs[z].state == P.Zombie && z != P.IDLE
    ensures P.YieldTable(t).current != z
  {
  }

  /** From slot z's exit at step k on, z does nothing but yield, and nobody reaps it before step n. */
  ghost predicate Waits(states: seq<State>, es: seq<Event>, k: nat, n: nat, z: int)
    requires |states| == |es| + 1 && n <= |es|
  {
    forall m :: k < m < n ==> (states[m].t.current == z ==> es[m].Yields?) && !(es[m].Reaps? && es[m].z == z)
  }

  /** The exit code stays in the process table. */
  lemma {:induction false} CodeKept(states: seq<State>, es: seq<Event>, c: Config, k: nat, n: nat)
    requires c.SmallRam() && IsRun(states, es, c) && KernelInv(states[0].t, states[0].s, c)
    requires k < n <= |es| && es[k].Exits? && states[k].t.current != P.IDLE && Waits(states, es, k, n, states[k].t.current)
    ensures var z := states[k].t.current;
            P.Slot(states[n].t, z) && states[n].t.procs[z].state == P.Zombie && states[n].t.procs[z].exitCode == es[k].code
    ensures P.Slot(states[k].t, states[k].t.current)
    ensures states[n].t.procs[states[k].t.current].parent == states[k].t.procs[states[k].t.current].parent
  {
    hide KernelInv, Next;
    RunInv(states, es, c, k);
    CurrentInUse(states[k].t, states[k].s, c);
    if n == k + 1 {
      ExitedNow(states[k], es[k], states[k + 1], c);
    } else {
      CodeKept(states, es, c, k, n - 1);
      RunInv(states, es, c, n - 1);
      ZombieKept(states[n - 1], es[n - 1], states[n], states[k].t.current, c);
    }
  }

  lemma ExitedNow(a: State, e: Event, b: State, c: Config)
    requires P.Slot(a.t, a.t.current) && Next(a, e, b, c) && e.Exits?
    ensures var z := a.t.current;
            P.Slot(b.t, z) && b.t.procs[z].state == P.Zombie && b.t.procs[z].exitCode == e.code && b.t.procs[z].parent == a.t.procs[z].parent
  {
  }

  lemma UserFrameOwned(s: Snapshot, root: int, v: int)
    requires WellFormed(s) && IsTable(s.role, root, 2) && V(LeafPte(s.mem, root, v)) && U(LeafPte(s.mem, root, v))
    ensures OwnedBy(LeafPte(s.mem, root, v)) == PteFrame(LeafPte(s.mem, root, v)) != NONE
  {
    WalkStays(s.mem, s.role, root, v);
    assert LeafEntry(s.mem, s.role, LowTable(s.mem, root, v), Px(0, v));
  }

  lemma RootSurvives(s0: Snapshot, s: Snapshot, root: int)
    requires Survives(s0, s) && IsTable(s.role, root, 2)
    ensures IsTable(s0.role, root, 2)
  {
  }

  lemma ByteSurvives(s0: Snapshot, s: Snapshot, root: int, a: int)
    requires WellFormed(s0) && WellFormed(s) && Survives(s0, s) && IsTable(s.role, root, 2) && NONE !in s0.role
    ensures UserByte(s.mem, root, a) == UserByte(s0.mem, root, a)
  {
    hide WellFormed, Survives, LeafPte, MemByte, Translations;
    SurvivorsUntouched(s0, s, root);
    RootSurvives(s0, s, root);
    var e := LeafPte(s0.mem, root, Key(a));
    assert LeafPte(s.mem, root, Key(a)) == e;
    if V(e) && U(e) {
      UserFrameOwned(s0, root, Key(a));
      SameFrameSameByte(s.mem, PteFrame(e), s0.mem, PteFrame(e), a % PAGE_SIZE);
    }
  }

  /** A child exits with a code, and from then on at most yields until its parent's wait reaps it, however long the run in
      between: after that wait the parent reads the code at its status pointer. */
  lemma ExitCodeArrives(states: seq<State>, es: seq<Event>, c: Config, k: nat, n: nat)
    requires c.SmallRam() && IsRun(states, es, c) && KernelInv(states[0].t, states[0].s, c)
    requires k < n < |es| && es[k].Exits? && states[k].t.current != P.IDLE && Waits(states, es, k, n, states[k].t.current)
    requires es[n].Reaps? && es[n].z == states[k].t.current && es[n].status > 0 && es[n].status + 4 <= MAXVA
    ensures P.Slot(states[n].t, states[n].t.current)
    ensures P.Slot(states[n].t, es[n].z) && states[n].t.procs[es[n].z].parent == states[n].t.current
    ensures StatusReads(states[n + 1].s.mem, states[n].t.procs[states[n].t.current].space.pageTable, es[n].status, es[k].code)
  {
    hide KernelInv, StatusReads, StatusOk, AtStatus, Waits;
    CodeKept(states, es, c, k, n);
    RunInv(states, es, c, n);
    RunInv(states, es, c, n + 1);
    assert Next(states[n], es[n], states[n + 1], c);
    ReapReports(states[n], states[n + 1], es[n].z, es[n].status, c);
  }

  lemma ReapReports(a: State, b: State, z: int, status: int, c: Config)
    requires KernelInv(a.t, a.s, c) && KernelInv(b.t, b.s, c) && P.Slot(a.t, a.t.current) && ReapStep(a, b, z, status, c)
    requires status > 0 && status + 4 <= MAXVA
    ensures StatusReads(b.s.mem, a.t.procs[a.t.current].space.pageTable, status, a.t.procs[z].exitCode)
  {
    hide SpaceOk, UserByte, ReapSafe, Survives, StatusOk;
    var root, code := a.t.procs[a.t.current].space.pageTable, a.t.procs[z].exitCode;
    var s' := AtStatus(a.s, root, status, code);
    CurrentSpace(a.t, a.s, c);
    StatusKeepsKernel(a.t, a.s, root, status, code, c);
    StatusValue(a.s, root, status, code);
    LiveRoot(b.t, b.s, a.t.current, c);
    forall i | status <= i < status + 4 ensures UserByte(b.s.mem, root, i) == UserByte(s'.mem, root, i) {
      ByteSurvives(s', b.s, root, i);
    }
  }

  // ---------------------------------------------------------------- the calls are these steps

  ghost function StateOf(table: P.ProcessTable, ram: PageMemory): State
    reads table, table.procs, ram, ram.tracker
  {
    State(table.View(), Now(ram))
  }

  lemma StandsNow(ram: PageMemory, c: Config)
    requires Sound(ram) && c.Matches(ram)
    ensures Stands(Now(ram), c)
  {
  }

  lemma CurrentInUse(t: P.Table, s: Snapshot, c: Config)
    requires KernelInv(t, s, c)
    ensures P.Slot(t, t.current) && s.pid == t.procs[t.current].pid
  {
  }

  method YieldCall(table: P.ProcessTable, ram: PageMemory, ghost c: Config)
    requires Inv(table, ram, c)
    modifies table, table.procs, ram`currentPid
    ensures P.Slot(old(table.View()), old(table.current)) && Next(old(StateOf(table, ram)), Event.Yields, StateOf(table, ram), c)
  {
    hide KernelInv, Sound, P.YieldTable;
    CurrentInUse(table.View(), Now(ram), c);
    SysYield(table, ram, c);
    CurrentInUse(table.View(), Now(ram), c);
  }

  method ExitCall(table: P.ProcessTable, ram: PageMemory, code: int, ghost c: Config)
    requires Inv(table, ram, c)
    modifies table.procs
    ensures P.Slot(old(table.View()), old(table.current)) && Next(old(StateOf(table, ram)), Event.Exits(code), StateOf(table, ram), c)
  {
    hide KernelInv, Sound, P.ExitTable;
    CurrentInUse(table.View(), Now(ram), c);
    SysExit(table, ram, code, c);
    CurrentInUse(table.View(), Now(ram), c);
  }

  /** A fork that finds a slot is a step; one that does not changes nothing. */
  method ForkCall(table: P.ProcessTable, ram: PageMemory, c: Config) returns (r: Option<int>, ghost e: Event)
    requires Inv(table, ram, c)
    modifies table, table.procs, ram, ram.tracker, ram.tracker.table
    ensures r.None? ==> old(ram.Available() <= SpaceCost(ram.mem, table.procs[table.current].space, c))
    ensures r == Some(-1) ==> StateOf(table, ram) == old(StateOf(table, ram))
    ensures r.Some? && r.value != -1 ==>
              P.Slot(old(table.View()), old(table.current)) && e.Forks? && Next(old(StateOf(table, ram)), e, StateOf(table, ram), c)
  {
    hide KernelInv, Sound, ForkDone, WellFormed, Stands;
    CurrentInUse(table.View(), Now(ram), c);
    ghost var s1, child;
    r, s1, child := SysFork(table, ram, c);
    e := Forks(s1, child);
    if r.Some? {
      StandsNow(ram, c);
    }
  }

  /** An sbrk that does not take the end of the heap below zero is a step. */
  method SbrkCall(table: P.ProcessTable, ram: PageMemory, increment: int, ghost c: Config) returns (r: Option<int>)
    requires Inv(table, ram, c) && IsLong(increment)
    modifies table.procs, ram, ram.tracker, ram.tracker.table
    ensures P.Slot(old(table.View()), old(table.current))
    ensures r.None? ==> var heapEnd := old(table.procs[table.current].space.heapEnd);
                        old(ram.Available()) < PagesCost(PageUp(heapEnd), PageUp(heapEnd + increment))
    ensures r.Some? && old(table.procs[table.current].space.heapEnd) + increment >= 0 ==>
              Next(old(StateOf(table, ram)), Event.Sbrk(increment), StateOf(table, ram), c)
  {
    hide Sound, SbrkDone, KernelLeaves, Stands, Spaces;
    CurrentSpace(table.View(), Now(ram), c);
    var sp := table.procs[table.current].space;
    NewEndIs(sp, increment, c);
    r := SysSbrk(table, ram, increment, sp, c);
    if r.Some? {
      StandsNow(ram, c);
    }
  }

  method ExecCall(table: P.ProcessTable, ram: PageMemory, file: seq<Byte>, phdrs: seq<Phdr>, sym: Symbols, c: Config)
    returns (ok: bool, ghost e: Event)
    requires Inv(table, ram, c)
    requires Program(file, phdrs) && Fits(phdrs, sym, c.kernelBase) && sym.heapStart == c.heapStart
    modifies table, table.procs, ram, ram.tracker, ram.tracker.table
    ensures ok || old(ram.Room()) < ImagePages(phdrs) || old(ram.Available()) < LoadCost(phdrs, sym, c.kernelBase, c.limit)
    ensures ok ==> P.Slot(old(table.View()), old(table.current)) && e.Execs? && Next(old(StateOf(table, ram)), e, StateOf(table, ram), c)
  {
    hide KernelInv, ExecDone, Program, Fits, P.ExecTable;
    CurrentInUse(table.View(), Now(ram), c);
    ghost var st, sp;
    ok, st, sp := SysExec(table, ram, file, phdrs, sym, c);
    e := Execs(st, sp, file, phdrs, sym);
    if ok {
      CurrentInUse(table.View(), Now(ram), c);
      StandsNow(ram, c);
    }
  }

  lemma WaitIsReap(a: State, b: State, z: int, status: int, c: Config)
    requires KernelInv(a.t, a.s, c) && z == P.ZombieChild(a.t.procs, a.t.current, 0) && z != P.NOBODY
    requires b.t == P.WaitTable(a.t) && ReapSafe(a.t, a.s, z) && Stands(b.s, c)
    requires var root := a.t.procs[a.t.current].space.pageTable;
             StatusOk(a.s.mem, root, status) && ReapDone(a.t, AtStatus(a.s, root, status, a.t.procs[z].exitCode), b.s, z)
    ensures ReapStep(a, b, z, status, c)
  {
    hide ReapSafe, ReapDone, Stands, StatusOk, AtStatus, SpaceOk;
    WaitTurn(a.t);
  }

  /** A turn of wait that yields, or that reaps a child whose pid is charged with nothing of others, is a step. */
  method WaitCall(table: P.ProcessTable, ram: PageMemory, status: int, stackTop: int, ghost c: Config) returns (r: WaitResult, ghost e: Event)
    requires Inv(table, ram, c) && 0 <= stackTop < MAXVA
    modifies table, table.procs, ram, ram.tracker, ram.tracker.table
    ensures P.Slot(old(table.View()), old(table.current))
    ensures r.Yielded? || (r.Reaped? && old(0 <= r.pid - 1 < table.procs.Length && ReapSafe(table.View(), Now(ram), r.pid - 1))) ==>
              Next(old(StateOf(table, ram)), e, StateOf(table, ram), c)
  {
    hide KernelInv, Sound, WellFormed, ReapSafe, ReapDone, StatusOk, AtStatus, Stands, ReapStep, P.YieldTable, P.WaitTable;
    ghost var a := StateOf(table, ram);
    CurrentInUse(a.t, a.s, c);
    r := SysWait(table, ram, status, stackTop, c);
    e := if r.Reaped? then Reaps(r.pid - 1, status) else Yields;
    ghost var b := StateOf(table, ram);
    if r.Yielded? {
      CurrentInUse(b.t, b.s, c);
    } else if r.Reaped? && ReapSafe(a.t, a.s, r.pid - 1) {
      StandsNow(ram, c);
      WaitIsReap(a, b, r.pid - 1, status, c);
    }
  }
}
