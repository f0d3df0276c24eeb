/** The system calls that change processes and address spaces. Each keeps the invariant of the whole kernel; None
    stands for PANIC("out of memory"). */
module Syscalls {
  import opened Wrappers
  import opened Arithmetic
  import opened Sv39
  import opened PageTree
  import opened PageMemory
  import opened PageTables
  import opened Walkers
  import opened Teardown
  import opened AddressSpace
  import opened HeapGrowth
  import opened Build
  import opened Fork
  import opened Elf
  import opened Bytes
  import opened CopyToUser
  import opened DirectStores
  import opened Reaping
  import opened Kernel
  import opened Loading
  import P = ProcTable

  ghost predicate Inv(table: P.ProcessTable, ram: PageMemory, c: Config)
    reads table, table.procs, ram, ram.tracker, ram.tracker.table
  {
    Sound(ram) && c.Matches(ram) && KernelInv(table.View(), Now(ram), c)
  }

  /** current_proc has changed: later allocations are charged to the new process. */
  method SyncPid(table: P.ProcessTable, ram: PageMemory)
    requires ram.Valid() && 0 <= table.current < table.procs.Length
    modifies ram`currentPid
    ensures ram.Valid() && ram.currentPid == table.procs[table.current].pid
  {
    ram.currentPid := table.procs[table.current].pid;
  }

  lemma YieldKeepsSpaces(t: P.Table)
    requires P.TableInv(t)
    ensures var t' := P.YieldTable(t);
            |t'.procs| == |t.procs| && forall i :: P.Slot(t, i) ==> (P.InUse(t', i) <==> P.InUse(t, i)) && t'.procs[i].space == t.procs[i].space
  {
  }

  /** yield */
  method SysYield(table: P.ProcessTable, ram: PageMemory, ghost c: Config)
    requires Inv(table, ram, c)
    modifies table, table.procs, ram`currentPid
    ensures Inv(table, ram, c) && table.View() == P.YieldTable(old(table.View()))
  {
    ghost var t, s := table.View(), Now(ram);
    YieldKeepsSpaces(t);
    table.Yield();
    TableStep(t, table.View(), s, c);
    SyncPid(table, ram);
  }

  /** sys_exit */
  method SysExit(table: P.ProcessTable, ram: PageMemory, code: int, ghost c: Config)
    requires Inv(table, ram, c)
    modifies table.procs
    ensures Inv(table, ram, c) && table.View() == P.ExitTable(old(table.View()), code)
    ensures table.procs[..] == old(table.procs[..])[table.current := old(table.procs[table.current]).(state := P.Zombie, exitCode := code)]
  {
    ghost var t, s := table.View(), Now(ram);
    table.Exit(code);
    TableStep(t, table.View(), s, c);
    assert s == s.(pid := table.View().procs[table.View().current].pid);
  }

  /** alloc_pages(1) for a page that stays outside every address space, such as a trap frame. */
  method AllocPlain(ram: PageMemory) returns (r: Option<int>)
    requires Sound(ram)
    modifies ram, ram.tracker, ram.tracker.table
    ensures r.None? <==> old(ram.Available()) == 0
    ensures r.Some? ==> ram.Available() == old(ram.Available()) - 1 && ram.Room() >= old(ram.Room()) - 1
    ensures r.Some? ==> Sound(ram) && Grows(old(Now(ram)), Now(ram), NONE) && r.value !in old(ram.role)
  {
    ghost var s0 := Now(ram);
    r := ram.AllocPage();
    if r.Some? {
      GrowsByAlloc(s0, s0, Now(ram), NONE, r.value, Plain);
    }
  }

  lemma ParentRange(s: Snapshot, sp: P.Space, c: Config)
    requires c.Valid() && SpaceOk(s, sp, c)
    ensures var endVa := if sp.heapEnd > sp.userStackTop then sp.heapEnd else sp.userStackTop;
            EndVpn(endVa) <= c.kernelBase && OnlyUserPages(s.mem, sp.pageTable, USER_VPN, EndVpn(endVa))
  {
  }

  /** The frames that a copy of the address space takes at most. */
  function SpaceCost(mem: Memory, sp: P.Space, c: Config): nat {
    ForkCost(mem, sp.pageTable, if sp.heapEnd > sp.userStackTop then sp.heapEnd else sp.userStackTop, c.kernelBase, c.limit)
  }

  lemma SpaceCostKept(s0: Snapshot, s: Snapshot, root: int, sp: P.Space, c: Config)
    requires c.Valid() && SpaceOk(s0, sp, c) && Grows(s0, s, root) && root != sp.pageTable
    ensures SpaceCost(s.mem, sp, c) == SpaceCost(s0.mem, sp, c)
  {
    var endVa := if sp.heapEnd > sp.userStackTop then sp.heapEnd else sp.userStackTop;
    ParentRange(s0, sp, c);
    MappedSame(s0.mem, s.mem, sp.pageTable, USER_VPN, EndVpn(endVa));
  }

  /** The memory part of sys_fork: the child's trap frame, which ends up in no address space, and the copy of the
      parent's address space. */
  method ForkMemory(ram: PageMemory, sp: P.Space, c: Config) returns (r: Option<int>, ghost s1: Snapshot)
    requires Sound(ram) && c.Valid() && c.Matches(ram) && SpaceOk(Now(ram), sp, c)
    modifies ram, ram.tracker, ram.tracker.table
    ensures r.None? ==> old(ram.Available()) < 1 + SpaceCost(old(ram.mem), sp, c)
    ensures r.Some? ==> ram.Available() >= old(ram.Available()) - 1 - SpaceCost(old(ram.mem), sp, c)
    ensures r.Some? ==> ram.Room() >= old(ram.Room()) - 1 - SpaceCost(old(ram.mem), sp, c)
    ensures r.Some? ==>
              var endVa := if sp.heapEnd > sp.userStackTop then sp.heapEnd else sp.userStackTop;
              && Sound(ram) && Grows(old(Now(ram)), s1, NONE) && Grows(s1, Now(ram), r.value)
              && WellFormed(s1) && SpaceOk(s1, sp, c) && r.value !in s1.role && IsTable(ram.role, r.value, 2)
              && Forked(s1, Now(ram), sp.pageTable, r.value, EndVpn(endVa), c.kernelBase, c.limit)
  {
    ghost var s0 := Now(ram);
    s1 := s0;
    var tf := AllocPlain(ram);
    if tf.None? {
      return None, s1;
    }
    s1 := Now(ram);
    SpaceKept(s0, s1, NONE, sp, c);
    SpaceCostKept(s0, s1, NONE, sp, c);
    ParentRange(s1, sp, c);
    r := ForkSpace(ram, sp.pageTable, sp.heapEnd, sp.userStackTop, c.kernelBase);
  }

  /** What a successful fork does: the table gains a child in the first free slot, and the child's address space is
      a deep copy of the parent's user pages, made after the trap frame was allocated (state s1). */
  ghost predicate ForkDone(t: P.Table, s0: Snapshot, s1: Snapshot, t': P.Table, s: Snapshot, child: int, c: Config)
    requires P.Slot(t, t.current)
  {
    var sp := t.procs[t.current].space;
    var endVa := if sp.heapEnd > sp.userStackTop then sp.heapEnd else sp.userStackTop;
    && t' == P.ForkTable(t, P.Space(child, sp.heapEnd, sp.userStackTop, 0, 0))
    && Grows(s0, s1, NONE) && Grows(s1, s, child) && child !in s1.role && IsTable(s.role, child, 2)
    && Forked(s1, s, sp.pageTable, child, EndVpn(endVa), c.kernelBase, c.limit)
  }

  /** What the child finds below the kernel: each page from USER_BASE on that the parent maps and that begins below the
      heap's end or the top of the stack, with the same contents and the low ten bits 31 (V, R, W, X, U), and no other. */
  ghost predicate ChildRuns(s0: Snapshot, s: Snapshot, sp: P.Space, child: int, kb: int) {
    forall v :: 0 <= v < kb ==>
      var e, e' := LeafPte(s0.mem, sp.pageTable, v), LeafPte(s.mem, child, v);
      if 0x1000 <= v && (4096 * v < sp.heapEnd || 4096 * v < sp.userStackTop) && e % 2 == 1
      then e' % 1024 == 31 && e' / 1024 !in s0.role && SameFrame(s.mem, e' / 1024, s0.mem, e / 1024)
      else e' == 0
  }

  lemma ForkRuns(s0: Snapshot, s1: Snapshot, s: Snapshot, sp: P.Space, child: int, c: Config)
    requires WellFormed(s0) && WellFormed(s1) && Grows(s0, s1, NONE) && Grows(s1, s, child) && SpaceOk(s0, sp, c) && c.Valid() && NONE !in s0.role
    requires var endVa := if sp.heapEnd > sp.userStackTop then sp.heapEnd else sp.userStackTop;
             Forked(s1, s, sp.pageTable, child, EndVpn(endVa), c.kernelBase, c.limit)
    ensures ChildRuns(s0, s, sp, child, c.kernelBase)
  {
    var endVa := if sp.heapEnd > sp.userStackTop then sp.heapEnd else sp.userStackTop;
    ParentRange(s0, sp, c);
    forall v | 0 <= v < c.kernelBase
      ensures var e, e' := LeafPte(s0.mem, sp.pageTable, v), LeafPte(s.mem, child, v);
              if 0x1000 <= v && (4096 * v < sp.heapEnd || 4096 * v < sp.userStackTop) && e % 2 == 1
              then e' % 1024 == 31 && e' / 1024 !in s0.role && SameFrame(s.mem, e' / 1024, s0.mem, e / 1024)
              else e' == 0
    {
      assert LeafPte(s1.mem, sp.pageTable, v) == LeafPte(s0.mem, sp.pageTable, v);
      if 0x1000 <= v {
        BeforeEnd(endVa, v);
        if Addr(v) < endVa {
          assert ClonedPage(s1, s, sp.pageTable, child, v);
          PteBits(PteFrame(LeafPte(s.mem, child, v)), USER_RWX);
          if V(LeafPte(s0.mem, sp.pageTable, v)) {
            ParentPage(s0, s1, sp.pageTable, NONE, v);
          }
        }
      }
    }
  }

  /** The pages of the child are charged to the parent: once the child's page table has a record, the parent cannot be
      reaped without taking it away. */
  lemma ForkSpoilsReaping(t: P.Table, s0: Snapshot, s1: Snapshot, t': P.Table, s: Snapshot, child: int, c: Config)
    requires P.TableInv(t) && s0.pid == t.procs[t.current].pid && s0.owned.Keys <= s0.role.Keys
    requires ForkDone(t, s0, s1, t', s, child, c) && NONE !in s.role
    requires child in s.owned && IsTable(s1.role, t.procs[t.current].space.pageTable, 2)
    ensures s.owned[child] == t.procs[t.current].pid
    ensures !OwnsNothingElse(s, t.procs[t.current].space.pageTable, t.procs[t.current].pid)
  {
  }

  /** Reaping the parent while its child lives frees the root of the child's page table, and the invariant of the kernel
      is gone. The reaping happens in state s2, when a later call (by the new current process of t2) finds the parent,
      slot z, dead; its child is slot i. */
  lemma ReapingParentFreesChild(t2: P.Table, s2: Snapshot, s3: Snapshot, z: int, i: int, c: Config)
    requires KernelInv(t2, s2, c) && P.InUse(t2, z) && P.InUse(t2, i) && i != z && ReapDone(t2, s2, s3, z)
    requires var child := t2.procs[i].space.pageTable; child in s2.owned && s2.owned[child] == t2.procs[z].pid
    ensures t2.procs[i].space.pageTable !in s3.role && !KernelInv(P.Reap(t2, z), s3, c)
    ensures !OwnsNothingElse(s2, t2.procs[z].space.pageTable, t2.procs[z].pid)
  {
    var child := t2.procs[i].space.pageTable;
    assert SpaceOk(s2, t2.procs[i].space, c);
    UnsafeReapBreaks(t2, s2, s3, z, c, i, child);
  }

  /** From fork to the end: a process forks, so that its child's page table is charged to it, exits (a step that moves
      only the process table, to t2), and is reaped; its child, in the slot that fork chose, loses its page table. */
  lemma OrphanLosesItsPages(t: P.Table, s0: Snapshot, s1: Snapshot, t': P.Table, s: Snapshot, child: int,
                            t2: P.Table, s2: Snapshot, s3: Snapshot, c: Config)
    requires KernelInv(t, s0, c) && ForkDone(t, s0, s1, t', s, child, c) && P.FreeSlot(t.procs, 0) != P.NOBODY
    requires NONE !in s.role && child in s.owned
    requires KernelInv(t2, s2, c) && s2 == s.(pid := s2.pid) && |t2.procs| == |t'.procs|
    requires forall i :: P.Slot(t', i) ==>
               (P.InUse(t2, i) <==> P.InUse(t', i)) && t2.procs[i].space == t'.procs[i].space && t2.procs[i].pid == t'.procs[i].pid
    requires ReapDone(t2, s2, s3, t.current)
    ensures child == t2.procs[P.FreeSlot(t.procs, 0)].space.pageTable && P.InUse(t2, P.FreeSlot(t.procs, 0))
    ensures child !in s3.role && !KernelInv(P.Reap(t2, t.current), s3, c)
  {
    var slot := P.FreeSlot(t.procs, 0);
    assert P.InUse(t, t.current) && SpaceOk(s0, t.procs[t.current].space, c);
    ForkSpoilsReaping(t, s0, s1, t', s, child, c);
    assert slot != t.current && P.InUse(t', slot) && P.InUse(t', t.current) && t'.procs[t.current] == t.procs[t.current];
    ReapingParentFreesChild(t2, s2, s3, t.current, slot, c);
  }

  /** Both parts of sys_fork that allocate, for a table t with a free slot. */
  method ForkChild(ram: PageMemory, sp: P.Space, c: Config, ghost t: P.Table) returns (r: Option<int>, ghost s1: Snapshot)
    requires Sound(ram) && c.Matches(ram) && KernelInv(t, Now(ram), c)
    requires t.procs[t.current].space == sp && P.FreeSlot(t.procs, 0) != P.NOBODY
    modifies ram, ram.tracker, ram.tracker.table
    ensures r.None? ==> old(ram.Available()) < 1 + SpaceCost(old(ram.mem), sp, c)
    ensures r.Some? ==> ram.Available() >= old(ram.Available()) - 1 - SpaceCost(old(ram.mem), sp, c)
    ensures r.Some? ==> ram.Room() >= old(ram.Room()) - 1 - SpaceCost(old(ram.mem), sp, c)
    ensures r.Some? ==>
              var t' := P.ForkTable(t, P.Space(r.value, sp.heapEnd, sp.userStackTop, 0, 0));
              && Sound(ram) && KernelInv(t', Now(ram), c) && WellFormed(s1)
              && ForkDone(t, old(Now(ram)), s1, t', Now(ram), r.value, c)
              && ChildRuns(old(Now(ram)), Now(ram), sp, r.value, c.kernelBase)
  {
    hide Tables, Leaves, ChildRuns, Grows, Forked, HeapMapped, OnlyUserPages, ReadWriteUser, KernelLeaves;
    ghost var s0 := Now(ram);
    assert P.InUse(t, t.current) && SpaceOk(s0, sp, c);
    r, s1 := ForkMemory(ram, sp, c);
    if r.Some? {
      ForkInv(t, s0, s1, Now(ram), r.value, c);
      ForkRuns(s0, s1, Now(ram), sp, r.value, c);
    }
  }

  /** sys_fork. The result is the child's pid, or -1 when the process table is full; it cannot run out of memory while
      SpaceCost frames and one more are available. */
  method SysFork(table: P.ProcessTable, ram: PageMemory, c: Config) returns (r: Option<int>, ghost s1: Snapshot, ghost child: int)
    requires Inv(table, ram, c)
    modifies table, table.procs, ram, ram.tracker, ram.tracker.table
    ensures r.None? ==> old(ram.Available() <= SpaceCost(ram.mem, table.procs[table.current].space, c))
    ensures r.Some? ==> ram.Available() >= old(ram.Available() - 1 - SpaceCost(ram.mem, table.procs[table.current].space, c))
    ensures r.Some? ==> ram.Room() >= old(ram.Room() - 1 - SpaceCost(ram.mem, table.procs[table.current].space, c))
    ensures r.Some? ==> Inv(table, ram, c)
    ensures r.Some? ==> r.value == (var slot := P.FreeSlot(old(table.procs[..]), 0); if slot == P.NOBODY then -1 else slot + 1)
    ensures r == Some(-1) ==> table.View() == old(table.View()) && Now(ram) == old(Now(ram))
    ensures r.Some? && r.value != -1 ==> ForkDone(old(table.View()), old(Now(ram)), s1, table.View(), Now(ram), child, c)
    ensures r.Some? && r.value != -1 ==> WellFormed(s1)
    ensures r.Some? && r.value != -1 ==>
              var sp := old(table.procs[table.current].space);
              && ChildRuns(old(Now(ram)), Now(ram), sp, child, c.kernelBase)
              && table.current == old(table.current) && table.processCount == old(table.processCount) + 1
              && table.procs[..] == old(table.procs[..])[r.value - 1 := P.Pcb(r.value, P.Runnable, table.current, 0, P.Space(child, sp.heapEnd, sp.userStackTop, 0, 0))]
  {
    hide Sound, WellFormed, Spaces, ForkDone, SpaceCost, ChildRuns;
    ghost var t := table.View();
    s1, child := Now(ram), NONE;
    var sp := table.procs[table.current].space;
    assert t.procs[t.current].space == sp;
    var slot := table.AllocFreeProc();
    if slot == P.NOBODY {
      return Some(-1), s1, child;
    }
    var root;
    root, s1 := ForkChild(ram, sp, c, t);
    if root.None? {
      return None, s1, child;
    }
    child := root.value;
    var pid := table.StartChild(slot, P.Space(root.value, sp.heapEnd, sp.userStackTop, 0, 0), t);
    return Some(pid), s1, child;
  }

  /** The number of pages that moving the end of the heap adds; negative when it removes some. */
  function NewPages(heapEnd: int, newHeap: int): int { PageUp(newHeap) - PageUp(heapEnd) }

  /** The memory part of sys_sbrk for a positive increment: fresh zeroed pages from the end of the heap, rounded up. */
  method GrowHeap(ram: PageMemory, sp: P.Space, newHeap: int, ghost c: Config) returns (ok: bool)
    requires Sound(ram) && c.Valid() && c.Matches(ram)
    requires SpaceOk(Now(ram), sp, c) && sp.heapEnd <= newHeap
    modifies ram, ram.tracker, ram.tracker.table
    ensures ok || old(ram.Available()) < PagesCost(PageUp(sp.heapEnd), PageUp(newHeap))
    ensures ok ==> NewPages(sp.heapEnd, newHeap) <= old(ram.Available())
    ensures ok ==> ram.Available() >= old(ram.Available()) - PagesCost(PageUp(sp.heapEnd), PageUp(newHeap))
    ensures ok ==> Sound(ram) && Grows(old(Now(ram)), Now(ram), sp.pageTable) && IsTable(ram.role, sp.pageTable, 2)
    ensures ok ==> FreshRange(old(Now(ram)), Now(ram), sp.pageTable, PageUp(sp.heapEnd), PageUp(newHeap), USER_RW)
    ensures ok ==> KeepsOutside(old(Now(ram)), Now(ram), sp.pageTable, PageUp(sp.heapEnd), PageUp(newHeap))
  {
    ghost var s0 := Now(ram);
    GrowsNothing(s0, sp.pageTable);
    RoundedHeap(sp.heapEnd, newHeap, c);
    AvailableFits(ram.base, ram.nextFrame, ram.limit, ram.free, ram.role.Keys);
    ok := MapFreshRange(ram, sp.pageTable, PageUp(sp.heapEnd) * PAGE_SIZE, newHeap, USER_RW, PageUp(sp.heapEnd), s0);
  }

  lemma GrowsNothing(s: Snapshot, root: int)
    ensures Grows(s, s, root)
  {
  }

  lemma RoundedHeap(heapEnd: int, newHeap: int, c: Config)
    requires c.Valid() && 0 <= heapEnd <= Addr(c.kernelBase) && heapEnd <= newHeap
    ensures 0 <= PageUp(heapEnd) <= c.kernelBase && PageUp(heapEnd) <= PageUp(newHeap) && PageUp(heapEnd) * PAGE_SIZE == Addr(PageUp(heapEnd))
  {
  }

  /** What sbrk does to memory: the pages between the old and the new end, rounded up, are fresh zeroed user pages
      when the heap grows; no other page of the process changes. */
  ghost predicate SbrkDone(s0: Snapshot, s: Snapshot, sp: P.Space, newHeap: int) {
    && Grows(s0, s, sp.pageTable) && IsTable(s.role, sp.pageTable, 2)
    && KeepsOutside(s0, s, sp.pageTable, PageUp(sp.heapEnd), PageUp(newHeap))
    && (newHeap > sp.heapEnd ==> FreshRange(s0, s, sp.pageTable, PageUp(sp.heapEnd), PageUp(newHeap), USER_RW))
  }

  lemma SbrkNothing(s: Snapshot, sp: P.Space, newHeap: int, c: Config)
    requires c.Valid() && WellFormed(s) && SpaceOk(s, sp, c) && newHeap <= sp.heapEnd
    ensures SbrkDone(s, s, sp, newHeap) && (0 <= newHeap ==> SpaceOk(s, sp.(heapEnd := newHeap), c))
  {
    GrowsNothing(s, sp.pageTable);
    NothingMoved(s, sp.pageTable, PageUp(sp.heapEnd));
    assert PageUp(newHeap) <= PageUp(sp.heapEnd);
    KeepsEmpty(s, s, sp.pageTable, PageUp(sp.heapEnd), PageUp(sp.heapEnd), PageUp(newHeap));
    if 0 <= newHeap {
      ShrunkSpace(s, sp, newHeap, c);
    }
  }

  /** The kernel's own leaves survive exactly when the new end is not above the kernel. */
  lemma KernelLeavesIff(s0: Snapshot, s: Snapshot, sp: P.Space, newHeap: int, c: Config)
    requires c.Valid() && SpaceOk(s0, sp, c) && SbrkDone(s0, s, sp, newHeap)
    ensures KernelLeaves(s.mem, sp.pageTable, c) <==> newHeap <= Addr(c.kernelBase)
  {
    var root, kb := sp.pageTable, c.kernelBase;
    if newHeap <= Addr(kb) {
      forall v | kb <= v < c.limit ensures LeafPte(s.mem, root, v) == MakePte(v, KERNEL_RWX) {
        assert KeepsPage(s0, s, root, v);
      }
    } else {
      assert PageUp(sp.heapEnd) <= kb < PageUp(newHeap);
      assert FreshPage(s0, s, root, kb, USER_RW);
      PteRoundTrip(PteFrame(LeafPte(s.mem, root, kb)), USER_RW);
      PteRoundTrip(kb, KERNEL_RWX);
    }
  }

  /** The memory part of sys_sbrk. */
  method SbrkMemory(ram: PageMemory, sp: P.Space, increment: int, ghost c: Config) returns (ok: bool)
    requires Sound(ram) && c.Valid() && c.Matches(ram)
    requires SpaceOk(Now(ram), sp, c)
    modifies ram, ram.tracker, ram.tracker.table
    ensures ok || old(ram.Available()) < PagesCost(PageUp(sp.heapEnd), PageUp(sp.heapEnd + increment))
    ensures ok ==> NewPages(sp.heapEnd, sp.heapEnd + increment) <= old(ram.Available())
    ensures ok ==> ram.Available() >= old(ram.Available()) - PagesCost(PageUp(sp.heapEnd), PageUp(sp.heapEnd + increment))
    ensures ok ==> Sound(ram) && SbrkDone(old(Now(ram)), Now(ram), sp, sp.heapEnd + increment)
    ensures ok && 0 <= sp.heapEnd + increment <= Addr(c.kernelBase) ==> SpaceOk(Now(ram), sp.(heapEnd := sp.heapEnd + increment), c)
  {
    ghost var s0 := Now(ram);
    var newHeap := sp.heapEnd + increment;
    if increment > 0 {
      ok := GrowHeap(ram, sp, newHeap, c);
      if ok && newHeap <= Addr(c.kernelBase) {
        GrownSpace(s0, Now(ram), sp, newHeap, c);
      }
    } else {
      SbrkNothing(s0, sp, newHeap, c);
      AvailableFits(ram.base, ram.nextFrame, ram.limit, ram.free, ram.role.Keys);
      ok := true;
    }
  }

  /** The new end of the heap, as an address: the sum wraps to 64 bits. */
  function NewEnd(heapEnd: int, increment: int): int { (heapEnd + increment) % WORD_LIMIT }

  predicate IsLong(x: int) { -0x8000_0000_0000_0000 <= x <= 0x7FFF_FFFF_FFFF_FFFF }

  lemma NewEndIs(sp: P.Space, increment: int, c: Config)
    requires c.Valid() && 0 <= sp.heapEnd <= Addr(c.kernelBase) && IsLong(increment)
    ensures NewEnd(sp.heapEnd, increment) == sp.heapEnd + increment + (if sp.heapEnd + increment < 0 then WORD_LIMIT else 0)
  {
  }

  /** What sys_sbrk does to memory keeps the invariant of the kernel, for the table with the new end of the heap, as
      long as that end is not above the kernel. */
  method MoveHeapEnd(ram: PageMemory, sp: P.Space, increment: int, ghost c: Config, ghost t: P.Table) returns (ok: bool)
    requires Sound(ram) && c.Matches(ram) && KernelInv(t, Now(ram), c)
    requires t.procs[t.current].space == sp && IsLong(increment)
    modifies ram, ram.tracker, ram.tracker.table
    ensures ok || old(ram.Available()) < PagesCost(PageUp(sp.heapEnd), PageUp(sp.heapEnd + increment))
    ensures ok ==> NewPages(sp.heapEnd, sp.heapEnd + increment) <= old(ram.Available())
    ensures ok ==> ram.Available() >= old(ram.Available()) - PagesCost(PageUp(sp.heapEnd), PageUp(sp.heapEnd + increment))
    ensures ok ==> Sound(ram) && SbrkDone(old(Now(ram)), Now(ram), sp, sp.heapEnd + increment)
    ensures ok ==> (KernelLeaves(ram.mem, sp.pageTable, c) <==> sp.heapEnd + increment <= Addr(c.kernelBase))
    ensures ok && c.SmallRam() ==> sp.heapEnd + increment <= Addr(c.kernelBase)
    ensures ok && 0 <= sp.heapEnd + increment <= Addr(c.kernelBase) ==>
              KernelInv(WithSpace(t, sp.(heapEnd := NewEnd(sp.heapEnd, increment))), Now(ram), c)
  {
    hide Tables, Leaves, HeapMapped, OnlyUserPages, KernelLeaves, ReadWriteUser;
    ghost var s0 := Now(ram);
    assert P.InUse(t, t.current) && SpaceOk(s0, sp, c);
    NewEndIs(sp, increment, c);
    ok := SbrkMemory(ram, sp, increment, c);
    if ok {
      KernelLeavesIff(s0, Now(ram), sp, sp.heapEnd + increment, c);
      if c.SmallRam() {
        HeapStaysBelowKernel(s0, Now(ram), sp, sp.heapEnd + increment, c);
      }
      if 0 <= sp.heapEnd + increment <= Addr(c.kernelBase) {
        SbrkInv(t, s0, Now(ram), sp.heapEnd + increment, c);
      }
    }
  }

  /** sys_sbrk of a process with space sp. The result is the old end of the heap, or None for PANIC("out of memory"):
      that happens when there are fewer frames than new pages, and not while there are enough for the pages and their tables. The kernel does
      not check the new end; the invariant is kept when it is neither negative nor above the kernel, and the kernel is
      still mapped exactly when it is not above the kernel. */
  method SysSbrk(table: P.ProcessTable, ram: PageMemory, increment: int, sp: P.Space, ghost c: Config) returns (r: Option<int>)
    requires Inv(table, ram, c) && sp == table.procs[table.current].space && IsLong(increment)
    modifies table.procs, ram, ram.tracker, ram.tracker.table
    ensures r.None? ==> old(ram.Available()) < PagesCost(PageUp(sp.heapEnd), PageUp(sp.heapEnd + increment))
    ensures r.Some? ==> NewPages(sp.heapEnd, sp.heapEnd + increment) <= old(ram.Available())
    ensures r.Some? ==> ram.Available() >= old(ram.Available()) - PagesCost(PageUp(sp.heapEnd), PageUp(sp.heapEnd + increment))
    ensures r.Some? ==> r.value == sp.heapEnd && table.View() == WithSpace(old(table.View()), sp.(heapEnd := NewEnd(sp.heapEnd, increment)))
    ensures r.Some? ==> table.procs[..] == old(table.procs[..])[table.current := old(table.procs[table.current]).(space :=
                                             sp.(heapEnd := (sp.heapEnd + increment) % 0x1_0000_0000_0000_0000))]
    ensures r.Some? ==> Sound(ram) && SbrkDone(old(Now(ram)), Now(ram), sp, sp.heapEnd + increment)
    ensures r.Some? ==> forall v :: PageUp(sp.heapEnd) <= v < PageUp(sp.heapEnd + increment) ==> LeafPte(ram.mem, sp.pageTable, v) % 1024 == 23
    ensures r.Some? ==> (KernelLeaves(ram.mem, sp.pageTable, c) <==> sp.heapEnd + increment <= Addr(c.kernelBase))
    ensures r.Some? && c.SmallRam() ==> sp.heapEnd + increment <= Addr(c.kernelBase)
    ensures r.Some? && 0 <= sp.heapEnd + increment <= Addr(c.kernelBase) ==> Inv(table, ram, c)
  {
    hide Tables, Leaves, Spaces, SbrkDone, KernelLeaves, LeafPte;
    ghost var t, s0 := table.View(), Now(ram);
    assert t.procs[t.current].space == sp;
    var ok := MoveHeapEnd(ram, sp, increment, c, t);
    if !ok {
      return None;
    }
    NewPageBits(s0, Now(ram), sp, sp.heapEnd + increment);
    SetSpace(table, sp.(heapEnd := NewEnd(sp.heapEnd, increment)));
    return Some(sp.heapEnd);
  }

  /** The new heap pages are mapped with the low bits 23 (V, R, W, U). */
  lemma NewPageBits(s0: Snapshot, s: Snapshot, sp: P.Space, newHeap: int)
    requires SbrkDone(s0, s, sp, newHeap)
    ensures forall v :: PageUp(sp.heapEnd) <= v < PageUp(newHeap) ==> LeafPte(s.mem, sp.pageTable, v) % 1024 == 23
  {
    forall v | PageUp(sp.heapEnd) <= v < PageUp(newHeap) ensures LeafPte(s.mem, sp.pageTable, v) % 1024 == 23 {
      assert FreshPage(s0, s, sp.pageTable, v, USER_RW);
      PteBits(PteFrame(LeafPte(s.mem, sp.pageTable, v)), USER_RW);
    }
  }

  /** A field of the current process is assigned. */
  method SetSpace(table: P.ProcessTable, sp: P.Space)
    requires 0 <= table.current < table.procs.Length
    modifies table.procs
    ensures table.View() == WithSpace(old(table.View()), sp)
  {
    table.procs[table.current] := table.procs[table.current].(space := sp);
    assert table.procs[..] == WithSpace(old(table.View()), sp).procs;
  }

  // ---------------------------------------------------------------- exec

  /** What exec does to memory: s1 is the state without the old address space, s2 the one with the flat image. */
  ghost predicate ExecDone(s0: Snapshot, s1: Snapshot, s2: Snapshot, s: Snapshot, old': int, sp: P.Space,
                           file: seq<Byte>, phdrs: seq<Phdr>, sym: Symbols, c: Config)
    requires Program(file, phdrs)
  {
    Dismantled(s0, s1, old') && WellFormed(s1) && WellFormed(s2) && Created(s1, s2, s, sp, file, phdrs, sym, c)
  }

  /** The states of a successful exec, as ghost values. */
  datatype Stages = Stages(s1: Snapshot, s2: Snapshot, s3: Snapshot)

  lemma FewerInUse(s0: Snapshot, s1: Snapshot, root: int)
    requires Dismantled(s0, s1, root)
    ensures |s1.role.Keys| <= |s0.role.Keys| && s1.next == s0.next
  {
    assert s0.role.Keys == s1.role.Keys + (s0.role.Keys - s1.role.Keys);
  }

  /** The memory part of sys_exec: the old address space is taken apart and the new program loaded. None stands for
      PANIC("out of memory"). */
  method ExecMemory(ram: PageMemory, sp: P.Space, file: seq<Byte>, phdrs: seq<Phdr>, sym: Symbols, c: Config)
    returns (r: Option<P.Space>, ghost s1: Snapshot, ghost s2: Snapshot)
    requires Sound(ram) && c.Valid() && c.Matches(ram) && SpaceOk(Now(ram), sp, c)
    requires Program(file, phdrs) && Fits(phdrs, sym, c.kernelBase) && sym.heapStart == c.heapStart
    modifies ram, ram.tracker, ram.tracker.table
    ensures r.None? ==> old(ram.Room()) < ImagePages(phdrs) || old(ram.Available()) < LoadCost(phdrs, sym, c.kernelBase, c.limit)
    ensures r.Some? ==> ram.Room() >= old(ram.Room()) - LoadCost(phdrs, sym, c.kernelBase, c.limit)
    ensures r.Some? ==> Sound(ram) && ExecDone(old(Now(ram)), s1, s2, Now(ram), sp.pageTable, r.value, file, phdrs, sym, c)
    ensures r.Some? ==> Executable(ram.mem, r.value.pageTable, phdrs, sym)
    ensures r.Some? ==> r.value.heapEnd == sym.heapStart + 4096 && r.value.userStackTop == sym.stackTop
  {
    UserEndsAreSmall(sp.heapEnd, sym.stackTop);
    ghost var s0 := Now(ram);
    FreeUserspace(ram, sp.pageTable, sp.heapEnd, sym.stackTop);
    s1 := Now(ram);
    FewerInUse(s0, s1, sp.pageTable);
    r, s2 := LoadProgram(ram, file, phdrs, sym, c);
  }

  /** sys_exec, for a program that was found: the current process gets a new address space, built from the file, and
      then it yields. The result is false for PANIC("out of memory"), which does not happen while the flat
      image fits above the bump pointer and LoadCost frames are available. */
  method SysExec(table: P.ProcessTable, ram: PageMemory, file: seq<Byte>, phdrs: seq<Phdr>, sym: Symbols, c: Config)
    returns (ok: bool, ghost st: Stages, ghost sp: P.Space)
    requires Inv(table, ram, c)
    requires Program(file, phdrs) && Fits(phdrs, sym, c.kernelBase) && sym.heapStart == c.heapStart
    modifies table, table.procs, ram, ram.tracker, ram.tracker.table
    ensures ok || old(ram.Room()) < ImagePages(phdrs) || old(ram.Available()) < LoadCost(phdrs, sym, c.kernelBase, c.limit)
    ensures ok ==> ram.Room() >= old(ram.Room()) - LoadCost(phdrs, sym, c.kernelBase, c.limit)
    ensures ok ==> Inv(table, ram, c)
    ensures ok ==> table.View() == P.ExecTable(old(table.View()), sp) && Now(ram) == st.s3.(pid := table.View().procs[table.current].pid)
    ensures ok ==> ExecDone(old(Now(ram)), st.s1, st.s2, st.s3, old(table.procs[table.current].space.pageTable), sp, file, phdrs, sym, c)
    ensures ok ==> Executable(ram.mem, sp.pageTable, phdrs, sym)
    ensures ok ==> sp.heapEnd == sym.heapStart + 4096 && sp.userStackTop == sym.stackTop
    ensures ok ==> table.procs[old(table.current)] == old(table.procs[table.current]).(state := P.Runnable, space := sp)
  {
    hide Tables, Leaves, HeapMapped, OnlyUserPages, KernelLeaves, ReadWriteUser, Grows, Loaded, Holds, Dismantled, Executable, P.ExecTable;
    ghost var t, s0 := table.View(), Now(ram);
    var oldSpace := table.procs[table.current].space;
    assert P.InUse(t, t.current) && t.procs[t.current].space == oldSpace;
    var space;
    ghost var s1, s2;
    space, s1, s2 := ExecMemory(ram, oldSpace, file, phdrs, sym, c);
    st := Stages(s1, s2, Now(ram));
    if space.None? {
      return false, st, oldSpace;
    }
    sp := space.value;
    FitsLaidOut(phdrs, sym, c.kernelBase);
    ExecInv(t, s0, s1, s2, st.s3, sp, sym, c);
    ExecStep(t, sp, st.s3, c);
    FinishExec(table, ram, space.value, t);
    ok := true;
  }

  lemma ExecStep(t: P.Table, space: P.Space, s: Snapshot, c: Config)
    requires P.TableInv(t) && KernelInv(WithSpace(t, space), s, c)
    ensures var t' := P.ExecTable(t, space);
            P.TableInv(t') && |t'.procs| == |t.procs| && KernelInv(t', s.(pid := t'.procs[t'.current].pid), c)
  {
    hide KernelInv, P.YieldTable;
    P.ApplyInv(t, P.Op.Exec(space));
    var e := P.Table(t.procs[t.current := t.procs[t.current].(state := P.Running, space := space)], t.current, t.count);
    P.UsedUpdate(t.procs, t.current, e.procs[t.current]);
    YieldKeepsSpaces(e);
    TableStep(WithSpace(t, space), P.ExecTable(t, space), s, c);
  }

  /** The process-table part of sys_exec, and the yield at its end. */
  method FinishExec(table: P.ProcessTable, ram: PageMemory, space: P.Space, ghost t: P.Table)
    requires Sound(ram) && table.View() == t && table.Valid()
    modifies table, table.procs, ram`currentPid
    ensures Sound(ram) && table.View() == P.ExecTable(t, space)
    ensures Now(ram) == old(Now(ram)).(pid := table.View().procs[table.current].pid)
    ensures table.View().procs[t.current] == t.procs[t.current].(state := P.Runnable, space := space)
  {
    P.ExecMoves(t, space);
    table.Exec(space);
    SyncPid(table, ram);
  }

  /** After exec an address of a loadable segment reads zero on the pages of the stack and the first heap page, and
      elsewhere the file's byte, or zero past the segment's file part. */
  lemma ExecReads(s0: Snapshot, s1: Snapshot, s2: Snapshot, s: Snapshot, old': int, sp: P.Space,
                  file: seq<Byte>, phdrs: seq<Phdr>, sym: Symbols, c: Config, i: int, a: int)
    requires Program(file, phdrs) && ExecDone(s0, s1, s2, s, old', sp, file, phdrs, sym, c)
    requires 0 <= i < |phdrs| && phdrs[i].ptype == PT_LOAD && phdrs[i].vaddr <= a < phdrs[i].vaddr + phdrs[i].memsz
    ensures UserByte(s.mem, sp.pageTable, a) == Some(if Remapped(sym, a / PAGE_SIZE) then 0
                                             else if a < phdrs[i].vaddr + phdrs[i].filesz then file[phdrs[i].offset + a - phdrs[i].vaddr]
                                             else 0)
  {
    CoversImage(file, phdrs);
    ProgramReads(s2, s, sp.pageTable, sp.image, sp.imagePages, sym, c.kernelBase, c.limit, file, phdrs, i, a);
  }

  // ---------------------------------------------------------------- wait

  /** What reaping slot z does: nothing the process holds stays in use, every other frame in use keeps its contents,
      and no tracker record of its pid remains. */
  ghost predicate ReapDone(t: P.Table, s0: Snapshot, s: Snapshot, z: int)
    requires P.Slot(t, z)
  {
    var d := t.procs[z];
    && Survives(s0, s)
    && HeldIsGone(s0, s, d.space.pageTable, d.space.image, d.space.imagePages, d.pid)
    && (forall f :: f in s.owned ==> s.owned[f] != d.pid)
  }

  /** The memory part of free_proc of slot z. */
  method FreeMemory(ram: PageMemory, d: P.Pcb, stackTop: int, ghost t: P.Table, ghost z: int, ghost c: Config)
    requires Sound(ram) && KernelInv(t, Now(ram), c) && P.InUse(t, z) && z != t.current && z != P.IDLE && t.procs[z] == d
    requires 0 <= stackTop < MAXVA
    modifies ram, ram.tracker, ram.tracker.table
    ensures ram.Valid() && ReapDone(t, old(Now(ram)), Now(ram), z)
    ensures ReapSafe(t, old(Now(ram)), z) ==> Sound(ram) && KernelInv(P.Reap(t, z), Now(ram), c)
  {
    ghost var s0 := Now(ram);
    assert SpaceOk(s0, d.space, c);
    UserEndsAreSmall(d.space.heapEnd, stackTop);
    FreeProc(ram, d.space.pageTable, d.space.image, d.space.imagePages, d.space.heapEnd, stackTop, d.pid);
    if ReapSafe(t, s0, z) {
      ReapKernelInv(t, s0, Now(ram), z, c);
    }
  }

  /** free_proc of slot z; stackTop is g_user_stack_top. The invariant is kept when the pid is charged with nothing that
      belongs to others. */
  method FreeSlotProc(table: P.ProcessTable, ram: PageMemory, z: int, stackTop: int, ghost c: Config)
    requires Inv(table, ram, c) && P.InUse(table.View(), z) && z != table.current && z != P.IDLE && 0 <= stackTop < MAXVA
    modifies table, table.procs, ram, ram.tracker, ram.tracker.table
    ensures table.View() == P.Reap(old(table.View()), z)
    ensures ram.Valid() && ReapDone(old(table.View()), old(Now(ram)), Now(ram), z)
    ensures old(ReapSafe(table.View(), Now(ram), z)) ==> Inv(table, ram, c)
  {
    ghost var t := table.View();
    FreeMemory(ram, table.procs[z], stackTop, t, z, c);
    table.Free(z);
    assert P.Reap(t, z).procs[t.current] == t.procs[t.current];
  }

  /** The two outcomes of one turn of sys_wait. */
  lemma WaitTurn(t: P.Table)
    requires P.TableInv(t)
    ensures var z := P.ZombieChild(t.procs, t.current, 0);
            if z == P.NOBODY then P.WaitTable(t) == P.YieldTable(t)
            else P.WaitTable(t) == P.Reap(t, z) && P.InUse(t, z) && z != t.current && z != P.IDLE && t.procs[z].pid == z + 1
  {
  }

  /** The bytes of an int, lowest first; negative numbers in two's complement. */
  function IntBytes(x: int): (r: seq<Byte>)
    ensures |r| == 4
  {
    [ByteOf(x, 0), ByteOf(x, 1), ByteOf(x, 2), ByteOf(x, 3)]
  }

  /** A status pointer that wait can write through without harm: null, or four bytes of writable user memory. */
  predicate StatusOk(mem: Memory, root: int, status: int) { status == 0 || AllUserStorable(mem, root, status, 4) }

  /** The state after *status = code, if status is not null. */
  function AtStatus(s: Snapshot, root: int, status: int, code: int): Snapshot {
    if status == 0 then s else s.(mem := After(s.mem, root, status, IntBytes(code), 4))
  }

  lemma StatusKeepsKernel(t: P.Table, s: Snapshot, root: int, status: int, code: int, c: Config)
    requires KernelInv(t, s, c) && IsTable(s.role, root, 2) && StatusOk(s.mem, root, status)
    ensures KernelInv(t, AtStatus(s, root, status, code), c)
  {
    if status != 0 {
      AfterSeen(s, root, status, IntBytes(code), 4);
      LookupsKeepKernel(t, s, AtStatus(s, root, status, code), c);
    }
  }

  /** The caller reads the exit code at its status pointer, and no other user byte of any process has changed. */
  lemma StatusRead(s: Snapshot, root: int, status: int, code: int, r: int, a: int)
    requires WellFormed(s) && IsTable(s.role, root, 2) && IsTable(s.role, r, 2) && 0 <= a < MAXVA
    requires status != 0 && StatusOk(s.mem, root, status)
    ensures UserByte(AtStatus(s, root, status, code).mem, r, a)
         == if r == root && status <= a < status + 4 then Some(ByteOf(code, a - status)) else UserByte(s.mem, r, a)
  {
    hide WellFormed, After, UserByte, LeafPte, Storable;
    AfterSeen(s, root, status, IntBytes(code), 4);
    FourBytes(code);
  }

  /** As an int, stored lowest byte first, the status is the exit code, negative codes in two's complement. */
  lemma StatusValue(s: Snapshot, root: int, status: int, code: int)
    requires WellFormed(s) && IsTable(s.role, root, 2) && 0 <= status && status + 4 <= MAXVA
    requires status != 0 && StatusOk(s.mem, root, status)
    ensures StatusReads(AtStatus(s, root, status, code).mem, root, status, code)
  {
    hide WellFormed, AtStatus, UserByte, StatusOk;
    forall a | status <= a < status + 4 ensures UserByte(AtStatus(s, root, status, code).mem, root, a) == Some(ByteOf(code, a - status)) {
      StatusRead(s, root, status, code, root, a);
    }
    BytesSum(code);
  }

  ghost predicate StatusReads(mem: Memory, root: int, status: int, code: int) {
    && (forall a :: status <= a < status + 4 ==> UserByte(mem, root, a).Some?)
    && UserByte(mem, root, status).value + 256 * UserByte(mem, root, status + 1).value + 65536 * UserByte(mem, root, status + 2).value
         + 16777216 * UserByte(mem, root, status + 3).value == code % 4294967296
  }

  lemma BytesSum(x: int)
    ensures ByteOf(x, 0) + 256 * ByteOf(x, 1) + 65536 * ByteOf(x, 2) + 16777216 * ByteOf(x, 3) == x % 4294967296
  {
    var q1, q2, q3 := x / 256, x / 256 / 256, x / 256 / 256 / 256;
    assert ByteOf(x, 1) == ByteOf(q1, 0) && ByteOf(x, 2) == ByteOf(q1, 1) == ByteOf(q2, 0);
    assert ByteOf(x, 3) == ByteOf(q1, 2) == ByteOf(q2, 1) == ByteOf(q3, 0);
    assert x == 4294967296 * (q3 / 256) + (x % 256 + 256 * (q1 % 256) + 65536 * (q2 % 256) + 16777216 * (q3 % 256));
    LowWord(q3 / 256, x % 256 + 256 * (q1 % 256) + 65536 * (q2 % 256) + 16777216 * (q3 % 256));
  }

  lemma LowWord(q: int, r: int)
    requires 0 <= r < 4294967296
    ensures (4294967296 * q + r) % 4294967296 == r
  {
  }

  lemma FourBytes(x: int)
    ensures forall i :: 0 <= i < 4 ==> IntBytes(x)[i] == ByteOf(x, i)
  {
  }

  /** The status pointer is not checked. Here it points to a valid entry of the caller's own root table, through the
      identity map: the store does not fault, and with an even exit code the page tables are broken. The entry that
      leads to the kernel is always there. */
  lemma StatusAtPageTable(t: P.Table, s: Snapshot, c: Config, k: int, code: int)
    requires KernelInv(t, s, c) && c.InRam(s) && 0 <= k < ENTRIES && code % 2 == 0
    requires var root := t.procs[t.current].space.pageTable; Addr(root + 1) <= HALF && V(Entry(s.mem, root, k))
    ensures var root := t.procs[t.current].space.pageTable;
            var status := Addr(root) + 8 * k;
            && V(Entry(s.mem, root, Px(2, c.kernelBase)))
            && AllStorable(s.mem, root, status, 4) && !StatusOk(s.mem, root, status)
            && !WellFormed(AtStatus(s, root, status, code))
  {
    hide WellFormed, Spaces, Storable, After, HeapMapped, OnlyUserPages, ReadWriteUser;
    var sp := t.procs[t.current].space;
    CurrentSpace(t, s, c);
    PteRoundTrip(c.kernelBase, KERNEL_RWX);
    WordMapped(s, sp, c, sp.pageTable, k);
    WordOverwritten(s, sp.pageTable, k, code);
  }

  /** A word of the free RAM is mapped at its own address in every live address space, for the kernel only. */
  lemma WordMapped(s: Snapshot, sp: P.Space, c: Config, f: int, k: int)
    requires c.Valid() && SpaceOk(s, sp, c) && c.base <= f < c.limit && 0 <= k < ENTRIES && Addr(f + 1) <= HALF
    ensures var va := Addr(f) + 8 * k;
            && va > 0 && AllStorable(s.mem, sp.pageTable, va, 4) && !UserStorable(s.mem, sp.pageTable, va)
            && forall a :: va <= a < va + 4 ==> ByteAddress(s.mem, sp.pageTable, a) == a
  {
    var va := Addr(f) + 8 * k;
    forall a | va <= a < va + 4
      ensures Storable(s.mem, sp.pageTable, a) && !U(LeafPte(s.mem, sp.pageTable, Key(a))) && ByteAddress(s.mem, sp.pageTable, a) == a
    {
      SplitAddress(f, a - Addr(f));
      PteRoundTrip(f, KERNEL_RWX);
      assert Key(a) == f;
    }
  }

  lemma WordOverwritten(s: Snapshot, root: int, k: int, code: int)
    requires WellFormed(s) && IsTable(s.role, root, 2) && 0 <= k < ENTRIES && V(Entry(s.mem, root, k)) && code % 2 == 0
    requires var va := Addr(root) + 8 * k; va > 0 && forall a :: va <= a < va + 4 ==> ByteAddress(s.mem, root, a) == a
    ensures !WellFormed(AtStatus(s, root, Addr(root) + 8 * k, code))
  {
    hide WellFormed, After, ByteAddress, MemByte, Entry;
    var s' := AtStatus(s, root, Addr(root) + 8 * k, code);
    FirstByteStored(s.mem, root, Addr(root) + 8 * k, IntBytes(code), 4);
    FirstByteOfWord(s'.mem, root, k);
    LowBit(code);
    EntryCleared(s, s', root, k);
  }

  lemma LowBit(x: int)
    ensures ByteOf(x, 0) % 2 == x % 2
  {
    LowBitOfByte(x);
  }

  /** What one turn of the loop in wait comes to: nobody to reap, a child reaped, PANIC because the status pointer is not
      mapped for writing, or a store into kernel memory, after which nothing more is modelled. */
  datatype WaitResult = Yielded | Reaped(pid: int) | Fault | Stray

  /** *status = code for a pointer that does no harm. */
  method ReportStatus(table: P.ProcessTable, ram: PageMemory, root: int, status: int, code: int, ghost c: Config)
    requires Inv(table, ram, c) && IsTable(ram.role, root, 2) && StatusOk(ram.mem, root, status)
    modifies ram`mem
    ensures Inv(table, ram, c) && table.View() == old(table.View()) && Now(ram) == AtStatus(old(Now(ram)), root, status, code)
  {
    StatusKeepsKernel(table.View(), Now(ram), root, status, code, c);
    if status != 0 {
      StoreThrough(ram, root, status, IntBytes(code));
    }
  }

  lemma StatusKeepsSafety(t: P.Table, s: Snapshot, z: int, root: int, status: int, code: int)
    requires 0 <= z < |t.procs|
    ensures ReapSafe(t, AtStatus(s, root, status, code), z) <==> ReapSafe(t, s, z)
  {
  }

  /** The end of sys_wait for the zombie in slot z: its exit code is stored and the process freed. */
  method ReapChild(table: P.ProcessTable, ram: PageMemory, z: int, root: int, status: int, stackTop: int, ghost c: Config) returns (pid: int)
    requires Inv(table, ram, c) && P.InUse(table.View(), z) && z != table.current && z != P.IDLE && table.procs[z].pid == z + 1
    requires IsTable(ram.role, root, 2) && StatusOk(ram.mem, root, status) && 0 <= stackTop < MAXVA
    modifies table, table.procs, ram, ram.tracker, ram.tracker.table
    ensures pid == z + 1 && ram.Valid() && table.View() == P.Reap(old(table.View()), z)
    ensures ReapDone(old(table.View()), AtStatus(old(Now(ram)), root, status, old(table.procs[z].exitCode)), Now(ram), z)
    ensures old(ReapSafe(table.View(), Now(ram), z)) ==> Inv(table, ram, c)
  {
    hide Sound, Tables, Leaves, ReapSafe, ReapDone, StatusOk, AtStatus, Spaces;
    ghost var t, s := table.View(), Now(ram);
    assert t.procs[z] == table.procs[z];
    StatusKeepsSafety(t, s, z, root, status, table.procs[z].exitCode);
    ReportStatus(table, ram, root, status, table.procs[z].exitCode, c);
    assert t.procs[z] == table.procs[z];
    pid := table.procs[z].pid;
    FreeSlotProc(table, ram, z, stackTop, c);
  }

  /** One turn of the loop in sys_wait: a zombie child's exit code is stored through status, the child is reaped and its
      pid returned, or the process yields. The invariant is kept unless there is a zombie and status is neither null nor
      writable user memory, or the zombie's pid is charged with frames of others. */
  method SysWait(table: P.ProcessTable, ram: PageMemory, status: int, stackTop: int, ghost c: Config) returns (r: WaitResult)
    requires Inv(table, ram, c) && 0 <= stackTop < MAXVA
    modifies table, table.procs, ram, ram.tracker, ram.tracker.table
    ensures var z := P.ZombieChild(old(table.procs[..]), old(table.current), 0);
            var root := old(table.procs[table.current].space.pageTable);
            if z == P.NOBODY then
              r == Yielded && Inv(table, ram, c) && table.View() == P.YieldTable(old(table.View()))
              && Now(ram) == old(Now(ram)).(pid := ram.currentPid)
            else if StatusOk(old(ram.mem), root, status) then
              r == Reaped(z + 1) && ram.Valid() && table.View() == P.WaitTable(old(table.View()))
              && table.procs[..] == old(table.procs[..])[z := P.Pcb(0, P.Unused, P.NOBODY, old(table.procs[z].exitCode), P.Space(0, 0, 0, 0, 0))]
              && ReapDone(old(table.View()), AtStatus(old(Now(ram)), root, status, old(table.procs[z].exitCode)), Now(ram), z)
              && (old(ReapSafe(table.View(), Now(ram), z)) ==> Inv(table, ram, c))
            else
              table.View() == old(table.View())
              && if AllStorable(old(ram.mem), root, status, 4) then
                   r == Stray && Now(ram) == AtStatus(old(Now(ram)), root, status, old(table.procs[z].exitCode))
                 else r == Fault && Now(ram) == old(Now(ram))
  {
    hide Sound, WellFormed, Spaces, SpaceOk, ReapSafe, ReapDone, After, AllUserStorable, AllStorable;
    ghost var t := table.View();
    CurrentSpace(t, Now(ram), c);
    WaitTurn(t);
    var z := table.FindZombieChild();
    if z == P.NOBODY {
      SysYield(table, ram, c);
      return Yielded;
    }
    assert t.procs[z] == table.procs[z];
    var root := table.procs[table.current].space.pageTable;
    if !StatusOk(ram.mem, root, status) {
      if !AllStorable(ram.mem, root, status, 4) {
        return Fault;
      }
      ram.mem := After(ram.mem, root, status, IntBytes(table.procs[z].exitCode), 4);
      return Stray;
    }
    var pid := ReapChild(table, ram, z, root, status, stackTop, c);
    return Reaped(pid);
  }
}
