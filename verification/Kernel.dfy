/** What holds of the whole kernel between system calls: the process table, the page allocator and every live
    address space at once. */
module Kernel {
  import opened Sv39
  import opened PageTree
  import opened PageMemory
  import opened PageTables
  import opened Walkers
  import opened Teardown
  import opened AddressSpace
  import opened HeapGrowth
  import opened Build
  import opened Fork
  import opened Reaping
  import P = ProcTable

  /** The constants of one boot: first kernel frame, first frame and end of the free RAM, and __user_heap_start. */
  datatype Config = Config(kernelBase: int, base: int, limit: int, heapStart: int) {
    ghost predicate Valid() {
      && USER_VPN <= kernelBase <= base <= limit <= VPNS && kernelBase < limit
      && USER_BASE <= heapStart && heapStart % PAGE_SIZE == 0
    }

    predicate Matches(ram: PageMemory) { base == ram.base && limit == ram.limit }

    /** There are fewer frames to hand out than pages between the start of the heap and the kernel. */
    predicate SmallRam() { limit - base < kernelBase - heapStart / PAGE_SIZE }

    ghost predicate InRam(s: Snapshot) { forall f :: f in s.role ==> base <= f < limit }
  }

  /** Every page of [heapStart, heapEnd), the last one rounded up, is mapped for user reads and writes. */
  ghost predicate HeapMapped(mem: Memory, root: int, heapStart: int, heapEnd: int) {
    forall v :: heapStart / PAGE_SIZE <= v < PageUp(heapEnd) ==>
      var e := LeafPte(mem, root, v); V(e) && U(e) && R(e) && W(e)
  }

  ghost predicate InImage(sp: P.Space, f: int) { sp.image <= f < sp.image + sp.imagePages }

  /** Every valid page below hi is a user page that the program may read and write; X may be set or not. */
  ghost predicate ReadWriteUser(mem: Memory, root: int, hi: int) {
    forall v :: 0 <= v < hi && V(LeafPte(mem, root, v)) ==> PtePerms(LeafPte(mem, root, v)).(x := true) == Perms(true, true, true, true)
  }

  /** The kernel is mapped at its physical addresses, for supervisor use. */
  ghost predicate KernelLeaves(mem: Memory, root: int, c: Config) {
    forall v :: c.kernelBase <= v < c.limit ==> LeafPte(mem, root, v) == MakePte(v, KERNEL_RWX)
  }

  /** The address space of a live process. */
  ghost predicate SpaceOk(s: Snapshot, sp: P.Space, c: Config) {
    && IsTable(s.role, sp.pageTable, 2)
    && OnlyUserPages(s.mem, sp.pageTable, 0, c.kernelBase) && ReadWriteUser(s.mem, sp.pageTable, c.kernelBase)
    && KernelLeaves(s.mem, sp.pageTable, c)
    && 0 <= sp.heapEnd <= Addr(c.kernelBase) && 0 <= sp.userStackTop <= Addr(c.kernelBase)
    && HeapMapped(s.mem, sp.pageTable, c.heapStart, sp.heapEnd)
    && 0 <= sp.imagePages && (forall f :: InImage(sp, f) ==> f in s.role && s.role[f] == Plain)
  }

  ghost predicate Spaces(t: P.Table, s: Snapshot, c: Config) {
    && (forall i :: P.InUse(t, i) ==> SpaceOk(s, t.procs[i].space, c))
    && (forall i, j :: P.InUse(t, i) && P.InUse(t, j) && i != j ==> t.procs[i].space.pageTable != t.procs[j].space.pageTable)
    && (forall i, j, f :: P.InUse(t, i) && P.InUse(t, j) && i != j && InImage(t.procs[i].space, f) ==> !InImage(t.procs[j].space, f))
  }

  ghost predicate KernelInv(t: P.Table, s: Snapshot, c: Config) {
    && c.Valid() && P.TableInv(t) && WellFormed(s) && NONE !in s.role && s.owned.Keys <= s.role.Keys
    && Spaces(t, s, c)
    && s.pid == t.procs[t.current].pid
  }

  lemma CurrentSpace(t: P.Table, s: Snapshot, c: Config)
    requires KernelInv(t, s, c)
    ensures P.InUse(t, t.current) && SpaceOk(s, t.procs[t.current].space, c) && IsTable(s.role, t.procs[t.current].space.pageTable, 2)
  {
  }

  /** In every live address space walkaddr and the hardware answer alike for every address below the kernel. */
  lemma LiveWalkAgrees(t: P.Table, s: Snapshot, c: Config, i: int, va: int)
    requires KernelInv(t, s, c) && P.InUse(t, i) && 0 <= va < Addr(c.kernelBase) && va < 0x40_0000_0000
    ensures var root := t.procs[i].space.pageTable;
            UserAddress(s.mem, root, va) ==
              match HardwareTranslate(s.mem, root, va)
              case PageFault => 0
              case Physical(pa) => pa
  {
    var root := t.procs[i].space.pageTable;
    assert SpaceOk(s, t.procs[i].space, c) && 0 <= Key(va) < c.kernelBase;
    WalkAddrAgreesWithHardware(s.mem, s.role, root, va);
  }

  /** The low ten bits of every translation of every live process: 15 (V, R, W, X) for the kernel's pages, each at its own
      address; below the kernel 23 (V, R, W, U) or 31 (with X), in a frame in use that is at least that of the free RAM. */
  lemma LiveEntries(t: P.Table, s: Snapshot, c: Config, i: int, v: int)
    requires KernelInv(t, s, c) && c.InRam(s) && P.InUse(t, i) && 0 <= v < VPNS
    ensures var e := LeafPte(s.mem, t.procs[i].space.pageTable, v);
            && (c.kernelBase <= v < c.limit ==> e % 1024 == 15 && e / 1024 == v)
            && (v < c.kernelBase && e % 2 == 1 ==> (e % 1024 == 23 || e % 1024 == 31) && c.base <= e / 1024 < c.limit)
  {
    var root := t.procs[i].space.pageTable;
    var e := LeafPte(s.mem, root, v);
    assert SpaceOk(s, t.procs[i].space, c);
    if c.kernelBase <= v < c.limit {
      PteBits(v, KERNEL_RWX);
    } else if v < c.kernelBase && V(e) {
      WalkStays(s.mem, s.role, root, v);
      assert LeafEntry(s.mem, s.role, LowTable(s.mem, root, v), Px(0, v));
      PteBits(PteFrame(e), PtePerms(e));
    }
  }

  /** An address space is kept while another one is built or extended. */
  lemma SpaceKept(s0: Snapshot, s: Snapshot, root: int, sp: P.Space, c: Config)
    requires c.Valid() && SpaceOk(s0, sp, c) && Grows(s0, s, root) && sp.pageTable != root
    ensures SpaceOk(s, sp, c)
  {
  }

  lemma HeapKept(mem0: Memory, mem: Memory, sp: P.Space, c: Config)
    requires c.Valid() && HeapMapped(mem0, sp.pageTable, c.heapStart, sp.heapEnd) && sp.heapEnd <= Addr(c.kernelBase)
    requires forall v :: 0 <= v < VPNS ==> LeafPte(mem, sp.pageTable, v) == LeafPte(mem0, sp.pageTable, v)
    ensures HeapMapped(mem, sp.pageTable, c.heapStart, sp.heapEnd)
  {
  }

  /** An address space is kept while frames that are not its own are freed. */
  lemma SpaceSurvives(s0: Snapshot, s: Snapshot, sp: P.Space, c: Config)
    requires c.Valid() && WellFormed(s0) && WellFormed(s) && SpaceOk(s0, sp, c) && Survives(s0, s)
    requires sp.pageTable in s.role && forall f :: InImage(sp, f) ==> f in s.role
    ensures SpaceOk(s, sp, c)
  {
    SurvivorsUntouched(s0, s, sp.pageTable);
    HeapKept(s0.mem, s.mem, sp, c);
  }

  /** Stores that change no translation never break what the kernel relies on. */
  lemma LookupsKeepKernel(t: P.Table, s: Snapshot, s': Snapshot, c: Config)
    requires KernelInv(t, s, c) && s' == s.(mem := s'.mem) && WellFormed(s') && SameLookups(s.mem, s'.mem, s.role)
    ensures KernelInv(t, s', c)
  {
    hide WellFormed;
    forall i | P.InUse(t, i) ensures SpaceOk(s', t.procs[i].space, c) {
      SameLookupsSpace(s, s', t.procs[i].space, c);
    }
  }

  lemma SameLookupsSpace(s: Snapshot, s': Snapshot, sp: P.Space, c: Config)
    requires c.Valid() && SpaceOk(s, sp, c) && s'.role == s.role && SameLookups(s.mem, s'.mem, s.role)
    ensures SpaceOk(s', sp, c)
  {
  }

  /** A user store never does. */
  lemma StoreKeepsKernel(t: P.Table, s: Snapshot, root: int, v: int, k: int, x: int, c: Config)
    requires KernelInv(t, s, c) && IsTable(s.role, root, 2) && 0 <= v < VPNS && 0 <= k < ENTRIES
    ensures KernelInv(t, s.(mem := UserStore(s.mem, root, v, k, x)), c)
  {
    StoresArePrivate(s, root, v, k, x);
    LookupsKeepKernel(t, s, s.(mem := UserStore(s.mem, root, v, k, x)), c);
  }

  // ---------------------------------------------------------------- fork

  /** The child of fork has a good address space. */
  lemma ForkedSpace(s0: Snapshot, s: Snapshot, parent: P.Space, child: int, c: Config)
    requires c.Valid() && SpaceOk(s0, parent, c) && IsTable(s.role, child, 2)
    requires var endVa := if parent.heapEnd > parent.userStackTop then parent.heapEnd else parent.userStackTop;
             Forked(s0, s, parent.pageTable, child, EndVpn(endVa), c.kernelBase, c.limit)
    ensures SpaceOk(s, P.Space(child, parent.heapEnd, parent.userStackTop, 0, 0), c)
  {
    var endVa := if parent.heapEnd > parent.userStackTop then parent.heapEnd else parent.userStackTop;
    var hi := EndVpn(endVa);
    assert PageUp(parent.heapEnd) <= hi <= c.kernelBase;
    forall v | 0 <= v < c.kernelBase
      ensures var e := LeafPte(s.mem, child, v);
              && (V(e) ==> U(e) && R(e) && W(e))
              && (USER_VPN <= v < hi && V(LeafPte(s0.mem, parent.pageTable, v)) ==> V(e))
    {
      if v >= USER_VPN { ForkedLeaf(s0, s, parent.pageTable, child, hi, c, v); }
    }
  }

  lemma ForkedLeaf(s0: Snapshot, s: Snapshot, parent: int, child: int, hi: int, c: Config, v: int)
    requires c.Valid() && Forked(s0, s, parent, child, hi, c.kernelBase, c.limit) && USER_VPN <= v < c.kernelBase
    ensures var e := LeafPte(s.mem, child, v);
            if v < hi && V(LeafPte(s0.mem, parent, v)) then V(e) && PtePerms(e) == USER_RWX else !V(e)
  {
    if v < hi {
      assert ClonedPage(s0, s, parent, child, v);
      PteRoundTrip(PteFrame(LeafPte(s.mem, child, v)), USER_RWX);
    }
  }

  /** A live space is kept while a child is built next to it. */
  lemma SpaceKeptByFork(s0: Snapshot, s1: Snapshot, s: Snapshot, child: int, sp: P.Space, c: Config)
    requires c.Valid() && SpaceOk(s0, sp, c) && NONE !in s0.role && Grows(s0, s1, NONE) && Grows(s1, s, child) && child !in s1.role
    ensures SpaceOk(s1, sp, c) && SpaceOk(s, sp, c) && sp.pageTable != child
  {
    SpaceKept(s0, s1, NONE, sp, c);
    SpaceKept(s1, s, child, sp, c);
  }

  /** One slot gets a new space, with a page table of its own and no image; the others keep theirs. */
  lemma SpacesWithChild(t: P.Table, t': P.Table, s0: Snapshot, s: Snapshot, slot: int, c: Config)
    requires Spaces(t, s0, c) && P.Slot(t', slot) && SpaceOk(s, t'.procs[slot].space, c)
    requires t'.procs[slot].space.imagePages == 0
    requires forall i :: P.InUse(t', i) && i != slot ==> P.InUse(t, i) && t'.procs[i].space == t.procs[i].space
    requires forall i :: P.InUse(t, i) && i != slot ==>
               SpaceOk(s, t.procs[i].space, c) && t.procs[i].space.pageTable != t'.procs[slot].space.pageTable
    ensures Spaces(t', s, c)
  {
  }

  lemma ForkInv(t: P.Table, s0: Snapshot, s1: Snapshot, s: Snapshot, child: int, c: Config)
    requires KernelInv(t, s0, c) && Grows(s0, s1, NONE) && Grows(s1, s, child)
    requires WellFormed(s) && NONE !in s.role && s.owned.Keys <= s.role.Keys
    requires P.FreeSlot(t.procs, 0) != P.NOBODY
    requires child !in s1.role && IsTable(s.role, child, 2)
    requires var p := t.procs[t.current].space;
             var endVa := if p.heapEnd > p.userStackTop then p.heapEnd else p.userStackTop;
             Forked(s1, s, p.pageTable, child, EndVpn(endVa), c.kernelBase, c.limit)
    ensures var p := t.procs[t.current].space;
            KernelInv(P.ForkTable(t, P.Space(child, p.heapEnd, p.userStackTop, 0, 0)), s, c)
  {
    hide Tables, Leaves, HeapMapped, OnlyUserPages, KernelLeaves, ReadWriteUser;
    var p := t.procs[t.current].space;
    var sp := P.Space(child, p.heapEnd, p.userStackTop, 0, 0);
    var t', slot := P.ForkTable(t, sp), P.FreeSlot(t.procs, 0);
    P.ApplyInv(t, P.Op.Fork(sp));
    forall i | P.InUse(t, i)
      ensures SpaceOk(s1, t.procs[i].space, c) && SpaceOk(s, t.procs[i].space, c) && t.procs[i].space.pageTable != child
    {
      SpaceKeptByFork(s0, s1, s, child, t.procs[i].space, c);
    }
    ForkedSpace(s1, s, p, child, c);
    SpacesWithChild(t, t', s0, s, slot, c);
  }

  // ---------------------------------------------------------------- steps of the table alone

  /** A step that keeps every slot in use, with its space, keeps the kernel invariant. */
  lemma TableStep(t: P.Table, t': P.Table, s: Snapshot, c: Config)
    requires KernelInv(t, s, c) && P.TableInv(t') && |t'.procs| == |t.procs|
    requires forall i :: P.Slot(t, i) ==> (P.InUse(t', i) <==> P.InUse(t, i)) && t'.procs[i].space == t.procs[i].space
    ensures KernelInv(t', s.(pid := t'.procs[t'.current].pid), c)
  {
    var s' := s.(pid := t'.procs[t'.current].pid);
    forall i | P.InUse(t', i) ensures SpaceOk(s', t'.procs[i].space, c) {
      assert SpaceOk(s, t.procs[i].space, c);
    }
  }

  // ---------------------------------------------------------------- sbrk

  ghost function WithSpace(t: P.Table, sp: P.Space): P.Table
    requires 0 <= t.current < |t.procs|
  {
    t.(procs := t.procs[t.current := t.procs[t.current].(space := sp)])
  }

  lemma WithSpaceInv(t: P.Table, sp: P.Space)
    requires P.TableInv(t)
    ensures P.TableInv(WithSpace(t, sp))
  {
    P.UsedUpdate(t.procs, t.current, t.procs[t.current].(space := sp));
  }

  /** Growing the heap maps the new pages and disturbs no other page of the process. */
  lemma GrownSpace(s0: Snapshot, s: Snapshot, sp: P.Space, newEnd: int, c: Config)
    requires c.Valid() && SpaceOk(s0, sp, c) && Grows(s0, s, sp.pageTable) && IsTable(s.role, sp.pageTable, 2)
    requires sp.heapEnd <= newEnd <= Addr(c.kernelBase)
    requires FreshRange(s0, s, sp.pageTable, PageUp(sp.heapEnd), PageUp(newEnd), USER_RW)
    requires KeepsOutside(s0, s, sp.pageTable, PageUp(sp.heapEnd), PageUp(newEnd))
    ensures SpaceOk(s, sp.(heapEnd := newEnd), c)
  {
    var root, lo, hi := sp.pageTable, PageUp(sp.heapEnd), PageUp(newEnd);
    assert 0 <= lo <= hi <= c.kernelBase;
    forall v | 0 <= v < c.limit
      ensures if lo <= v < hi then PtePerms(LeafPte(s.mem, root, v)) == USER_RW && V(LeafPte(s.mem, root, v))
              else LeafPte(s.mem, root, v) == LeafPte(s0.mem, root, v)
    {
      if lo <= v < hi {
        assert OwnPage(s0, s, root, v, USER_RW);
        PteRoundTrip(PteFrame(LeafPte(s.mem, root, v)), USER_RW);
      } else {
        assert KeepsPage(s0, s, root, v);
      }
    }
  }

  ghost predicate UserPages(s: Snapshot, root: int, lo: int, hi: int) {
    forall v {:trigger LeafPte(s.mem, root, v)} :: lo <= v < hi ==> V(LeafPte(s.mem, root, v)) && U(LeafPte(s.mem, root, v))
  }

  ghost function PageFrames(mem: Memory, root: int, lo: int, hi: int): set<int> {
    set v | lo <= v < hi :: PteFrame(LeafPte(mem, root, v))
  }

  lemma LastFrameIsNew(s: Snapshot, root: int, lo: int, hi: int)
    requires WellFormed(s) && IsTable(s.role, root, 2) && 0 <= lo < hi <= VPNS && UserPages(s, root, lo, hi)
    ensures PteFrame(LeafPte(s.mem, root, hi - 1)) in s.role.Keys - PageFrames(s.mem, root, lo, hi - 1)
  {
    var f := PteFrame(LeafPte(s.mem, root, hi - 1));
    WalkStays(s.mem, s.role, root, hi - 1);
    assert LeafEntry(s.mem, s.role, LowTable(s.mem, root, hi - 1), Px(0, hi - 1));
    if f in PageFrames(s.mem, root, lo, hi - 1) {
      var v :| lo <= v < hi - 1 && PteFrame(LeafPte(s.mem, root, v)) == f;
      UserFramesDistinct(s.mem, s.role, root, v, root, hi - 1);
    }
  }

  /** A range of user pages takes as many frames as it has pages. */
  lemma {:induction false} PagesTakeFrames(s: Snapshot, root: int, lo: int, hi: int)
    requires WellFormed(s) && IsTable(s.role, root, 2) && 0 <= lo <= hi <= VPNS && UserPages(s, root, lo, hi)
    ensures PageFrames(s.mem, root, lo, hi) <= s.role.Keys && |PageFrames(s.mem, root, lo, hi)| == hi - lo
    decreases hi - lo
  {
    hide WellFormed, LeafPte, PteFrame;
    if lo < hi {
      PagesTakeFrames(s, root, lo, hi - 1);
      LastFrameIsNew(s, root, lo, hi);
      assert PageFrames(s.mem, root, lo, hi) == PageFrames(s.mem, root, lo, hi - 1) + {PteFrame(LeafPte(s.mem, root, hi - 1))};
    }
  }

  /** A small machine runs out of frames before a heap reaches the kernel. */
  lemma HeapStaysBelowKernel(s0: Snapshot, s: Snapshot, sp: P.Space, newEnd: int, c: Config)
    requires c.Valid() && c.SmallRam() && SpaceOk(s0, sp, c) && WellFormed(s) && c.InRam(s) && IsTable(s.role, sp.pageTable, 2)
    requires KeepsOutside(s0, s, sp.pageTable, PageUp(sp.heapEnd), PageUp(newEnd))
    requires newEnd > sp.heapEnd ==> FreshRange(s0, s, sp.pageTable, PageUp(sp.heapEnd), PageUp(newEnd), USER_RW)
    ensures newEnd <= Addr(c.kernelBase)
  {
    if newEnd > Addr(c.kernelBase) {
      var root, lo, hi := sp.pageTable, c.heapStart / PAGE_SIZE, c.kernelBase;
      assert PageUp(newEnd) > hi && newEnd > sp.heapEnd;
      forall v | lo <= v < hi ensures V(LeafPte(s.mem, root, v)) && U(LeafPte(s.mem, root, v)) {
        GrownPage(s0, s, sp, newEnd, c, v);
      }
      PagesTakeFrames(s, root, lo, hi);
      SubsetSize(PageFrames(s.mem, root, lo, hi), Range(c.base, c.limit));
      RangeSize(c.base, c.limit);
      assert false;
    }
  }

  lemma GrownPage(s0: Snapshot, s: Snapshot, sp: P.Space, newEnd: int, c: Config, v: int)
    requires c.Valid() && SpaceOk(s0, sp, c) && c.heapStart / PAGE_SIZE <= v < PageUp(newEnd) && newEnd > sp.heapEnd
    requires KeepsOutside(s0, s, sp.pageTable, PageUp(sp.heapEnd), PageUp(newEnd))
    requires FreshRange(s0, s, sp.pageTable, PageUp(sp.heapEnd), PageUp(newEnd), USER_RW)
    ensures var e := LeafPte(s.mem, sp.pageTable, v); V(e) && U(e) && R(e) && W(e)
  {
    var e := LeafPte(s.mem, sp.pageTable, v);
    if v < PageUp(sp.heapEnd) {
      assert KeepsPage(s0, s, sp.pageTable, v) && e == LeafPte(s0.mem, sp.pageTable, v);
    } else {
      assert FreshPage(s0, s, sp.pageTable, v, USER_RW);
      PteRoundTrip(PteFrame(e), USER_RW);
    }
  }

  lemma SubsetSize(a: set<int>, b: set<int>)
    requires a <= b
    ensures |a| <= |b|
  {
    assert a + (b - a) == b;
  }

  /** A heap that shrinks keeps its pages mapped. */
  lemma ShrunkSpace(s: Snapshot, sp: P.Space, newEnd: int, c: Config)
    requires c.Valid() && SpaceOk(s, sp, c) && 0 <= newEnd <= sp.heapEnd
    ensures SpaceOk(s, sp.(heapEnd := newEnd), c)
  {
  }

  lemma SbrkInv(t: P.Table, s0: Snapshot, s: Snapshot, newEnd: int, c: Config)
    requires KernelInv(t, s0, c)
    requires WellFormed(s) && NONE !in s.role && s.owned.Keys <= s.role.Keys && s.pid == s0.pid
    requires var sp := t.procs[t.current].space; Grows(s0, s, sp.pageTable) && SpaceOk(s, sp.(heapEnd := newEnd), c)
    ensures KernelInv(WithSpace(t, t.procs[t.current].space.(heapEnd := newEnd)), s, c)
  {
    var sp := t.procs[t.current].space;
    var t' := WithSpace(t, sp.(heapEnd := newEnd));
    WithSpaceInv(t, sp.(heapEnd := newEnd));
    forall i | P.InUse(t', i) ensures SpaceOk(s, t'.procs[i].space, c) {
      if i != t.current { SpaceKept(s0, s, sp.pageTable, t.procs[i].space, c); }
    }
    SameImages(t, t', s0, s, c);
  }

  lemma SameImages(t: P.Table, t': P.Table, s0: Snapshot, s: Snapshot, c: Config)
    requires Spaces(t, s0, c) && |t'.procs| == |t.procs|
    requires forall i :: P.InUse(t', i) ==> P.InUse(t, i) && SpaceOk(s, t'.procs[i].space, c)
    requires forall i :: P.InUse(t', i) ==>
               && t'.procs[i].space.pageTable == t.procs[i].space.pageTable
               && t'.procs[i].space.image == t.procs[i].space.image
               && t'.procs[i].space.imagePages == t.procs[i].space.imagePages
    ensures Spaces(t', s, c)
  {
    forall i, j, f | P.InUse(t', i) && P.InUse(t', j) && i != j && InImage(t'.procs[i].space, f)
      ensures !InImage(t'.procs[j].space, f)
    {
      assert InImage(t.procs[i].space, f);
    }
  }

  // ---------------------------------------------------------------- exec

  /** A freshly loaded program has a good address space, with one mapped heap page. */
  lemma LoadedSpace(s0: Snapshot, s: Snapshot, root: int, image: int, n: nat, sym: Symbols, c: Config)
    requires c.Valid() && LaidOut(sym, n, c.kernelBase) && sym.heapStart == c.heapStart && IsTable(s.role, root, 2)
    requires Loaded(s0, s, root, image, n, sym, c.kernelBase, c.limit)
    requires forall f :: image <= f < image + n ==> f in s.role && s.role[f] == Plain
    ensures SpaceOk(s, P.Space(root, c.heapStart + PAGE_SIZE, sym.stackTop, image, n), c)
  {
    var heap := c.heapStart / PAGE_SIZE;
    assert PageUp(c.heapStart + PAGE_SIZE) == heap + 1 && heap < c.kernelBase;
    forall v | 0 <= v < c.kernelBase && V(LeafPte(s.mem, root, v))
      ensures var e := LeafPte(s.mem, root, v); U(e) && R(e) && W(e)
    {
      LoadedLeaf(s0, s, root, image, n, sym, c, v);
    }
    forall v | c.kernelBase <= v < c.limit ensures LeafPte(s.mem, root, v) == MakePte(v, KERNEL_RWX) {
      assert LoadedPage(s0, s, root, image, n, sym, c.kernelBase, c.limit, v);
    }
    LoadedLeaf(s0, s, root, image, n, sym, c, heap);
  }

  lemma LoadedLeaf(s0: Snapshot, s: Snapshot, root: int, image: int, n: nat, sym: Symbols, c: Config, v: int)
    requires c.Valid() && 0 <= v < c.kernelBase && Loaded(s0, s, root, image, n, sym, c.kernelBase, c.limit)
    ensures var e := LeafPte(s.mem, root, v); V(e) ==> U(e) && R(e) && W(e)
    ensures Remapped(sym, v) || USER_VPN <= v < USER_VPN + n ==> V(LeafPte(s.mem, root, v))
  {
    var f := PteFrame(LeafPte(s.mem, root, v));
    assert LoadedPage(s0, s, root, image, n, sym, c.kernelBase, c.limit, v);
    PteRoundTrip(f, USER_RW);
    PteRoundTrip(f, USER_RWX);
  }

  /** A live space other than the one being replaced is kept by all four stages of exec. */
  lemma SpaceKeptByExec(s0: Snapshot, s1: Snapshot, s2: Snapshot, s3: Snapshot, old': int, new': int, sp: P.Space, c: Config)
    requires c.Valid() && WellFormed(s0) && WellFormed(s1) && NONE !in s0.role && SpaceOk(s0, sp, c)
    requires Dismantled(s0, s1, old') && IsTable(s0.role, old', 2) && sp.pageTable != old'
    requires Grows(s1, s2, NONE) && Grows(s2, s3, new') && new' !in s2.role
    ensures SpaceOk(s3, sp, c) && sp.pageTable != new'
    ensures forall f :: InImage(sp, f) ==> f in s1.role
  {
    OtherRootSurvives(s0, s1, old', sp.pageTable);
    SpaceSurvives(s0, s1, sp, c);
    SpaceKeptByFork(s1, s2, s3, new', sp, c);
  }

  lemma ExecInv(t: P.Table, s0: Snapshot, s1: Snapshot, s2: Snapshot, s3: Snapshot, sp: P.Space, sym: Symbols, c: Config)
    requires KernelInv(t, s0, c) && WellFormed(s1) && WellFormed(s3) && NONE !in s3.role && s3.owned.Keys <= s3.role.Keys
    requires Dismantled(s0, s1, t.procs[t.current].space.pageTable) && Grows(s1, s2, NONE) && Grows(s2, s3, sp.pageTable)
    requires sp.pageTable !in s2.role && IsTable(s3.role, sp.pageTable, 2) && 0 <= sp.imagePages
    requires sp == P.Space(sp.pageTable, c.heapStart + PAGE_SIZE, sym.stackTop, sp.image, sp.imagePages)
    requires forall f :: InImage(sp, f) ==> f !in s1.role && f in s2.role && s2.role[f] == Plain
    requires LaidOut(sym, sp.imagePages, c.kernelBase) && sym.heapStart == c.heapStart
    requires Loaded(s2, s3, sp.pageTable, sp.image, sp.imagePages, sym, c.kernelBase, c.limit)
    ensures KernelInv(WithSpace(t, sp), s3, c)
  {
    var t' := WithSpace(t, sp);
    WithSpaceInv(t, sp);
    LoadedSpace(s2, s3, sp.pageTable, sp.image, sp.imagePages, sym, c);
    forall i | P.InUse(t, i) && i != t.current
      ensures SpaceOk(s3, t.procs[i].space, c) && t.procs[i].space.pageTable != sp.pageTable
      ensures forall f :: InImage(t.procs[i].space, f) ==> !InImage(sp, f)
    {
      SpaceKeptByExec(s0, s1, s2, s3, t.procs[t.current].space.pageTable, sp.pageTable, t.procs[i].space, c);
    }
    SpacesReplaced(t, s0, s3, sp, c);
  }

  lemma SpacesReplaced(t: P.Table, s0: Snapshot, s: Snapshot, sp: P.Space, c: Config)
    requires P.InUse(t, t.current) && Spaces(t, s0, c) && SpaceOk(s, sp, c)
    requires forall i :: P.InUse(t, i) && i != t.current ==>
               && SpaceOk(s, t.procs[i].space, c) && t.procs[i].space.pageTable != sp.pageTable
               && forall f :: InImage(t.procs[i].space, f) ==> !InImage(sp, f)
    ensures Spaces(WithSpace(t, sp), s, c)
  {
  }

  // ---------------------------------------------------------------- wait

  /** What free_proc of slot z relies on: the pages still charged to its pid are its own, or plain pages that are
      nobody's image. */
  ghost predicate ReapSafe(t: P.Table, s: Snapshot, z: int)
    requires 0 <= z < |t.procs|
  {
    && OwnsNothingElse(s, t.procs[z].space.pageTable, t.procs[z].pid)
    && forall i, f :: P.InUse(t, i) && i != z && InImage(t.procs[i].space, f) && f in s.owned ==> s.owned[f] != t.procs[z].pid
  }

  lemma SpaceKeptByReap(t: P.Table, s0: Snapshot, s: Snapshot, z: int, i: int, c: Config)
    requires KernelInv(t, s0, c) && P.InUse(t, z) && P.InUse(t, i) && i != z && ReapSafe(t, s0, z)
    requires WellFormed(s) && Survives(s0, s)
    requires var d := t.procs[z]; HeldIsGone(s0, s, d.space.pageTable, d.space.image, d.space.imagePages, d.pid)
    ensures SpaceOk(s, t.procs[i].space, c)
  {
    var sp, d := t.procs[i].space, t.procs[z];
    NotUnderPlainOrRoot(s0, d.space.pageTable, sp.pageTable);
    assert !InImage(d.space, sp.pageTable) by { assert SpaceOk(s0, d.space, c); }
    forall f | InImage(sp, f) ensures f in s.role {
      NotUnderPlainOrRoot(s0, d.space.pageTable, f);
      assert !InImage(d.space, f);
    }
    SpaceSurvives(s0, s, sp, c);
  }

  lemma NotUnderPlainOrRoot(s: Snapshot, root: int, f: int)
    requires WellFormed(s) && NONE !in s.role && f in s.role && (s.role[f] == Plain || s.role[f] == Root) && root in s.role
    ensures !Under(s.role, root, f)
  {
  }

  lemma ReapKernelInv(t: P.Table, s0: Snapshot, s: Snapshot, z: int, c: Config)
    requires KernelInv(t, s0, c) && P.InUse(t, z) && z != t.current && z != P.IDLE && ReapSafe(t, s0, z)
    requires WellFormed(s) && NONE !in s.role && s.owned.Keys <= s.role.Keys && Survives(s0, s)
    requires var d := t.procs[z]; HeldIsGone(s0, s, d.space.pageTable, d.space.image, d.space.imagePages, d.pid)
    ensures KernelInv(P.Reap(t, z), s, c)
  {
    P.ReapInv(t, z);
    var t' := P.Reap(t, z);
    forall i | P.InUse(t', i) ensures P.InUse(t, i) && i != z && t'.procs[i] == t.procs[i] && SpaceOk(s, t.procs[i].space, c) {
      SpaceKeptByReap(t, s0, s, z, i, c);
    }
    SameImages(t, t', s0, s, c);
  }

  /** Frame f is part of another live process: in its image, its page table, or a page below it. */
  ghost predicate PartOf(s: Snapshot, sp: P.Space, f: int) {
    InImage(sp, f) || f == sp.pageTable || Under(s.role, sp.pageTable, f)
  }

  /** Reaping a process whose pid is charged with a frame of another live process breaks the invariant of the kernel:
      that process is left without the frame. */
  lemma UnsafeReapBreaks(t: P.Table, s0: Snapshot, s: Snapshot, z: int, c: Config, i: int, f: int)
    requires KernelInv(t, s0, c) && P.InUse(t, z) && P.InUse(t, i) && i != z && Survives(s0, s)
    requires var d := t.procs[z]; HeldIsGone(s0, s, d.space.pageTable, d.space.image, d.space.imagePages, d.pid)
    requires f in s0.owned && s0.owned[f] == t.procs[z].pid && PartOf(s0, t.procs[i].space, f)
    ensures !KernelInv(P.Reap(t, z), s, c)
  {
    var t', sp := P.Reap(t, z), t.procs[i].space;
    assert f in s0.role && f !in s.role;
    if KernelInv(t', s, c) {
      assert P.InUse(t', i) && t'.procs[i] == t.procs[i] && SpaceOk(s, sp, c);
      assert Under(s0.role, sp.pageTable, f);
      TreeStays(s0, s, sp.pageTable, f);
      assert false;
    }
  }

  /** A tree whose root is still in use, and which is well shaped, has kept all its frames. */
  lemma TreeStays(s0: Snapshot, s: Snapshot, root: int, f: int)
    requires WellFormed(s0) && WellFormed(s) && Survives(s0, s) && NONE !in s0.role
    requires IsTable(s.role, root, 2) && f in s0.role && Under(s0.role, root, f)
    ensures f in s.role
  {
    var v := UnderHasPage(s0.mem, s0.role, root, f);
    SurvivorsUntouched(s0, s, root);
    WalkStays(s0.mem, s0.role, root, v);
    WalkStays(s.mem, s.role, root, v);
    assert MidTable(s.mem, root, v) == MidTable(s0.mem, root, v);
    if MidTable(s.mem, root, v) != NONE {
      assert LowTable(s.mem, root, v) == LowTable(s0.mem, root, v);
    }
  }
}
