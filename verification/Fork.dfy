/** The address-space part of fork: a deep copy of the parent's user pages under a fresh root. */
module Fork {
  import opened Wrappers
  import opened Sv39
  import opened PageTree
  import opened PageMemory
  import opened PageTables
  import opened Walkers
  import opened Teardown
  import opened AddressSpace

  const USER_VPN := USER_BASE / PAGE_SIZE

  /** The child maps page v exactly when the parent did, to a user page of its own, taken from frames that were
      not in use, holding what the parent's page held. */
  ghost predicate ClonedPage(s0: Snapshot, s: Snapshot, parent: int, child: int, v: int) {
    var e, e' := LeafPte(s0.mem, parent, v), LeafPte(s.mem, child, v);
    if V(e) then
      && e' == MakePte(PteFrame(e'), USER_RWX)
      && PteFrame(e') !in s0.role && PteFrame(e') in s.role && s.role[PteFrame(e')].User?
      && SameFrame(s.mem, PteFrame(e'), s0.mem, PteFrame(e))
    else e' == 0
  }

  lemma ClonedPageKept(s0: Snapshot, s: Snapshot, s': Snapshot, parent: int, child: int, v: int)
    requires ClonedPage(s0, s, parent, child, v)
    requires LeafPte(s'.mem, child, v) == LeafPte(s.mem, child, v)
    requires V(LeafPte(s.mem, child, v)) ==>
               var f := PteFrame(LeafPte(s.mem, child, v));
               f in s.role && f in s'.role && s'.role[f] == s.role[f] && SameFrame(s'.mem, f, s.mem, f)
    ensures ClonedPage(s0, s', parent, child, v)
  {
    hide LeafPte, PteFrame, MakePte, V;
    PteRoundTrip(PteFrame(LeafPte(s.mem, child, v)), USER_RWX);
  }

  /** In [lo, hi) every valid page of the tree under root is a user page. */
  ghost predicate OnlyUserPages(mem: Memory, root: int, lo: int, hi: int) {
    forall v :: lo <= v < hi && V(LeafPte(mem, root, v)) ==> U(LeafPte(mem, root, v))
  }

  lemma ParentPage(s0: Snapshot, s: Snapshot, parent: int, child: int, v: int)
    requires WellFormed(s0) && Grows(s0, s, child) && IsTable(s0.role, parent, 2) && parent != child && 0 <= v < VPNS
    requires V(LeafPte(s0.mem, parent, v)) && U(LeafPte(s0.mem, parent, v))
    ensures var g := PteFrame(LeafPte(s0.mem, parent, v));
            0 < g && g in s0.role && LeafPte(s.mem, parent, v) == LeafPte(s0.mem, parent, v) && SameFrame(s.mem, g, s0.mem, g)
  {
  }

  /** The states of one turn of the copy loop: a frame f is allocated, filled from src, and mapped at v. */
  ghost predicate CloneSteps(s: Snapshot, s1: Snapshot, s2: Snapshot, s': Snapshot, child: int, v: int, f: int, src: int) {
    && IsTable(s.role, child, 2) && LeafPte(s.mem, child, v) == 0
    && f !in s.role && s1.role == s.role[f := Plain] && SameLookups(s.mem, s1.mem, s.role)
    && (forall g, j {:trigger Entry(s1.mem, g, j)} :: 0 <= j < ENTRIES && g != f ==> Entry(s1.mem, g, j) == Entry(s.mem, g, j))
    && s2.mem == CopyWords(s1.mem, f, src, ENTRIES) && s2.role == s1.role && SameLookups(s1.mem, s2.mem, s1.role)
    && MapsPage(s2.mem, s2.role, s'.mem, s'.role, child, v, f, USER_RWX)
  }

  /** They clone the page ... */
  lemma CloneStepsPage(s0: Snapshot, s: Snapshot, s1: Snapshot, s2: Snapshot, s': Snapshot, parent: int, child: int, v: int, f: int)
    requires WellFormed(s0) && Grows(s0, s, child) && IsTable(s0.role, parent, 2) && parent != child && 0 <= v < VPNS
    requires V(LeafPte(s0.mem, parent, v)) && U(LeafPte(s0.mem, parent, v))
    requires CloneSteps(s, s1, s2, s', child, v, f, PteFrame(LeafPte(s0.mem, parent, v)))
    ensures ClonedPage(s0, s', parent, child, v)
  {
    var src := PteFrame(LeafPte(s0.mem, parent, v));
    ParentPage(s0, s, parent, child, v);
    PteRoundTrip(f, USER_RWX);
    assert LeafPte(s2.mem, child, v) == LeafPte(s1.mem, child, v) == 0;
    assert SameFrame(s'.mem, f, s2.mem, f);
    assert SameFrame(s2.mem, f, s.mem, src);
  }

  /** ... and leave the other pages of the child, and the other pages in use, as they are. */
  lemma CloneStepsRest(s: Snapshot, s1: Snapshot, s2: Snapshot, s': Snapshot, child: int, v: int, f: int, src: int)
    requires WellFormed(s) && CloneSteps(s, s1, s2, s', child, v, f, src) && 0 <= v < VPNS
    ensures forall u :: 0 <= u < VPNS && u != v ==> LeafPte(s'.mem, child, u) == LeafPte(s.mem, child, u)
    ensures forall g :: g in s.role && LevelOf(s.role[g]) < 0 ==>
              g in s'.role && s'.role[g] == s.role[g] && SameFrame(s'.mem, g, s.mem, g)
  {
    assert LeafPte(s2.mem, child, v) == LeafPte(s1.mem, child, v) == 0;
    forall u | 0 <= u < VPNS && u != v ensures LeafPte(s'.mem, child, u) == LeafPte(s.mem, child, u) {
      assert LeafPte(s2.mem, child, u) == LeafPte(s1.mem, child, u) == LeafPte(s.mem, child, u);
    }
  }

  /** alloc_pages(1), memcpy and map_page of one page. */
  method ClonePage(ram: PageMemory, parent: int, child: int, va: int, src: int, ghost v: int, ghost s0: Snapshot)
    returns (ok: bool)
    requires Sound(ram) && WellFormed(s0) && Grows(s0, Now(ram), child) && IsTable(ram.role, child, 2)
    requires IsTable(s0.role, parent, 2) && parent != child
    requires 0 <= v < VPNS && va == Addr(v)
    requires V(LeafPte(s0.mem, parent, v)) && U(LeafPte(s0.mem, parent, v)) && src == PteFrame(LeafPte(s0.mem, parent, v))
    requires LeafPte(ram.mem, child, v) == 0
    modifies ram, ram.tracker, ram.tracker.table
    ensures ok ==> Sound(ram) && Grows(s0, Now(ram), child) && IsTable(ram.role, child, 2)
    ensures ok <==> old(ram.Available()) >= 1 + old(MissingTables(ram.mem, child, v))
    ensures ok ==> ram.Available() == old(ram.Available()) - 1 - old(MissingTables(ram.mem, child, v))
    ensures ok ==> ram.Room() >= old(ram.Room()) - 1 - old(MissingTables(ram.mem, child, v))
    ensures ok ==> MissingTables(ram.mem, child, v) == 0
    ensures ok ==> ClonedPage(s0, Now(ram), parent, child, v)
    ensures ok ==> forall u :: 0 <= u < VPNS && u != v ==> LeafPte(ram.mem, child, u) == LeafPte(old(ram.mem), child, u)
    ensures ok ==> forall g :: g in old(ram.role) && LevelOf(old(ram.role)[g]) < 0 ==>
              g in ram.role && ram.role[g] == old(ram.role)[g] && SameFrame(ram.mem, g, old(ram.mem), g)
  {
    hide MissingTables;
    ghost var s := Now(ram);
    TwoLevels(ram.mem, child, v);
    var page := NewDataPage(ram, s0, child);
    if page.None? {
      return false;
    }
    var pa := page.value;
    ghost var s1 := Now(ram);
    CopyPage(ram, pa, src);
    ghost var s2 := Now(ram);
    GrowsByWrite(s0, s1, s2, child, pa);
    CopyKeepsTables(s.mem, s1.mem, s.role, child, v, pa, src);
    FrameOfAddr(pa);
    FrameOfAddr(v);
    ok := MapInto(ram, child, va, Addr(pa), USER_RWX, s0);
    if ok {
      CloneStepsPage(s0, s, s1, s2, Now(ram), parent, child, v, pa);
      CloneStepsRest(s, s1, s2, Now(ram), child, v, pa, src);
    }
  }

  /** The frames that the copy of a page with leaf entry e takes: none when the parent does not map it. */
  function TurnCost(e: int, missing: int): int { if V(e) then 1 + missing else 0 }

  /** The number of mapped pages of [lo, hi). */
  function MappedPages(mem: Memory, root: int, lo: int, hi: int): (n: nat)
    decreases hi - lo
  {
    if lo >= hi then 0 else MappedPages(mem, root, lo, hi - 1) + (if V(LeafPte(mem, root, hi - 1)) then 1 else 0)
  }

  lemma NoPages(mem: Memory, root: int, lo: int)
    ensures MappedPages(mem, root, lo, lo) == 0
  {
  }

  /** Pages that are not mapped do not count ... */
  lemma {:induction false} MappedGap(mem: Memory, root: int, lo: int, mid: int, hi: int)
    requires lo <= mid <= hi && forall v :: mid <= v < hi ==> !V(LeafPte(mem, root, v))
    ensures MappedPages(mem, root, lo, hi) == MappedPages(mem, root, lo, mid)
    decreases hi - mid
  {
    if mid < hi { MappedGap(mem, root, lo, mid, hi - 1); }
  }

  /** ... each other page counts at most once ... */
  lemma {:induction false} MappedBound(mem: Memory, root: int, lo: int, mid: int, hi: int)
    requires lo <= mid <= hi
    ensures MappedPages(mem, root, lo, mid) <= MappedPages(mem, root, lo, hi) <= MappedPages(mem, root, lo, mid) + hi - mid
    decreases hi - mid
  {
    if mid < hi { MappedBound(mem, root, lo, mid, hi - 1); }
  }

  /** ... and only translations matter. */
  lemma {:induction false} MappedSame(mem: Memory, mem': Memory, root: int, lo: int, hi: int)
    requires forall v :: lo <= v < hi ==> LeafPte(mem', root, v) == LeafPte(mem, root, v)
    ensures MappedPages(mem', root, lo, hi) == MappedPages(mem, root, lo, hi)
    decreases hi - lo
  {
    if lo < hi { MappedSame(mem, mem', root, lo, hi - 1); }
  }

  /** One turn of the copy loop: a page the parent does not map is skipped. */
  method CloneTurn(ram: PageMemory, parent: int, child: int, va: int, ghost v: int, ghost s0: Snapshot) returns (ok: bool)
    requires Sound(ram) && WellFormed(s0) && Grows(s0, Now(ram), child) && IsTable(ram.role, child, 2)
    requires IsTable(s0.role, parent, 2) && parent != child
    requires 0 <= v < VPNS && va == Addr(v)
    requires V(LeafPte(s0.mem, parent, v)) ==> U(LeafPte(s0.mem, parent, v))
    requires LeafPte(ram.mem, child, v) == 0
    modifies ram, ram.tracker, ram.tracker.table
    ensures ok ==> Sound(ram) && Grows(s0, Now(ram), child) && IsTable(ram.role, child, 2)
    ensures ok <==> old(ram.Available()) >= TurnCost(LeafPte(s0.mem, parent, v), old(MissingTables(ram.mem, child, v)))
    ensures ok ==> ram.Available() == old(ram.Available()) - TurnCost(LeafPte(s0.mem, parent, v), old(MissingTables(ram.mem, child, v)))
    ensures ok ==> ram.Room() >= old(ram.Room()) - TurnCost(LeafPte(s0.mem, parent, v), old(MissingTables(ram.mem, child, v)))
    ensures ok ==> MissingTables(ram.mem, child, v) == if V(LeafPte(s0.mem, parent, v)) then 0 else old(MissingTables(ram.mem, child, v))
    ensures ok ==> ClonedPage(s0, Now(ram), parent, child, v)
    ensures ok ==> forall u :: 0 <= u < VPNS && u != v ==> LeafPte(ram.mem, child, u) == LeafPte(old(ram.mem), child, u)
    ensures ok ==> forall g :: g in old(ram.role) && LevelOf(old(ram.role)[g]) < 0 ==>
              g in ram.role && ram.role[g] == old(ram.role)[g] && SameFrame(ram.mem, g, old(ram.mem), g)
  {
    ghost var e := LeafPte(s0.mem, parent, v);
    FrameOfAddr(v);
    assert Key(va) == v;
    assert LeafPte(ram.mem, parent, v) == e;
    if V(e) {
      ParentPage(s0, Now(ram), parent, child, v);
      FrameOfAddr(PteFrame(e));
    }
    var pa := WalkPage(ram, parent, va);
    if pa == 0 {
      return true;
    }
    ok := ClonePage(ram, parent, child, va, pa / PAGE_SIZE, v, s0);
  }

  /** The number of the first page at or above endVa, but no lower than the first user page. */
  function EndVpn(endVa: int): int {
    var n := (endVa + PAGE_SIZE - 1) / PAGE_SIZE;
    if n < USER_VPN then USER_VPN else n
  }

  lemma ClonesKept(s0: Snapshot, s: Snapshot, s': Snapshot, parent: int, child: int, n: int)
    requires forall v :: USER_VPN <= v < n ==> ClonedPage(s0, s, parent, child, v)
    requires n < VPNS && forall u :: 0 <= u < VPNS && u != n ==> LeafPte(s'.mem, child, u) == LeafPte(s.mem, child, u)
    requires forall g :: g in s.role && LevelOf(s.role[g]) < 0 ==>
               g in s'.role && s'.role[g] == s.role[g] && SameFrame(s'.mem, g, s.mem, g)
    ensures forall v :: USER_VPN <= v < n ==> ClonedPage(s0, s', parent, child, v)
  {
    forall v | USER_VPN <= v < n ensures ClonedPage(s0, s', parent, child, v) {
      assert ClonedPage(s0, s, parent, child, v);
      PteRoundTrip(PteFrame(LeafPte(s.mem, child, v)), USER_RWX);
      ClonedPageKept(s0, s, s', parent, child, v);
    }
  }

  lemma BeforeEnd(endVa: int, n: int)
    requires USER_VPN <= n
    ensures Addr(n) < endVa <==> n < EndVpn(endVa)
  {
  }

  /** The frames that copying the user pages below hi takes at most: a frame for each that the parent maps, and the
      tables for them. */
  function CopyCost(mem: Memory, parent: int, hi: int): nat { MappedPages(mem, parent, USER_VPN, hi) + TableCost(USER_VPN, hi) }

  lemma NothingCopied(mem: Memory, parent: int)
    ensures CopyCost(mem, parent, USER_VPN) == 0
  {
  }

  /** One turn stays within what CopyCost grows by. */
  lemma CopyTurn(mem0: Memory, parent: int, mem: Memory, child: int, n: int, hi: int)
    requires USER_VPN <= n < hi
    ensures var e, missing := LeafPte(mem0, parent, n), MissingTables(mem, child, n);
            CopyCost(mem0, parent, n) - Unspent(mem, child, USER_VPN, n) + TurnCost(e, missing)
              <= CopyCost(mem0, parent, n + 1) - (if V(e) then 0 else missing) <= CopyCost(mem0, parent, n + 1)
    ensures CopyCost(mem0, parent, n + 1) <= CopyCost(mem0, parent, hi)
  {
    hide LeafPte, TableCost, MissingTables, Unspent;
    TwoLevels(mem, child, n);
    TablesTurn(mem, child, USER_VPN, n);
    TableCostGrows(USER_VPN, n + 1, hi);
    MappedBound(mem0, parent, USER_VPN, n + 1, hi);
  }

  /** The copy loop of fork: the pages of [USER_BASE, endVa), in turn. */
  method CloneUserPages(ram: PageMemory, parent: int, child: int, endVa: int, ghost s0: Snapshot) returns (ok: bool)
    requires Sound(ram) && WellFormed(s0) && Grows(s0, Now(ram), child) && IsTable(ram.role, child, 2)
    requires IsTable(s0.role, parent, 2) && parent != child
    requires EndVpn(endVa) <= VPNS && OnlyUserPages(s0.mem, parent, USER_VPN, EndVpn(endVa))
    requires forall v :: USER_VPN <= v < EndVpn(endVa) ==> LeafPte(ram.mem, child, v) == 0
    modifies ram, ram.tracker, ram.tracker.table
    ensures ok ==> Sound(ram) && Grows(s0, Now(ram), child) && IsTable(ram.role, child, 2)
    ensures ok || old(ram.Available()) < CopyCost(s0.mem, parent, EndVpn(endVa))
    ensures ok ==> ram.Available() >= old(ram.Available()) - CopyCost(s0.mem, parent, EndVpn(endVa))
    ensures ok ==> ram.Room() >= old(ram.Room()) - CopyCost(s0.mem, parent, EndVpn(endVa))
    ensures ok ==> forall v :: USER_VPN <= v < EndVpn(endVa) ==> ClonedPage(s0, Now(ram), parent, child, v)
    ensures ok ==> forall v :: 0 <= v < VPNS && !(USER_VPN <= v < EndVpn(endVa)) ==>
              LeafPte(ram.mem, child, v) == LeafPte(old(ram.mem), child, v)
  {
    hide Tables, Leaves, Grows, ClonedPage, CopyCost, MissingTables, TurnCost, LeafPte;
    NothingCopied(s0.mem, parent);
    var va := USER_BASE;
    ghost var n := USER_VPN;
    BeforeEnd(endVa, n);
    while va < endVa
      invariant (va < endVa <==> n < EndVpn(endVa))
      invariant va == Addr(n) && USER_VPN <= n <= EndVpn(endVa)
      invariant ram.Available() >= old(ram.Available()) - CopyCost(s0.mem, parent, n) + Unspent(ram.mem, child, USER_VPN, n)
      invariant ram.Room() >= old(ram.Room()) - CopyCost(s0.mem, parent, n) + Unspent(ram.mem, child, USER_VPN, n)
      invariant Sound(ram) && Grows(s0, Now(ram), child) && IsTable(ram.role, child, 2)
      invariant forall v :: USER_VPN <= v < n ==> ClonedPage(s0, Now(ram), parent, child, v)
      invariant forall v :: 0 <= v < VPNS && !(USER_VPN <= v < n) ==>
                  LeafPte(ram.mem, child, v) == LeafPte(old(ram.mem), child, v)
    {
      ghost var s := Now(ram);
      CopyTurn(s0.mem, parent, s.mem, child, n, EndVpn(endVa));
      ok := CloneTurn(ram, parent, child, va, n, s0);
      if !ok {
        return;
      }
      ClonesKept(s0, s, Now(ram), parent, child, n);
      va := va + PAGE_SIZE;
      n := n + 1;
      BeforeEnd(endVa, n);
    }
    TwoLevels(ram.mem, child, n - 1);
    ok := true;
  }

  /** The child's translations after fork, page by page. */
  ghost predicate Forked(s0: Snapshot, s: Snapshot, parent: int, child: int, hi: int, kb: int, limit: int) {
    && (forall v :: USER_VPN <= v < hi ==> ClonedPage(s0, s, parent, child, v))
    && (forall v :: kb <= v < limit ==> LeafPte(s.mem, child, v) == MakePte(v, KERNEL_RWX))
    && (forall v :: 0 <= v < VPNS && !(USER_VPN <= v < hi) && !(kb <= v < limit) ==> LeafPte(s.mem, child, v) == 0)
  }

  /** The frames that copying an address space takes at most: root, tables for the kernel, and the user pages. */
  function ForkCost(mem: Memory, parent: int, endVa: int, kb: int, limit: int): nat {
    1 + TableCost(kb, limit) + CopyCost(mem, parent, EndVpn(endVa))
  }

  /** The address-space part of sys_fork: a fresh root, the kernel mappings, a copy of every user page. None stands
      for PANIC("out of memory"), and does not happen while ForkCost frames are available. */
  method ForkSpace(ram: PageMemory, parent: int, heapEnd: int, userStackTop: int, kernelBase: int) returns (r: Option<int>)
    requires Sound(ram) && IsTable(ram.role, parent, 2)
    requires 0 < kernelBase && ram.limit <= VPNS
    requires var endVa := if heapEnd > userStackTop then heapEnd else userStackTop;
             EndVpn(endVa) <= kernelBase <= VPNS && OnlyUserPages(ram.mem, parent, USER_VPN, EndVpn(endVa))
    modifies ram, ram.tracker, ram.tracker.table
    ensures r.None? ==>
              var endVa := if heapEnd > userStackTop then heapEnd else userStackTop;
              old(ram.Available()) < ForkCost(old(ram.mem), parent, endVa, kernelBase, ram.limit)
    ensures r.Some? ==>
              var endVa := if heapEnd > userStackTop then heapEnd else userStackTop;
              && ram.Available() >= old(ram.Available()) - ForkCost(old(ram.mem), parent, endVa, kernelBase, ram.limit)
              && ram.Room() >= old(ram.Room()) - ForkCost(old(ram.mem), parent, endVa, kernelBase, ram.limit)
    ensures r.Some? ==>
              var endVa := if heapEnd > userStackTop then heapEnd else userStackTop;
              && Sound(ram) && r.value !in old(ram.role) && IsTable(ram.role, r.value, 2)
              && Grows(old(Now(ram)), Now(ram), r.value)
              && Forked(old(Now(ram)), Now(ram), parent, r.value, EndVpn(endVa), kernelBase, ram.limit)
  {
    hide Tables, Leaves, Grows, ClonedPage, TableCost, CopyCost;
    ghost var s0 := Now(ram);
    r := NewPageTable(ram);
    if r.None? {
      return;
    }
    var child := r.value;
    var ok := MapKernel(ram, child, kernelBase, ram.limit, s0);
    if !ok {
      return None;
    }
    var endVa := if heapEnd > userStackTop then heapEnd else userStackTop;
    ok := CloneUserPages(ram, parent, child, endVa, s0);
    if !ok {
      return None;
    }
  }

  // ---------------------------------------------------------------- what user programs see

  /** The word a user program reads at word k of page v, if the page is a user page. */
  function UserWord(mem: Memory, root: int, v: int, k: int): Option<int>
    requires 0 <= k < ENTRIES
  {
    var e := LeafPte(mem, root, v);
    if V(e) && U(e) then Some(Entry(mem, PteFrame(e), k)) else None
  }

  /** A store by a user program: it reaches memory only through a writable user page. */
  function UserStore(mem: Memory, root: int, v: int, k: int, x: int): Memory
    requires 0 <= k < ENTRIES
  {
    var e := LeafPte(mem, root, v);
    if V(e) && U(e) && W(e) then Store(mem, PteFrame(e), k, x) else mem
  }

  /** User stores are private: one changes the word it names in its own address space, no other word of any
      address space, and no translation. */
  lemma StoresArePrivate(s: Snapshot, root: int, v: int, k: int, x: int)
    requires WellFormed(s) && IsTable(s.role, root, 2) && 0 <= v < VPNS && 0 <= k < ENTRIES
    ensures var mem' := UserStore(s.mem, root, v, k, x);
            && WellFormed(s.(mem := mem'))
            && SameLookups(s.mem, mem', s.role)
            && forall r, u, j :: IsTable(s.role, r, 2) && 0 <= u < VPNS && 0 <= j < ENTRIES ==>
                 UserWord(mem', r, u, j) ==
                   if r == root && u == v && j == k && V(LeafPte(s.mem, root, v)) && U(LeafPte(s.mem, root, v)) && W(LeafPte(s.mem, root, v))
                   then Some(x) else UserWord(s.mem, r, u, j)
  {
    var mem' := UserStore(s.mem, root, v, k, x);
    var e := LeafPte(s.mem, root, v);
    if V(e) && U(e) && W(e) {
      WalkStays(s.mem, s.role, root, v);
      assert LeafEntry(s.mem, s.role, LowTable(s.mem, root, v), Px(0, v));
      DataWrite(s.mem, mem', s.role);
      forall r, u, j | IsTable(s.role, r, 2) && 0 <= u < VPNS && 0 <= j < ENTRIES
        ensures UserWord(mem', r, u, j) == if r == root && u == v && j == k then Some(x) else UserWord(s.mem, r, u, j)
      {
        var e' := LeafPte(s.mem, r, u);
        assert LeafPte(mem', r, u) == e';
        if V(e') && U(e') && PteFrame(e') == PteFrame(e) {
          UserFramesDistinct(s.mem, s.role, root, v, r, u);
        }
      }
    }
  }

  /** Right after fork the child reads, in every user page of the copied range, what the parent reads; the parent
      and every other process read what they read before. */
  lemma ForkCopies(s0: Snapshot, s: Snapshot, parent: int, child: int, hi: int, kb: int, limit: int, v: int, k: int)
    requires WellFormed(s0) && WellFormed(s) && Grows(s0, s, child) && Forked(s0, s, parent, child, hi, kb, limit)
    requires IsTable(s0.role, parent, 2) && child !in s0.role && OnlyUserPages(s0.mem, parent, USER_VPN, hi)
    requires USER_VPN <= v < hi <= VPNS && 0 <= k < ENTRIES
    ensures UserWord(s.mem, child, v, k) == UserWord(s0.mem, parent, v, k)
    ensures forall r, u, j :: IsTable(s0.role, r, 2) && 0 <= u < VPNS && 0 <= j < ENTRIES ==>
              UserWord(s.mem, r, u, j) == UserWord(s0.mem, r, u, j)
  {
    assert ClonedPage(s0, s, parent, child, v);
    PteRoundTrip(PteFrame(LeafPte(s.mem, child, v)), USER_RWX);
    forall r, u, j | IsTable(s0.role, r, 2) && 0 <= u < VPNS && 0 <= j < ENTRIES
      ensures UserWord(s.mem, r, u, j) == UserWord(s0.mem, r, u, j)
    {
      assert LeafPte(s.mem, r, u) == LeafPte(s0.mem, r, u);
      if V(LeafPte(s0.mem, r, u)) && U(LeafPte(s0.mem, r, u)) {
        ParentPage(s0, s, r, child, u);
      }
    }
  }

  /** The child's pages of the copied range are frames of its own: distinct from each other and from every frame in
      use before. */
  lemma ForkIsDeep(s0: Snapshot, s: Snapshot, parent: int, child: int, hi: int, kb: int, limit: int, v: int, v': int)
    requires WellFormed(s) && IsTable(s.role, child, 2) && Forked(s0, s, parent, child, hi, kb, limit) && hi <= VPNS
    requires USER_VPN <= v < hi && USER_VPN <= v' < hi && v != v'
    requires V(LeafPte(s0.mem, parent, v)) && V(LeafPte(s0.mem, parent, v'))
    ensures var f, f' := PteFrame(LeafPte(s.mem, child, v)), PteFrame(LeafPte(s.mem, child, v'));
            f != f' && f !in s0.role && f' !in s0.role
  {
    assert ClonedPage(s0, s, parent, child, v) && ClonedPage(s0, s, parent, child, v');
    PteRoundTrip(PteFrame(LeafPte(s.mem, child, v)), USER_RWX);
    PteRoundTrip(PteFrame(LeafPte(s.mem, child, v')), USER_RWX);
    if PteFrame(LeafPte(s.mem, child, v)) == PteFrame(LeafPte(s.mem, child, v')) {
      UserFramesDistinct(s.mem, s.role, child, v, child, v');
    }
  }
}
