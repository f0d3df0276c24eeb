/** Mapping fresh pages into an existing address space; the kernel side of sbrk. */
module HeapGrowth {
  import opened Sv39
  import opened PageTree
  import opened PageMemory
  import opened PageTables
  import opened Teardown
  import opened AddressSpace

  /** Page v is a user page with permissions p, in a frame of its own that was not in use in s0. */
  ghost predicate OwnPage(s0: Snapshot, s: Snapshot, root: int, v: int, p: Perms) {
    var f := PteFrame(LeafPte(s.mem, root, v));
    LeafPte(s.mem, root, v) == MakePte(f, p) && f !in s0.role && f in s.role && s.role[f].User?
  }

  ghost predicate ZeroPage(mem: Memory, f: int) {
    forall k :: 0 <= k < ENTRIES ==> Entry(mem, f, k) == 0
  }

  /** Page u of the address space under root keeps its translation; if it is a user page, also its frame's part
      and contents. */
  ghost predicate KeepsPage(s: Snapshot, s': Snapshot, root: int, u: int) {
    && LeafPte(s'.mem, root, u) == LeafPte(s.mem, root, u)
    && (OwnedBy(LeafPte(s.mem, root, u)) != NONE ==>
          var f := OwnedBy(LeafPte(s.mem, root, u));
          f in s.role && f in s'.role && s'.role[f] == s.role[f] && SameFrame(s'.mem, f, s.mem, f))
  }

  /** All pages outside [lo, hi) are kept. */
  ghost predicate KeepsOutside(s: Snapshot, s': Snapshot, root: int, lo: int, hi: int) {
    forall u {:trigger LeafPte(s'.mem, root, u)} {:trigger LeafPte(s.mem, root, u)} ::
      0 <= u < VPNS && !(lo <= u < hi) ==> KeepsPage(s, s', root, u)
  }

  lemma MapKeepsPages(s: Snapshot, s': Snapshot, root: int, v: int, f: int, p: Perms)
    requires WellFormed(s) && IsTable(s.role, root, 2) && 0 <= v < VPNS
    requires MapsPage(s.mem, s.role, s'.mem, s'.role, root, v, f, p)
    requires p.u ==> f in s.role && s.role[f] == Plain
    ensures KeepsOutside(s, s', root, v, v + 1)
  {
    forall u | 0 <= u < VPNS && u != v ensures KeepsPage(s, s', root, u) {
      var g := OwnedBy(LeafPte(s.mem, root, u));
      if g != NONE {
        WalkStays(s.mem, s.role, root, u);
        assert LeafEntry(s.mem, s.role, LowTable(s.mem, root, u), Px(0, u));
        if OwnedBy(LeafPte(s.mem, root, v)) == g {
          UserFramesDistinct(s.mem, s.role, root, u, root, v);
        }
      }
    }
  }

  lemma KeepsTransitive(s: Snapshot, s1: Snapshot, s2: Snapshot, root: int, lo: int, hi: int)
    requires KeepsOutside(s, s1, root, lo, hi) && KeepsOutside(s1, s2, root, lo, hi)
    ensures KeepsOutside(s, s2, root, lo, hi)
  {
    forall u | 0 <= u < VPNS && !(lo <= u < hi) ensures KeepsPage(s, s2, root, u) {
      assert KeepsPage(s, s1, root, u) && KeepsPage(s1, s2, root, u);
    }
  }

  /** A page that nothing but its own address space can reach is not disturbed by allocating or filling another. */
  lemma DataKeepsPages(s: Snapshot, s': Snapshot, root: int, v: int, f: int)
    requires WellFormed(s) && IsTable(s.role, root, 2) && SameLookups(s.mem, s'.mem, s.role)
    requires f in s.role ==> s.role[f] == Plain
    requires forall g :: g in s.role && g != f ==> g in s'.role && s'.role[g] == s.role[g]
    requires forall g, j {:trigger Entry(s'.mem, g, j)} :: 0 <= j < ENTRIES && g != f ==> Entry(s'.mem, g, j) == Entry(s.mem, g, j)
    ensures KeepsOutside(s, s', root, v, v + 1)
  {
    forall u | 0 <= u < VPNS && u != v ensures KeepsPage(s, s', root, u) {
      if OwnedBy(LeafPte(s.mem, root, u)) != NONE {
        WalkStays(s.mem, s.role, root, u);
        assert LeafEntry(s.mem, s.role, LowTable(s.mem, root, u), Px(0, u));
      }
    }
  }

  /** The states of mapping one fresh page: frame f is allocated and zeroed (s1), then mapped at v (s'). */
  lemma FreshSteps(s0: Snapshot, s: Snapshot, s1: Snapshot, s': Snapshot, root: int, v: int, f: int, p: Perms)
    requires WellFormed(s) && WellFormed(s1) && IsTable(s.role, root, 2) && IsTable(s1.role, root, 2) && 0 <= v < VPNS
    requires f !in s.role && f !in s0.role && s1.role == s.role[f := Plain] && SameLookups(s.mem, s1.mem, s.role) && p.u
    requires forall g, j {:trigger Entry(s1.mem, g, j)} :: 0 <= j < ENTRIES ==> Entry(s1.mem, g, j) == if g == f then 0 else Entry(s.mem, g, j)
    requires MapsPage(s1.mem, s1.role, s'.mem, s'.role, root, v, f, p)
    ensures FreshPage(s0, s', root, v, p) && KeepsOutside(s, s', root, v, v + 1)
  {
    DataKeepsPages(s, s1, root, v, f);
    MapKeepsPages(s1, s', root, v, f, p);
    KeepsTransitive(s, s1, s', root, v, v + 1);
    PteRoundTrip(f, p);
    assert SameFrame(s'.mem, f, s1.mem, f);
  }

  lemma NewToStart(s0: Snapshot, s: Snapshot, root: int, f: int)
    requires Grows(s0, s, root) && f !in s.role
    ensures f !in s0.role
  {
  }

  /** alloc_pages(1) and map_page of one zeroed user page. At or above 2^39 the address would wrap around; this is
      never reached, since no frame is left by then. */
  method MapFresh(ram: PageMemory, root: int, va: int, p: Perms, ghost v: int, ghost s0: Snapshot) returns (ok: bool)
    requires Sound(ram) && Grows(s0, Now(ram), root) && IsTable(ram.role, root, 2)
    requires 0 <= v && va == Addr(v) && p.u && (p.r || p.w || p.x) && (v < VPNS || ram.Available() == 0)
    modifies ram, ram.tracker, ram.tracker.table
    ensures ok ==> v < VPNS && Sound(ram) && Grows(s0, Now(ram), root) && IsTable(ram.role, root, 2)
    ensures ok <==> old(ram.Available()) >= 1 + old(MissingTables(ram.mem, root, v))
    ensures ok ==> ram.Available() == old(ram.Available()) - 1 - old(MissingTables(ram.mem, root, v))
    ensures ok ==> ram.Room() >= old(ram.Room()) - 1 - old(MissingTables(ram.mem, root, v))
    ensures ok ==> MissingTables(ram.mem, root, v) == 0
    ensures ok ==> FreshPage(s0, Now(ram), root, v, p) && KeepsOutside(old(Now(ram)), Now(ram), root, v, v + 1)
  {
    hide Tables, Leaves, Grows, KeepsOutside, FreshPage, MapsPage, MissingTables;
    ghost var s := Now(ram);
    TwoLevels(ram.mem, root, v);
    var page := NewDataPage(ram, s0, root);
    if page.None? {
      return false;
    }
    ghost var s1 := Now(ram);
    FrameOfAddr(page.value);
    FrameOfAddr(v);
    TablesStay(s.mem, s1.mem, s.role, root, v);
    NewToStart(s0, s, root, page.value);
    ok := MapInto(ram, root, va, Addr(page.value), p, s0);
    if ok {
      FreshSteps(s0, s, s1, Now(ram), root, v, page.value, p);
    }
  }

  /** The number of the first page at or above an address. */
  function PageUp(va: int): int { (va + PAGE_SIZE - 1) / PAGE_SIZE }

  /** The frames that mapping fresh pages at [lo, hi) takes at most: the pages, and the tables for them. */
  function PagesCost(lo: int, hi: int): nat { if lo < hi then hi - lo + TableCost(lo, hi) else 0 }

  lemma BelowEnd(end: int, n: int)
    ensures Addr(n) < end <==> n < PageUp(end)
  {
  }

  /** Page v is a fresh zeroed user page with permissions p. */
  ghost predicate FreshPage(s0: Snapshot, s: Snapshot, root: int, v: int, p: Perms) {
    OwnPage(s0, s, root, v, p) && ZeroPage(s.mem, PteFrame(LeafPte(s.mem, root, v)))
  }

  ghost predicate FreshRange(s0: Snapshot, s: Snapshot, root: int, lo: int, hi: int, p: Perms) {
    forall v {:trigger LeafPte(s.mem, root, v)} :: lo <= v < hi ==> FreshPage(s0, s, root, v, p)
  }

  lemma FreshRangeGrows(s0: Snapshot, s: Snapshot, s': Snapshot, root: int, lo: int, n: int, p: Perms)
    requires FreshRange(s0, s, root, lo, n, p) && KeepsOutside(s, s', root, n, n + 1) && 0 <= lo && n < VPNS && p.u && NONE !in s.role
    requires FreshPage(s0, s', root, n, p)
    ensures FreshRange(s0, s', root, lo, n + 1, p)
  {
    forall v | lo <= v < n ensures FreshPage(s0, s', root, v, p) {
      PteRoundTrip(PteFrame(LeafPte(s.mem, root, v)), p);
      assert KeepsPage(s, s', root, v);
    }
  }

  lemma KeepsWiden(s: Snapshot, s1: Snapshot, s2: Snapshot, root: int, lo: int, n: int)
    requires lo <= n && KeepsOutside(s, s1, root, lo, n) && KeepsOutside(s1, s2, root, n, n + 1)
    ensures KeepsOutside(s, s2, root, lo, n + 1)
  {
    forall u | 0 <= u < VPNS && !(lo <= u < n + 1) ensures KeepsPage(s, s2, root, u) {
      assert KeepsPage(s, s1, root, u) && KeepsPage(s1, s2, root, u);
    }
  }

  /** Fresh zeroed pages from the page of start, in turn, until end is reached. */
  method MapFreshRange(ram: PageMemory, root: int, start: int, end: int, p: Perms, ghost lo: int, ghost s0: Snapshot) returns (ok: bool)
    requires Sound(ram) && Grows(s0, Now(ram), root) && IsTable(ram.role, root, 2)
    requires start == Addr(lo) && 0 <= lo && p.u && (p.r || p.w || p.x)
    requires PageUp(end) <= VPNS || ram.Available() <= VPNS - lo
    modifies ram, ram.tracker, ram.tracker.table
    ensures ok ==> Sound(ram) && Grows(s0, Now(ram), root) && IsTable(ram.role, root, 2)
    ensures ok || old(ram.Available()) < PagesCost(lo, PageUp(end))
    ensures ok && lo <= PageUp(end) ==> ram.Available() <= old(ram.Available()) - (PageUp(end) - lo)
    ensures ok ==> ram.Available() >= old(ram.Available()) - PagesCost(lo, PageUp(end)) && ram.Room() >= old(ram.Room()) - PagesCost(lo, PageUp(end))
    ensures ok ==> FreshRange(s0, Now(ram), root, lo, PageUp(end), p)
    ensures ok ==> KeepsOutside(old(Now(ram)), Now(ram), root, lo, PageUp(end))
  {
    ghost var s1 := Now(ram);
    hide Tables, Leaves, Grows, FreshRange, KeepsOutside, TableCost, MissingTables;
    NoTables(lo);
    NothingMoved(s1, root, lo);
    NothingFresh(s0, s1, root, lo, p);
    var va := start;
    ghost var n := lo;
    BelowEnd(end, n);
    while va < end
      invariant va == Addr(n) && lo <= n && (n <= PageUp(end) || n == lo)
      invariant ram.Available() <= old(ram.Available()) - (n - lo)
      invariant (va < end <==> n < PageUp(end))
      invariant ram.Available() >= old(ram.Available()) - (n - lo) - TableCost(lo, n) + Unspent(ram.mem, root, lo, n)
      invariant ram.Room() >= old(ram.Room()) - (n - lo) - TableCost(lo, n) + Unspent(ram.mem, root, lo, n)
      invariant Sound(ram) && Grows(s0, Now(ram), root) && IsTable(ram.role, root, 2)
      invariant FreshRange(s0, Now(ram), root, lo, n, p) && KeepsOutside(s1, Now(ram), root, lo, n)
    {
      ghost var s := Now(ram);
      TablesTurn(s.mem, root, lo, n);
      TwoLevels(s.mem, root, n);
      ok := MapFresh(ram, root, va, p, n, s0);
      if !ok {
        TableCostGrows(lo, n + 1, PageUp(end));
        return;
      }
      FreshRangeGrows(s0, s, Now(ram), root, lo, n, p);
      KeepsWiden(s1, s, Now(ram), root, lo, n);
      va := va + PAGE_SIZE;
      n := n + 1;
      BelowEnd(end, n);
    }
    TablesSpent(ram.mem, root, lo, n, PageUp(end));
    KeepsEmpty(s1, Now(ram), root, lo, n, PageUp(end));
    FreshEmpty(s0, Now(ram), root, lo, n, PageUp(end), p);
    ok := true;
  }

  lemma NothingFresh(s0: Snapshot, s: Snapshot, root: int, lo: int, p: Perms)
    ensures FreshRange(s0, s, root, lo, lo, p)
  {
  }

  lemma FreshEmpty(s0: Snapshot, s: Snapshot, root: int, lo: int, n: int, hi: int, p: Perms)
    requires FreshRange(s0, s, root, lo, n, p) && (n == hi || (n == lo && hi <= lo))
    ensures FreshRange(s0, s, root, lo, hi, p)
  {
  }

  lemma KeepsEmpty(s: Snapshot, s': Snapshot, root: int, lo: int, n: int, hi: int)
    requires KeepsOutside(s, s', root, lo, n) && (n == hi || (n == lo && hi <= lo))
    ensures KeepsOutside(s, s', root, lo, hi)
  {
    forall u | 0 <= u < VPNS && !(lo <= u < hi) ensures KeepsPage(s, s', root, u) {
      assert !(lo <= u < n);
    }
  }

  lemma NothingMoved(s: Snapshot, root: int, lo: int)
    requires WellFormed(s) && IsTable(s.role, root, 2)
    ensures KeepsOutside(s, s, root, lo, lo)
  {
    forall u | 0 <= u < VPNS ensures KeepsPage(s, s, root, u) {
      if OwnedBy(LeafPte(s.mem, root, u)) != NONE {
        WalkStays(s.mem, s.role, root, u);
        assert LeafEntry(s.mem, s.role, LowTable(s.mem, root, u), Px(0, u));
      }
    }
  }
}
