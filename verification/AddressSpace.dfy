/** Building, cloning and growing address spaces. */
module AddressSpace {
  import opened Wrappers
  import opened Sv39
  import opened PageTree
  import opened PageMemory
  import opened PageTables
  import opened Teardown

  /** How memory evolves while the address space under root is built or extended: frames keep their contents and,
      except for user pages that were mapped over, their part; no other tree translates differently. */
  ghost predicate Grows(s0: Snapshot, s: Snapshot, root: int) {
    && (forall f :: f in s0.role ==>
          f in s.role && (s.role[f] == s0.role[f] || (s0.role[f].User? && s.role[f] == Plain)))
    && (forall f, k {:trigger Entry(s.mem, f, k)} :: 0 <= k < ENTRIES && f in s0.role && LevelOf(s0.role[f]) < 0 ==>
          Entry(s.mem, f, k) == Entry(s0.mem, f, k))
    && (forall r, v {:trigger LeafPte(s.mem, r, v)} :: IsTable(s0.role, r, 2) && r != root && 0 <= v < VPNS ==>
          LeafPte(s.mem, r, v) == LeafPte(s0.mem, r, v))
    && (forall f :: f in s.role && f !in s0.role ==> s.role[f] == Root ==> f == root)
    && Charged(s0.owned, s.owned, s0.role.Keys, s.pid)
    && s.pid == s0.pid
  }

  lemma GrowsByMap(s0: Snapshot, s: Snapshot, s': Snapshot, root: int, v: int, f: int, p: Perms)
    requires Grows(s0, s, root) && MapsPage(s.mem, s.role, s'.mem, s'.role, root, v, f, p) && 0 <= v < VPNS
    requires WellFormed(s) && WellFormed(s') && IsTable(s.role, root, 2)
    requires Charged(s.owned, s'.owned, s.role.Keys, s'.pid) && s'.pid == s.pid
    requires p.u ==> f !in s0.role
    ensures Grows(s0, s', root) && IsTable(s'.role, root, 2)
  {
    forall h | h in s0.role ensures h in s'.role && (s'.role[h] == s0.role[h] || (s0.role[h].User? && s'.role[h] == Plain)) {
      assert h in s.role;
    }
    forall r, u | IsTable(s0.role, r, 2) && r != root && 0 <= u < VPNS ensures LeafPte(s'.mem, r, u) == LeafPte(s0.mem, r, u) {
      assert LeafPte(s.mem, r, u) == LeafPte(s0.mem, r, u);
    }
  }

  // ---------------------------------------------------------------- pages that no tree uses yet

  /** Words outside the page tables do not matter to any tree. */
  lemma DataWrite(mem: Memory, mem': Memory, role: Roles)
    requires Tables(mem, role) && Leaves(mem, role)
    requires forall g, j {:trigger Entry(mem', g, j)} :: 0 <= j < ENTRIES && g in role && LevelOf(role[g]) >= 0 ==>
               Entry(mem', g, j) == Entry(mem, g, j)
    ensures Tables(mem', role) && Leaves(mem', role) && SameLookups(mem, mem', role)
  {
    TreeFrame(mem, mem', role, role);
    forall t, k | IsTable(role, t, 0) && 0 <= k < ENTRIES ensures LeafEntry(mem', role, t, k) {
      assert LeafEntry(mem, role, t, k);
    }
    forall f | f in role && role[f].User? ensures HasLeaf(mem', role, f) {
      assert HasLeaf(mem, role, f);
    }
  }

  /** A fresh zeroed frame disturbs nothing, as a data page or as the root of an empty tree. */
  lemma FreshFrame(mem: Memory, role: Roles, f: int, r: Role)
    requires Tables(mem, role) && Leaves(mem, role) && 0 < f && f !in role && (r == Plain || r == Root)
    ensures var mem', role' := ZeroFrames(mem, f, f + 1), role[f := r];
            Tables(mem', role') && Leaves(mem', role') && SameLookups(mem, mem', role)
            && (forall v :: r == Root ==> LeafPte(mem', f, v) == 0)
  {
    var mem', role' := ZeroFrames(mem, f, f + 1), role[f := r];
    forall u, j | IsBranch(role', u) && 0 <= j < ENTRIES ensures BranchEntry(mem', role', u, j) {
      if u != f { assert BranchEntry(mem, role, u, j); }
    }
    forall c | c in role' && (role'[c].Mid? || role'[c].Low?) ensures HasParent(mem', role', c) {
      assert HasParent(mem, role, c);
    }
    forall t, k | IsTable(role', t, 0) && 0 <= k < ENTRIES ensures LeafEntry(mem', role', t, k) {
      assert LeafEntry(mem, role, t, k);
    }
    forall g | g in role' && role'[g].User? ensures HasLeaf(mem', role', g) {
      assert HasLeaf(mem, role, g);
    }
    forall q, v | IsTable(role, q, 2) ensures LeafPte(mem', q, v) == LeafPte(mem, q, v) {
      WalkStays(mem, role, q, v);
    }
  }

  lemma GrowsByAlloc(s0: Snapshot, s: Snapshot, s': Snapshot, root: int, f: int, r: Role)
    requires Grows(s0, s, root) && WellFormed(s) && 0 < f && f !in s.role && (r == Plain || (r == Root && f == root))
    requires s'.mem == ZeroFrames(s.mem, f, f + 1) && s'.role == s.role[f := r] && s'.pid == s.pid
    requires s.owned.Keys <= s.role.Keys && (s'.owned == s.owned || s'.owned == s.owned[f := s.pid])
    ensures Grows(s0, s', root) && WellFormed(s') && SameLookups(s.mem, s'.mem, s.role)
  {
    FreshFrame(s.mem, s.role, f, r);
    forall q, u | IsTable(s0.role, q, 2) && q != root && 0 <= u < VPNS ensures LeafPte(s'.mem, q, u) == LeafPte(s0.mem, q, u) {
      assert LeafPte(s.mem, q, u) == LeafPte(s0.mem, q, u);
    }
  }

  lemma GrowsByWrite(s0: Snapshot, s: Snapshot, s': Snapshot, root: int, f: int)
    requires Grows(s0, s, root) && WellFormed(s) && f in s.role && LevelOf(s.role[f]) < 0 && f !in s0.role
    requires s' == s.(mem := s'.mem)
    requires forall g, j {:trigger Entry(s'.mem, g, j)} :: 0 <= j < ENTRIES && g != f ==> Entry(s'.mem, g, j) == Entry(s.mem, g, j)
    ensures Grows(s0, s', root) && WellFormed(s') && SameLookups(s.mem, s'.mem, s.role)
  {
    DataWrite(s.mem, s'.mem, s.role);
    forall q, u | IsTable(s0.role, q, 2) && q != root && 0 <= u < VPNS ensures LeafPte(s'.mem, q, u) == LeafPte(s0.mem, q, u) {
      assert LeafPte(s.mem, q, u) == LeafPte(s0.mem, q, u);
    }
  }

  /** alloc_pages(1) for a root page table: an empty address space. */
  method NewPageTable(ram: PageMemory) returns (r: Option<int>)
    requires Sound(ram)
    modifies ram, ram.tracker, ram.tracker.table
    ensures r.None? <==> old(ram.Available()) == 0
    ensures r.Some? ==> ram.Available() == old(ram.Available()) - 1 && ram.Room() >= old(ram.Room()) - 1
    ensures r.Some? ==>
              && Sound(ram) && r.value !in old(ram.role) && IsTable(ram.role, r.value, 2)
              && (forall v :: LeafPte(ram.mem, r.value, v) == 0)
              && Grows(old(Now(ram)), Now(ram), r.value)
  {
    ghost var s0 := Now(ram);
    r := ram.AllocPage();
    if r.Some? {
      ram.SetRole(ram.role[r.value := Root]);
      FreshFrame(s0.mem, s0.role, r.value, Root);
      assert ram.role == s0.role[r.value := Root];
      GrowsByAlloc(s0, s0, Now(ram), r.value, r.value, Root);
    }
  }

  /** alloc_pages(1) for a data page, in the middle of building the address space under root. */
  method NewDataPage(ram: PageMemory, ghost s0: Snapshot, ghost root: int) returns (r: Option<int>)
    requires Sound(ram) && Grows(s0, Now(ram), root) && IsTable(ram.role, root, 2)
    modifies ram, ram.tracker, ram.tracker.table
    ensures r.None? <==> old(ram.Available()) == 0
    ensures r.Some? ==> ram.Available() == old(ram.Available()) - 1 && ram.Room() >= old(ram.Room()) - 1
    ensures r.Some? ==>
              && Sound(ram) && Grows(s0, Now(ram), root) && IsTable(ram.role, root, 2)
              && r.value !in old(ram.role) && r.value < ram.limit && ram.role == old(ram.role)[r.value := Plain]
              && (forall g, j {:trigger Entry(ram.mem, g, j)} :: 0 <= j < ENTRIES ==>
                    Entry(ram.mem, g, j) == if g == r.value then 0 else Entry(old(ram.mem), g, j))
              && SameLookups(old(ram.mem), ram.mem, old(ram.role))
  {
    ghost var s := Now(ram);
    r := ram.AllocPage();
    if r.Some? {
      GrowsByAlloc(s0, s, Now(ram), root, r.value, Plain);
    }
  }

  /** memcpy(dst, src, PAGE_SIZE) between two frames, dst being in use. */
  method CopyPage(ram: PageMemory, dst: int, src: int)
    requires ram.Valid() && dst in ram.role
    modifies ram`mem
    ensures ram.Valid()
    ensures ram.mem == CopyWords(old(ram.mem), dst, src, ENTRIES)
  {
    for i := 0 to ENTRIES
      invariant ram.Valid() && ram.mem == CopyWords(old(ram.mem), dst, src, i)
    {
      ram.StoreWord(dst, i, Entry(ram.mem, src, i));
    }
  }

  /** Allocating a frame and filling it leaves the tables alone. */
  lemma CopyKeepsTables(mem: Memory, mem1: Memory, role: Roles, root: int, v: int, f: int, src: int)
    requires Tables(mem, role) && IsTable(role, root, 2) && f !in role
    requires forall g, j {:trigger Entry(mem1, g, j)} :: 0 <= j < ENTRIES && g != f ==> Entry(mem1, g, j) == Entry(mem, g, j)
    ensures MissingTables(CopyWords(mem1, f, src, ENTRIES), root, v) == MissingTables(mem, root, v)
  {
    TablesStay(mem, CopyWords(mem1, f, src, ENTRIES), role, root, v);
  }

  // ---------------------------------------------------------------- mapping loops

  /** map_page inside a loop that builds the address space under root. */
  method MapInto(ram: PageMemory, root: int, va: int, pa: int, p: Perms, ghost s0: Snapshot) returns (ok: bool)
    requires Sound(ram) && Grows(s0, Now(ram), root) && IsTable(ram.role, root, 2)
    requires 0 <= va < MAXVA && va % PAGE_SIZE == 0 && 0 < pa < WORD_LIMIT && pa % PAGE_SIZE == 0
    requires p.r || p.w || p.x
    requires p.u ==> pa / PAGE_SIZE !in s0.role && pa / PAGE_SIZE in ram.role && ram.role[pa / PAGE_SIZE] == Plain
    modifies ram, ram.tracker, ram.tracker.table
    ensures ok <==> old(ram.Available()) >= old(MissingTables(ram.mem, root, va / PAGE_SIZE))
    ensures ok ==> ram.Available() == old(ram.Available()) - old(MissingTables(ram.mem, root, va / PAGE_SIZE))
    ensures ok ==> ram.Room() >= old(ram.Room()) - old(MissingTables(ram.mem, root, va / PAGE_SIZE))
    ensures ok ==> MissingTables(ram.mem, root, va / PAGE_SIZE) == 0
    ensures ok ==> Sound(ram) && Grows(s0, Now(ram), root) && IsTable(ram.role, root, 2)
    ensures ok ==> MapsPage(old(ram.mem), old(ram.role), ram.mem, ram.role, root, va / PAGE_SIZE, pa / PAGE_SIZE, p)
  {
    ghost var s := Now(ram);
    assert Key(va) == va / PAGE_SIZE;
    ok := MapPage(ram, root, va, pa, p);
    if ok {
      GrowsByMap(s0, s, Now(ram), root, va / PAGE_SIZE, pa / PAGE_SIZE, p);
      PteRoundTrip(pa / PAGE_SIZE, p);
      MappedHasTables(ram.mem, root, va / PAGE_SIZE);
    }
  }

  /** The pages [lo, n) of the tree map the frames shift further up with permissions p, all other pages map what they
      map in mem0. */
  ghost predicate Linear(mem0: Memory, mem: Memory, root: int, lo: int, n: int, shift: int, p: Perms) {
    forall v :: 0 <= v < VPNS ==> LeafPte(mem, root, v) == if lo <= v < n then MakePte(v + shift, p) else LeafPte(mem0, root, v)
  }

  lemma LinearStart(mem: Memory, root: int, lo: int, shift: int, p: Perms)
    ensures Linear(mem, mem, root, lo, lo, shift, p) && TableCost(lo, lo) == 0
  {
  }

  lemma LinearTurn(mem0: Memory, mem: Memory, role: Roles, mem': Memory, role': Roles, root: int, lo: int, n: int, shift: int, p: Perms)
    requires Linear(mem0, mem, root, lo, n, shift, p) && lo <= n && IsTable(role, root, 2)
    requires MapsPage(mem, role, mem', role', root, n, n + shift, p)
    ensures Linear(mem0, mem', root, lo, n + 1, shift, p)
  {
    hide LeafPte, MakePte, RolesStep, Leaves;
  }

  lemma LinearEnd(mem0: Memory, mem: Memory, root: int, lo: int, n: int, end: int, shift: int, p: Perms)
    requires Linear(mem0, mem, root, lo, n, shift, p) && (n == end || (n == lo && end <= lo))
    ensures Linear(mem0, mem, root, lo, end, shift, p)
    ensures TableCost(lo, n) - Unspent(mem, root, lo, n) <= TableCost(lo, end)
  {
    TablesSpent(mem, root, lo, n, end);
  }

  /** The kernel's own pages, [kb, end) as frames, are mapped at their physical addresses. */
  method MapKernel(ram: PageMemory, root: int, kb: int, end: int, ghost s0: Snapshot) returns (ok: bool)
    requires Sound(ram) && Grows(s0, Now(ram), root) && IsTable(ram.role, root, 2)
    requires 0 < kb && end <= VPNS
    modifies ram, ram.tracker, ram.tracker.table
    ensures ok ==> Sound(ram) && Grows(s0, Now(ram), root) && IsTable(ram.role, root, 2)
    ensures ok || old(ram.Available()) < TableCost(kb, end)
    ensures ok ==> ram.Available() >= old(ram.Available()) - TableCost(kb, end) && ram.Room() >= old(ram.Room()) - TableCost(kb, end)
    ensures ok ==> Linear(old(ram.mem), ram.mem, root, kb, end, 0, KERNEL_RWX)
  {
    hide Tables, Leaves, Grows, TableCost, MissingTables, MapsPage, Linear;
    var pa := Addr(kb);
    ghost var n := kb;
    LinearStart(ram.mem, root, kb, 0, KERNEL_RWX);
    while pa < Addr(end)
      invariant pa == Addr(n) && kb <= n && (n <= end || n == kb)
      invariant ram.Available() >= old(ram.Available()) - TableCost(kb, n) + Unspent(ram.mem, root, kb, n)
      invariant ram.Room() >= old(ram.Room()) - TableCost(kb, n) + Unspent(ram.mem, root, kb, n)
      invariant Sound(ram) && Grows(s0, Now(ram), root) && IsTable(ram.role, root, 2)
      invariant Linear(old(ram.mem), ram.mem, root, kb, n, 0, KERNEL_RWX)
    {
      FrameOfAddr(n);
      ghost var mem, role := ram.mem, ram.role;
      TablesTurn(mem, root, kb, n);
      ok := MapInto(ram, root, pa, pa, KERNEL_RWX, s0);
      if !ok {
        TableCostGrows(kb, n + 1, end);
        return;
      }
      LinearTurn(old(ram.mem), mem, role, ram.mem, ram.role, root, kb, n, 0, KERNEL_RWX);
      pa := pa + PAGE_SIZE;
      n := n + 1;
    }
    LinearEnd(old(ram.mem), ram.mem, root, kb, n, end, 0, KERNEL_RWX);
    ok := true;
  }

  /** map_mmio_range for n pages of device registers: page va + i maps frame pa + i, both given as page numbers here. */
  method MapMmioRange(ram: PageMemory, root: int, pa: int, va: int, n: nat, p: Perms, ghost s0: Snapshot) returns (ok: bool)
    requires Sound(ram) && Grows(s0, Now(ram), root) && IsTable(ram.role, root, 2)
    requires 0 <= va && va + n <= VPNS && 0 < pa && pa + n <= VPNS && !p.u && (p.r || p.w || p.x)
    modifies ram, ram.tracker, ram.tracker.table
    ensures ok ==> Sound(ram) && Grows(s0, Now(ram), root) && IsTable(ram.role, root, 2)
    ensures ok || old(ram.Available()) < TableCost(va, va + n)
    ensures ok ==> ram.Available() >= old(ram.Available()) - TableCost(va, va + n) && ram.Room() >= old(ram.Room()) - TableCost(va, va + n)
    ensures ok ==> Linear(old(ram.mem), ram.mem, root, va, va + n, pa - va, p)
  {
    hide Tables, Leaves, Grows, TableCost, MissingTables, MapsPage, Linear;
    var offset := 0;
    ghost var i := 0;
    LinearStart(ram.mem, root, va, pa - va, p);
    while offset < n * PAGE_SIZE
      invariant offset == i * PAGE_SIZE && 0 <= i <= n
      invariant ram.Available() >= old(ram.Available()) - TableCost(va, va + i) + Unspent(ram.mem, root, va, va + i)
      invariant ram.Room() >= old(ram.Room()) - TableCost(va, va + i) + Unspent(ram.mem, root, va, va + i)
      invariant Sound(ram) && Grows(s0, Now(ram), root) && IsTable(ram.role, root, 2)
      invariant Linear(old(ram.mem), ram.mem, root, va, va + i, pa - va, p)
    {
      FrameOfAddr(va + i);
      FrameOfAddr(pa + i);
      ghost var mem, role := ram.mem, ram.role;
      TablesTurn(mem, root, va, va + i);
      ok := MapInto(ram, root, Addr(va) + offset, Addr(pa) + offset, p, s0);
      if !ok {
        TableCostGrows(va, va + i + 1, va + n);
        return;
      }
      LinearTurn(old(ram.mem), mem, role, ram.mem, ram.role, root, va, va + i, pa - va, p);
      offset := offset + PAGE_SIZE;
      i := i + 1;
    }
    LinearEnd(old(ram.mem), ram.mem, root, va, va + i, va + n, pa - va, p);
    ok := true;
  }
}
