/** Building and walking Sv39 page tables in physical memory. */
module PageTables {
  import opened Wrappers
  import opened Sv39
  import opened PageTree
  import opened PageMemory

  const WORD_LIMIT := 0x1_0000_0000_0000_0000

  ghost predicate Ready(ram: PageMemory)
    reads ram, ram.tracker, ram.tracker.table
  {
    ram.Valid() && Tables(ram.mem, ram.role)
  }

  /** Every tree translates exactly as before. */
  ghost predicate SameLookups(mem: Memory, mem': Memory, role: Roles) {
    forall r, v {:trigger LeafPte(mem', r, v)} :: IsTable(role, r, 2) ==> LeafPte(mem', r, v) == LeafPte(mem, r, v)
  }

  /** New tracker records concern frames that were not in use, and are charged to pid. */
  ghost predicate Charged(owned: map<int, int>, owned': map<int, int>, used: set<int>, pid: int) {
    && owned.Keys <= owned'.Keys
    && forall g :: g in owned' ==> if g in owned then owned'[g] == owned[g] else g !in used && owned'[g] == pid
  }

  /** Entry k of branch table t now points to table c, which is fresh unless c was in use; nothing that any
      walk or any frame in use can see has changed otherwise. */
  ghost predicate Extends(mem: Memory, role: Roles, mem': Memory, role': Roles, t: int, k: int, c: int)
    requires t in role && 0 <= k < ENTRIES
  {
    && V(Entry(mem', t, k)) && c == PteFrame(Entry(mem', t, k))
    && role' == (if c in role then role else role[c := ChildRole(role, t, k)])
    && c in role' && role'[c] == ChildRole(role, t, k)
    && SameLookups(mem, mem', role)
    && (forall g, j {:trigger Entry(mem', g, j)} :: 0 <= j < ENTRIES && g in role && (g != t || j != k) ==>
          Entry(mem', g, j) == Entry(mem, g, j))
    && (Leaves(mem, role) ==> Leaves(mem', role'))
  }

  lemma AddTable(mem: Memory, role: Roles, t: int, k: int, c: int)
    requires Tables(mem, role) && IsBranch(role, t) && 0 <= k < ENTRIES
    requires 0 < c && c !in role && !V(Entry(mem, t, k))
    ensures var mem', role' := WithTable(mem, t, k, c), role[c := ChildRole(role, t, k)];
            Tables(mem', role') && Extends(mem, role, mem', role', t, k, c)
  {
    AddTableShape(mem, role, t, k, c);
    forall r, v | IsTable(role, r, 2) ensures LeafPte(WithTable(mem, t, k, c), r, v) == LeafPte(mem, r, v) {
      AddTableLookups(mem, role, t, k, c, r, v);
    }
    if Leaves(mem, role) { AddTableLeaves(mem, role, t, k, c); }
    PteRoundTrip(c, NO_PERMS);
  }

  lemma TablePresent(mem: Memory, role: Roles, t: int, k: int)
    requires Tables(mem, role) && IsBranch(role, t) && 0 <= k < ENTRIES && V(Entry(mem, t, k))
    ensures Extends(mem, role, mem, role, t, k, PteFrame(Entry(mem, t, k)))
  {
  }

  ghost predicate EmptyTable(mem: Memory, t: int) {
    forall k :: 0 <= k < ENTRIES ==> Entry(mem, t, k) == 0
  }

  /** Hangs a fresh zeroed table under entry k of table t. */
  method HangTable(ram: PageMemory, t: int, k: int) returns (c: Option<int>)
    requires Ready(ram) && IsBranch(ram.role, t) && 0 <= k < ENTRIES && !V(Entry(ram.mem, t, k))
    modifies ram, ram.tracker, ram.tracker.table
    ensures c.None? <==> old(ram.Available()) == 0
    ensures c.Some? ==>
              && Ready(ram)
              && Extends(old(ram.mem), old(ram.role), ram.mem, ram.role, t, k, c.value)
              && Charged(old(ram.tracker.owned), ram.tracker.owned, old(ram.role.Keys), ram.currentPid)
              && ram.currentPid == old(ram.currentPid)
              && ram.Available() == old(ram.Available()) - 1 && ram.Room() >= old(ram.Room()) - 1
              && EmptyTable(ram.mem, c.value)
  {
    c := ram.AllocPage();
    if c.Some? {
      var f := c.value;
      AddTable(old(ram.mem), old(ram.role), t, k, f);
      ram.StoreWord(t, k, MakePte(f, NO_PERMS));
      ram.SetRole(ram.role[f := ChildRole(ram.role, t, k)]);
      assert ram.role == old(ram.role)[f := old(ChildRole(ram.role, t, k))];
    }
  }

  /** The step map_page takes at levels 2 and 1: follow entry k of table t, hanging a fresh zeroed table under
      it first when it is not valid. None stands for PANIC("out of memory"). */
  method NextTable(ram: PageMemory, t: int, k: int) returns (c: Option<int>)
    requires Ready(ram) && IsBranch(ram.role, t) && 0 <= k < ENTRIES
    modifies ram, ram.tracker, ram.tracker.table
    ensures c.None? <==> !old(V(Entry(ram.mem, t, k))) && old(ram.Available()) == 0
    ensures c.Some? ==>
              && Ready(ram)
              && Extends(old(ram.mem), old(ram.role), ram.mem, ram.role, t, k, c.value)
              && Charged(old(ram.tracker.owned), ram.tracker.owned, old(ram.role.Keys), ram.currentPid)
              && ram.currentPid == old(ram.currentPid)
              && (if old(V(Entry(ram.mem, t, k))) then ram.mem == old(ram.mem) && ram.Available() == old(ram.Available()) && ram.Room() == old(ram.Room())
                  else EmptyTable(ram.mem, c.value) && ram.Available() == old(ram.Available()) - 1 && ram.Room() >= old(ram.Room()) - 1)
  {
    if !V(Entry(ram.mem, t, k)) {
      c := HangTable(ram, t, k);
    } else {
      TablePresent(ram.mem, ram.role, t, k);
      c := Some(PteFrame(Entry(ram.mem, t, k)));
    }
  }

  // ---------------------------------------------------------------- map_page

  /** The frame a leaf entry owns: that of a valid user entry. */
  function OwnedBy(e: int): int { if V(e) && U(e) then PteFrame(e) else NONE }

  /** How mapping frame f with permissions p over the old leaf entry e may change the roles: new frames are page
      tables, tables keep their place, and only the old and the new user page can change hands. */
  ghost predicate RolesStep(role: Roles, role': Roles, e: int, f: int, p: Perms) {
    && role.Keys <= role'.Keys
    && (forall g :: g in role' && g !in role ==> role'[g].Mid? || role'[g].Low?)
    && (forall g :: g in role && (LevelOf(role[g]) >= 0 || LevelOf(role'[g]) >= 0) ==> role'[g] == role[g])
    && (forall g :: g in role && g != OwnedBy(e) && !(p.u && g == f) ==> role'[g] == role[g])
    && (p.u && f in role && role[f] == Plain ==> role'[f].User?)
  }

  /** The effect of mapping page v of the tree under root to frame f: one translation of one tree is set, and the
      words of every frame in use that is not a page table stay. */
  ghost predicate MapsPage(mem: Memory, role: Roles, mem': Memory, role': Roles, root: int, v: int, f: int, p: Perms) {
    && (forall r, u {:trigger LeafPte(mem', r, u)} :: IsTable(role, r, 2) && 0 <= u < VPNS ==>
          LeafPte(mem', r, u) == if r == root && u == v then MakePte(f, p) else LeafPte(mem, r, u))
    && RolesStep(role, role', LeafPte(mem, root, v), f, p)
    && (forall g, j {:trigger Entry(mem', g, j)} :: 0 <= j < ENTRIES && g in role && LevelOf(role[g]) < 0 ==>
          Entry(mem', g, j) == Entry(mem, g, j))
    && (Leaves(mem, role) && 0 < f && (p.r || p.w || p.x) && (p.u ==> f in role && role[f] == Plain) ==> Leaves(mem', role'))
    && (Leaves(mem, role) ==>
          var g := OwnedBy(LeafPte(mem, root, v));
          g != NONE && !(p.u && g == f) ==> g in role && role[g].User? && g in role' && role'[g] == Plain)
  }

  /** When only the leaf entry of page v differs, only that key of the finite map differs. */
  lemma OneTranslation(mem: Memory, mem': Memory, r: int, v: int, e: int)
    requires 0 <= v < VPNS
    requires forall u {:trigger LeafPte(mem', r, u)} :: 0 <= u < VPNS ==> LeafPte(mem', r, u) == if u == v then e else LeafPte(mem, r, u)
    ensures Translations(mem', r) ==
              if V(e) then Translations(mem, r)[v := Leaf(PteFrame(e), PtePerms(e))] else Translations(mem, r) - {v}
    ensures e == LeafPte(mem, r, v) ==> Translations(mem', r) == Translations(mem, r)
  {
    hide LeafPte, PtePerms, PteFrame, V;
    var m, m' := Translations(mem, r), Translations(mem', r);
    assert LeafPte(mem', r, v) == e;
    forall u | 0 <= u < VPNS && u != v ensures u in m' <==> u in m {
      assert LeafPte(mem', r, u) == LeafPte(mem, r, u);
    }
    forall u | u in m' && u != v ensures m'[u] == m[u] {
      assert LeafPte(mem', r, u) == LeafPte(mem, r, u);
    }
  }

  /** map_page refines the update of one key of a finite map. */
  lemma MapRefines(mem: Memory, role: Roles, mem': Memory, role': Roles, root: int, v: int, f: int, p: Perms, r: int)
    requires MapsPage(mem, role, mem', role', root, v, f, p)
    requires IsTable(role, root, 2) && IsTable(role, r, 2) && 0 <= v < VPNS
    ensures Translations(mem', r) == if r == root then Translations(mem, r)[v := Leaf(f, p)] else Translations(mem, r)
  {
    PteRoundTrip(f, p);
    OneTranslation(mem, mem', r, v, if r == root then MakePte(f, p) else LeafPte(mem, r, v));
  }

  lemma SetLeafLeaves(mem: Memory, role: Roles, t: int, k: int, f: int, p: Perms)
    requires Tables(mem, role) && IsTable(role, t, 0) && 0 <= k < ENTRIES && Leaves(mem, role)
    ensures var mem', role' := Store(mem, t, k, MakePte(f, p)), Claim(Release(role, Entry(mem, t, k), t, k), f, p, t, k);
            var g := OwnedBy(Entry(mem, t, k));
            && (0 < f && (p.r || p.w || p.x) && (p.u ==> f in role && role[f] == Plain) ==> Leaves(mem', role'))
            && (g != NONE && !(p.u && g == f) ==> g in role && role[g].User? && g in role' && role'[g] == Plain)
  {
    assert LeafEntry(mem, role, t, k);
    if 0 < f && (p.r || p.w || p.x) && (p.u ==> f in role && role[f] == Plain) {
      SetLeafOwners(mem, role, t, k, f, p);
    }
  }

  lemma SetLeafRoles(mem: Memory, role: Roles, t: int, k: int, f: int, p: Perms)
    requires IsTable(role, t, 0) && 0 <= k < ENTRIES
    ensures var role' := Claim(Release(role, Entry(mem, t, k), t, k), f, p, t, k);
            SameTables(role, role') && RolesStep(role, role', Entry(mem, t, k), f, p)
  {
  }

  lemma SetLeafSeen(mem: Memory, role: Roles, root: int, v: int, e: int)
    requires Tables(mem, role) && IsTable(role, root, 2) && 0 <= v < VPNS && LowTable(mem, root, v) != NONE
    ensures IsTable(role, LowTable(mem, root, v), 0)
    ensures var mem' := Store(mem, LowTable(mem, root, v), Px(0, v), e);
            && (forall r, u {:trigger LeafPte(mem', r, u)} :: IsTable(role, r, 2) && 0 <= u < VPNS ==>
                  LeafPte(mem', r, u) == if r == root && u == v then e else LeafPte(mem, r, u))
            && (forall g, j {:trigger Entry(mem', g, j)} :: 0 <= j < ENTRIES && g in role && LevelOf(role[g]) < 0 ==>
                  Entry(mem', g, j) == Entry(mem, g, j))
  {
    WalkStays(mem, role, root, v);
    var mem' := Store(mem, LowTable(mem, root, v), Px(0, v), e);
    forall r, u | IsTable(role, r, 2) && 0 <= u < VPNS
      ensures LeafPte(mem', r, u) == if r == root && u == v then e else LeafPte(mem, r, u)
    {
      SetLeafLookups(mem, role, root, v, e, r, u);
    }
  }

  lemma SetLeafMaps(mem: Memory, role: Roles, root: int, v: int, f: int, p: Perms)
    requires Tables(mem, role) && IsTable(role, root, 2) && 0 <= v < VPNS && LowTable(mem, root, v) != NONE
    ensures var t, k := LowTable(mem, root, v), Px(0, v);
            var mem', role' := Store(mem, t, k, MakePte(f, p)), Claim(Release(role, Entry(mem, t, k), t, k), f, p, t, k);
            IsTable(role, t, 0) && SameTables(role, role') && Tables(mem', role') && MapsPage(mem, role, mem', role', root, v, f, p)
  {
    hide Tables, Leaves, SameTables, RolesStep, Release, Claim, MakePte, Store, LowTable;
    var t, k := LowTable(mem, root, v), Px(0, v);
    SetLeafSeen(mem, role, root, v, MakePte(f, p));
    SetLeafRoles(mem, role, t, k, f, p);
    SetLeafShape(mem, role, Claim(Release(role, Entry(mem, t, k), t, k), f, p, t, k), t, k, MakePte(f, p));
    if Leaves(mem, role) { SetLeafLeaves(mem, role, t, k, f, p); }
  }

  /** Page tables were added, and nothing that a walk or a frame in use can see has changed otherwise. */
  ghost predicate TablesAdded(mem: Memory, role: Roles, mem': Memory, role': Roles) {
    && SameLookups(mem, mem', role)
    && role.Keys <= role'.Keys
    && (forall g :: g in role' ==> if g in role then role'[g] == role[g] else role'[g].Mid? || role'[g].Low?)
    && (forall g, j {:trigger Entry(mem', g, j)} :: 0 <= j < ENTRIES && g in role && LevelOf(role[g]) < 0 ==>
          Entry(mem', g, j) == Entry(mem, g, j))
    && (Leaves(mem, role) ==> Leaves(mem', role'))
  }

  lemma TwoExtends(mem0: Memory, role0: Roles, mem1: Memory, role1: Roles, mem2: Memory, role2: Roles, root: int, i: int, t1: int, j: int, t0: int)
    requires IsBranch(role0, root) && 0 <= i < ENTRIES && 0 <= j < ENTRIES
    requires Extends(mem0, role0, mem1, role1, root, i, t1) && IsBranch(role1, t1)
    requires Extends(mem1, role1, mem2, role2, t1, j, t0)
    ensures TablesAdded(mem0, role0, mem2, role2)
  {
  }

  /** Making the tables and then writing the leaf has the effect of mapping the page in the state at the start. */
  lemma MapAfterTables(mem0: Memory, role0: Roles, mem2: Memory, role2: Roles, mem': Memory, role': Roles, root: int, v: int, f: int, p: Perms)
    requires IsTable(role0, root, 2) && 0 <= v < VPNS
    requires TablesAdded(mem0, role0, mem2, role2) && MapsPage(mem2, role2, mem', role', root, v, f, p)
    ensures MapsPage(mem0, role0, mem', role', root, v, f, p)
  {
    assert LeafPte(mem2, root, v) == LeafPte(mem0, root, v);
    forall r, u | IsTable(role0, r, 2) && 0 <= u < VPNS
      ensures LeafPte(mem', r, u) == if r == root && u == v then MakePte(f, p) else LeafPte(mem0, r, u)
    {
      assert LeafPte(mem2, r, u) == LeafPte(mem0, r, u);
    }
    forall g, j | 0 <= j < ENTRIES && g in role0 && LevelOf(role0[g]) < 0 ensures Entry(mem', g, j) == Entry(mem0, g, j) {
      assert Entry(mem2, g, j) == Entry(mem0, g, j);
    }
  }

  lemma ExtendsReach(mem1: Memory, role1: Roles, mem2: Memory, role2: Roles, root: int, v: int, t1: int, t0: int)
    requires IsTable(role1, root, 2) && V(Entry(mem1, root, Px(2, v))) && t1 == PteFrame(Entry(mem1, root, Px(2, v)))
    requires IsTable(role1, t1, 1) && 0 < t1 && 0 < root
    requires Extends(mem1, role1, mem2, role2, t1, Px(1, v), t0)
    ensures LowTable(mem2, root, v) == t0
  {
  }

  /** The last step of map_page: the leaf entry is written, whatever it held before. */
  method SetLeaf(ram: PageMemory, t: int, ghost root: int, ghost v: int, k: int, f: int, p: Perms)
    requires Ready(ram) && IsTable(ram.role, root, 2) && 0 <= v < VPNS
    requires t == LowTable(ram.mem, root, v) != NONE && k == Px(0, v)
    modifies ram`mem, ram`role
    ensures Ready(ram) && MapsPage(old(ram.mem), old(ram.role), ram.mem, ram.role, root, v, f, p)
    ensures ram.role.Keys == old(ram.role.Keys)
  {
    SetLeafMaps(ram.mem, ram.role, root, v, f, p);
    ghost var role' := Claim(Release(ram.role, Entry(ram.mem, t, k), t, k), f, p, t, k);
    ram.StoreWord(t, k, MakePte(f, p));
    ram.SetRole(role');
  }

  /** How many tables are missing on the way to page v. */
  function MissingTables(mem: Memory, root: int, v: int): int {
    if MidTable(mem, root, v) == NONE then 2 else if LowTable(mem, root, v) == NONE then 1 else 0
  }

  /** How many tables mapping pages of [lo, hi) takes at most: a low table for each block of 512 pages that the range
      meets, and a middle table for each block of 512 * 512. */
  function TableCost(lo: int, hi: int): nat {
    if lo < hi then (hi - 1) / 512 - lo / 512 + 1 + (hi - 1) / 512 / 512 - lo / 512 / 512 + 1 else 0
  }

  /** Of the tables that TableCost counts for [lo, n), those still missing on the way to the last page. */
  function Unspent(mem: Memory, root: int, lo: int, n: int): int {
    if lo < n then MissingTables(mem, root, n - 1) else 0
  }

  lemma TableCostGrows(lo: int, n: int, hi: int)
    requires n <= hi
    ensures TableCost(lo, n) <= TableCost(lo, hi)
  {
  }

  lemma NoTables(lo: int)
    ensures TableCost(lo, lo) == 0
  {
  }

  /** At the end of a loop over [lo, hi), which does nothing when the range is empty. */
  lemma TablesSpent(mem: Memory, root: int, lo: int, n: int, hi: int)
    requires n == hi || (n == lo && hi <= lo)
    ensures TableCost(lo, n) - Unspent(mem, root, lo, n) <= TableCost(lo, hi)
  {
  }

  /** Neighbours share their tables except across a block. */
  lemma NextBlock(mem: Memory, root: int, n: int)
    ensures n / 512 == (n - 1) / 512 ==> MissingTables(mem, root, n) == MissingTables(mem, root, n - 1)
    ensures n / 512 / 512 == (n - 1) / 512 / 512 ==> MissingTables(mem, root, n) <= 1 + MissingTables(mem, root, n - 1)
    ensures n / 512 != (n - 1) / 512 ==> n / 512 == (n - 1) / 512 + 1
    ensures n / 512 / 512 != (n - 1) / 512 / 512 ==> n / 512 / 512 >= (n - 1) / 512 / 512 + 1
  {
    assert n / 0x4_0000 == n / 512 / 512 && (n - 1) / 0x4_0000 == (n - 1) / 512 / 512;
  }

  /** The tables missing on the way to the next page of a range are within what TableCost grows by. */
  lemma TablesTurn(mem: Memory, root: int, lo: int, n: int)
    requires lo <= n
    ensures MissingTables(mem, root, n) - Unspent(mem, root, lo, n) <= TableCost(lo, n + 1) - TableCost(lo, n)
  {
    hide MissingTables;
    NextBlock(mem, root, n);
    TwoLevels(mem, root, n);
    TwoLevels(mem, root, n - 1);
  }

  lemma TwoLevels(mem: Memory, root: int, v: int)
    ensures 0 <= MissingTables(mem, root, v) <= 2
  {
  }

  /** A page that is mapped misses no table. */
  lemma MappedHasTables(mem: Memory, root: int, v: int)
    requires V(LeafPte(mem, root, v))
    ensures MissingTables(mem, root, v) == 0
  {
  }

  /** Words outside the page tables do not matter. */
  lemma TablesStay(mem: Memory, mem': Memory, role: Roles, root: int, v: int)
    requires Tables(mem, role) && IsTable(role, root, 2)
    requires forall g, j {:trigger Entry(mem', g, j)} :: 0 <= j < ENTRIES && g in role && LevelOf(role[g]) >= 0 ==>
               Entry(mem', g, j) == Entry(mem, g, j)
    ensures MissingTables(mem', root, v) == MissingTables(mem, root, v)
  {
    WalkStays(mem, role, root, v);
  }

  lemma MissingBelow(mem0: Memory, role0: Roles, mem1: Memory, role1: Roles, root: int, v: int, t1: int)
    requires Tables(mem0, role0) && IsTable(role0, root, 2)
    requires Extends(mem0, role0, mem1, role1, root, Px(2, v), t1)
    requires if V(Entry(mem0, root, Px(2, v))) then mem1 == mem0 else EmptyTable(mem1, t1)
    ensures MissingTables(mem0, root, v) == (if V(Entry(mem0, root, Px(2, v))) then 0 else 1) + (if V(Entry(mem1, t1, Px(1, v))) then 0 else 1)
  {
  }

  /** Levels 2 and 1 of map_page: the level-0 table for page v, made if need be. */
  method TablesFor(ram: PageMemory, root: int, vpn2: int, vpn1: int, ghost v: int) returns (t: Option<int>)
    requires Ready(ram) && IsTable(ram.role, root, 2) && vpn2 == Px(2, v) && vpn1 == Px(1, v)
    modifies ram, ram.tracker, ram.tracker.table
    ensures t.None? <==> old(ram.Available()) < old(MissingTables(ram.mem, root, v))
    ensures t.Some? ==> ram.Available() == old(ram.Available()) - old(MissingTables(ram.mem, root, v))
    ensures t.Some? ==> ram.Room() >= old(ram.Room()) - old(MissingTables(ram.mem, root, v))
    ensures t.Some? ==>
              && Ready(ram) && TablesAdded(old(ram.mem), old(ram.role), ram.mem, ram.role)
              && t.value == LowTable(ram.mem, root, v) && t.value in ram.role
              && Charged(old(ram.tracker.owned), ram.tracker.owned, old(ram.role.Keys), ram.currentPid)
              && ram.currentPid == old(ram.currentPid)
  {
    var t1 := NextTable(ram, root, vpn2);
    if t1.None? {
      return None;
    }
    ghost var mem1, role1, owned1 := ram.mem, ram.role, ram.tracker.owned;
    MissingBelow(old(ram.mem), old(ram.role), mem1, role1, root, v, t1.value);
    t := NextTable(ram, t1.value, vpn1);
    if t.Some? {
      ExtendsReach(mem1, role1, ram.mem, ram.role, root, v, t1.value, t.value);
      TwoExtends(old(ram.mem), old(ram.role), mem1, role1, ram.mem, ram.role, root, vpn2, t1.value, vpn1, t.value);
      ChargedTransitive(old(ram.tracker.owned), owned1, ram.tracker.owned, old(ram.role.Keys), role1.Keys, ram.currentPid);
    }
  }

  lemma ChargedTransitive(o0: map<int, int>, o1: map<int, int>, o2: map<int, int>, used0: set<int>, used1: set<int>, pid: int)
    requires Charged(o0, o1, used0, pid) && Charged(o1, o2, used1, pid) && used0 <= used1
    ensures Charged(o0, o2, used0, pid)
  {
  }

  /** map_page. The result is false for a PANIC: an unaligned address, or no frame left for a table. */
  method MapPage(ram: PageMemory, root: int, va: int, pa: int, p: Perms) returns (ok: bool)
    requires Ready(ram) && IsTable(ram.role, root, 2)
    requires 0 <= va < WORD_LIMIT && 0 <= pa < WORD_LIMIT
    modifies ram, ram.tracker, ram.tracker.table
    ensures ok <==> va % PAGE_SIZE == 0 && pa % PAGE_SIZE == 0 && old(ram.Available()) >= old(MissingTables(ram.mem, root, Key(va)))
    ensures ok ==> ram.Available() == old(ram.Available()) - old(MissingTables(ram.mem, root, Key(va)))
    ensures ok ==> ram.Room() >= old(ram.Room()) - old(MissingTables(ram.mem, root, Key(va)))
    ensures ok ==>
              && va % PAGE_SIZE == 0 && pa % PAGE_SIZE == 0
              && Ready(ram)
              && MapsPage(old(ram.mem), old(ram.role), ram.mem, ram.role, root, Key(va), pa / PAGE_SIZE, p)
              && Charged(old(ram.tracker.owned), ram.tracker.owned, old(ram.role.Keys), ram.currentPid)
              && ram.currentPid == old(ram.currentPid)
  {
    if va % PAGE_SIZE != 0 || pa % PAGE_SIZE != 0 {
      return false;
    }
    IndicesOfAddress(va);
    var vpn2 := va / 0x4000_0000 % 512;
    var vpn1 := va / 0x20_0000 % 512;
    var vpn0 := va / 0x1000 % 512;

    var pt := TablesFor(ram, root, vpn2, vpn1, Key(va));
    if pt.None? {
      return false;
    }
    ghost var mem2, role2 := ram.mem, ram.role;
    SetLeaf(ram, pt.value, root, Key(va), vpn0, pa / PAGE_SIZE, p);
    MapAfterTables(old(ram.mem), old(ram.role), mem2, role2, ram.mem, ram.role, root, Key(va), pa / PAGE_SIZE, p);
    ok := true;
  }

  // ---------------------------------------------------------------- unmap_page

  /** The effect of unmap_page: one translation of one tree disappears. */
  ghost predicate UnmapsPage(mem: Memory, role: Roles, mem': Memory, role': Roles, root: int, v: int) {
    && (forall r, u {:trigger LeafPte(mem', r, u)} :: IsTable(role, r, 2) && 0 <= u < VPNS ==>
          LeafPte(mem', r, u) == if r == root && u == v then 0 else LeafPte(mem, r, u))
    && SameTables(role, role')
    && (forall g :: g in role && g != OwnedBy(LeafPte(mem, root, v)) ==> role'[g] == role[g])
    && (forall g, j {:trigger Entry(mem', g, j)} :: 0 <= j < ENTRIES && g != LowTable(mem, root, v) ==>
          Entry(mem', g, j) == Entry(mem, g, j))
    && (Leaves(mem, role) ==>
          && Leaves(mem', role')
          && (OwnedBy(LeafPte(mem, root, v)) != NONE ==>
                OwnedBy(LeafPte(mem, root, v)) in role' && role'[OwnedBy(LeafPte(mem, root, v))] == Plain))
  }

  lemma UnmapRefines(mem: Memory, role: Roles, mem': Memory, role': Roles, root: int, v: int, r: int)
    requires UnmapsPage(mem, role, mem', role', root, v)
    requires IsTable(role, root, 2) && IsTable(role, r, 2) && 0 <= v < VPNS
    ensures Translations(mem', r) == if r == root then Translations(mem, r) - {v} else Translations(mem, r)
  {
    OneTranslation(mem, mem', r, v, if r == root then 0 else LeafPte(mem, r, v));
  }

  lemma ClearLeafUnmaps(mem: Memory, role: Roles, root: int, v: int)
    requires Tables(mem, role) && IsTable(role, root, 2) && 0 <= v < VPNS && LowTable(mem, root, v) != NONE
    ensures var t, k := LowTable(mem, root, v), Px(0, v);
            var mem', role' := Store(mem, t, k, 0), Release(role, Entry(mem, t, k), t, k);
            IsTable(role, t, 0) && Tables(mem', role') && UnmapsPage(mem, role, mem', role', root, v)
  {
    var t, k := LowTable(mem, root, v), Px(0, v);
    WalkStays(mem, role, root, v);
    var mem', role' := Store(mem, t, k, 0), Release(role, Entry(mem, t, k), t, k);
    SetLeafShape(mem, role, role', t, k, 0);
    forall r, u | IsTable(role, r, 2) && 0 <= u < VPNS
      ensures LeafPte(mem', r, u) == if r == root && u == v then 0 else LeafPte(mem, r, u)
    {
      SetLeafLookups(mem, role, root, v, 0, r, u);
    }
    if Leaves(mem, role) {
      assert LeafEntry(mem, role, t, k);
      ClearLeafOwners(mem, role, t, k);
    }
  }

  lemma NothingToUnmap(mem: Memory, role: Roles, root: int, v: int)
    requires LowTable(mem, root, v) == NONE
    ensures UnmapsPage(mem, role, mem, role, root, v)
  {
  }

  /** unmap_page. The result is false for the PANIC on an unaligned address. */
  method UnmapPage(ram: PageMemory, root: int, va: int) returns (ok: bool)
    requires Ready(ram) && IsTable(ram.role, root, 2) && 0 <= va < WORD_LIMIT
    modifies ram`mem, ram`role
    ensures ok <==> va % PAGE_SIZE == 0
    ensures Ready(ram)
    ensures ok ==> UnmapsPage(old(ram.mem), old(ram.role), ram.mem, ram.role, root, Key(va))
    ensures !ok ==> ram.mem == old(ram.mem) && ram.role == old(ram.role)
  {
    if va % PAGE_SIZE != 0 {
      return false;
    }
    IndicesOfAddress(va);
    WalkStays(ram.mem, ram.role, root, Key(va));
    if LowTable(ram.mem, root, Key(va)) == NONE { NothingToUnmap(ram.mem, ram.role, root, Key(va)); }
    else { ClearLeafUnmaps(ram.mem, ram.role, root, Key(va)); }
    var vpn2 := va / 0x4000_0000 % 512;
    var vpn1 := va / 0x20_0000 % 512;
    var vpn0 := va / 0x1000 % 512;

    var pt := root;
    if !V(Entry(ram.mem, pt, vpn2)) {
      return true;
    }
    pt := PteFrame(Entry(ram.mem, pt, vpn2));
    if !V(Entry(ram.mem, pt, vpn1)) {
      return true;
    }
    pt := PteFrame(Entry(ram.mem, pt, vpn1));
    ghost var role' := Release(ram.role, Entry(ram.mem, pt, vpn0), pt, vpn0);
    ram.StoreWord(pt, vpn0, 0);
    ram.SetRole(role');
    ok := true;
  }
}
