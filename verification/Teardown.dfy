/** Taking an address space apart: free_pagetable and process_free_userspace. */
module Teardown {
  import opened Sv39
  import opened PageTree
  import opened PageMemory
  import opened PageTables

  /** Allocator, tree shape and page ownership all hold. */
  ghost predicate Sound(ram: PageMemory)
    reads ram, ram.tracker, ram.tracker.table
  {
    ram.Valid() && Tables(ram.mem, ram.role) && Leaves(ram.mem, ram.role)
  }

  // ---------------------------------------------------------------- what hangs under a table

  ghost function Up(role: Roles, f: int): int {
    if f in role && (role[f].Mid? || role[f].Low? || role[f].User?) then role[f].up else NONE
  }

  ghost function Ix(role: Roles, f: int): int {
    if f in role && (role[f].Mid? || role[f].Low? || role[f].User?) then role[f].ix else NONE
  }

  /** The entry of table t through which a walk reaches frame f, or NONE when f does not hang under t. */
  ghost function Via(role: Roles, t: int, f: int): int {
    if Up(role, f) == t then Ix(role, f)
    else if Up(role, Up(role, f)) == t then Ix(role, Up(role, f))
    else if Up(role, Up(role, Up(role, f))) == t then Ix(role, Up(role, Up(role, f)))
    else NONE
  }

  ghost predicate Under(role: Roles, t: int, f: int) { Via(role, t, f) != NONE }

  lemma LevelUp(mem: Memory, role: Roles, f: int)
    requires Tables(mem, role) && Leaves(mem, role)
    ensures Up(role, f) != NONE ==>
              var t, k := Up(role, f), Ix(role, f);
              && f in role && IsTable(role, t, LevelOf(role[f]) + 1) && 0 <= k < ENTRIES
              && V(Entry(mem, t, k)) && PteFrame(Entry(mem, t, k)) == f
  {
    if Up(role, f) != NONE {
      if role[f].User? {
        assert HasLeaf(mem, role, f);
      } else {
        assert HasParent(mem, role, f);
        PteRoundTrip(f, NO_PERMS);
      }
    }
  }

  /** The frames below entry i of table t are the child at that entry and everything under it. */
  lemma ViaChild(mem: Memory, role: Roles, t: int, i: int, c: int, f: int)
    requires Tables(mem, role) && Leaves(mem, role) && t in role
    requires c in role && Up(role, c) == t && Ix(role, c) == i
    ensures Via(role, t, f) == i <==> f == c || Under(role, c, f)
  {
    var f1 := Up(role, f);
    var f2 := Up(role, f1);
    LevelUp(mem, role, c);
    LevelUp(mem, role, f);
    LevelUp(mem, role, f1);
    LevelUp(mem, role, f2);
  }

  /** Nothing hangs below an entry that is not valid, or that is a supervisor leaf. */
  lemma ViaNothing(mem: Memory, role: Roles, t: int, i: int, f: int)
    requires Tables(mem, role) && Leaves(mem, role) && t in role && 0 <= i < ENTRIES
    requires !V(Entry(mem, t, i)) || (LevelOf(role[t]) == 0 && !U(Entry(mem, t, i)))
    ensures Via(role, t, f) != i
  {
    var f1 := Up(role, f);
    var f2 := Up(role, f1);
    LevelUp(mem, role, f);
    LevelUp(mem, role, f1);
    LevelUp(mem, role, f2);
    if Up(role, f) == t && role[f].User? { assert HasLeaf(mem, role, f); }
  }

  /** role is what is left of role0 after some frames, and with each of them everything under it, are gone. */
  ghost predicate Restricts(role0: Roles, role: Roles) {
    role.Keys <= role0.Keys && forall f :: f in role ==> role[f] == role0[f]
  }

  lemma ViaRestrict(mem: Memory, role0: Roles, role: Roles, t: int, f: int)
    requires Tables(mem, role) && Leaves(mem, role) && Restricts(role0, role) && NONE !in role0
    requires f in role && t in role
    ensures Via(role, t, f) == Via(role0, t, f)
  {
    var f1 := Up(role, f);
    var f2 := Up(role, f1);
    LevelUp(mem, role, f);
    LevelUp(mem, role, f1);
    LevelUp(mem, role, f2);
  }

  // ---------------------------------------------------------------- detaching a child

  /** Freeing a child without children of its own (which overwrites its first word) and then clearing the entry
      that pointed to it keeps every tree well shaped. */
  lemma Detach(mem: Memory, role: Roles, t: int, i: int, c: int, link: int)
    requires Tables(mem, role) && Leaves(mem, role)
    requires c in role && Up(role, c) == t && Ix(role, c) == i
    requires forall f :: f in role ==> Up(role, f) != c
    requires 0 <= i < ENTRIES
    ensures var mem', role' := Store(Store(mem, c, 0, link), t, i, 0), role - {c};
            Tables(mem', role') && Leaves(mem', role')
  {
    LevelUp(mem, role, c);
    var mem', role' := Store(Store(mem, c, 0, link), t, i, 0), role - {c};
    forall u, j | IsBranch(role', u) && 0 <= j < ENTRIES ensures BranchEntry(mem', role', u, j) {
      assert BranchEntry(mem, role, u, j);
      assert Entry(mem', u, j) == if u == t && j == i then 0 else Entry(mem, u, j);
    }
    forall u, j | IsTable(role', u, 0) && 0 <= j < ENTRIES ensures LeafEntry(mem', role', u, j) {
      assert LeafEntry(mem, role, u, j);
      assert Entry(mem', u, j) == if u == t && j == i then 0 else Entry(mem, u, j);
    }
    forall d | d in role' && (role'[d].Mid? || role'[d].Low?) ensures HasParent(mem', role', d) {
      LevelUp(mem, role, d);
      assert HasParent(mem, role, d);
      assert Up(role, d) != c;
    }
    forall d | d in role' && role'[d].User? ensures HasLeaf(mem', role', d) {
      LevelUp(mem, role, d);
      assert HasLeaf(mem, role, d);
      assert Up(role, d) != c;
    }
  }

  // ---------------------------------------------------------------- free_pagetable

  /** The state a teardown works on: words, roles, tracker records, bump pointer, charged process. */
  datatype Snapshot = Snapshot(mem: Memory, role: Roles, owned: map<int, int>, next: int, pid: int)

  ghost function Now(ram: PageMemory): Snapshot
    reads ram, ram.tracker
  {
    Snapshot(ram.mem, ram.role, ram.tracker.owned, ram.nextFrame, ram.currentPid)
  }

  ghost predicate WellFormed(s: Snapshot) {
    Tables(s.mem, s.role) && Leaves(s.mem, s.role)
  }

  /** The tracker loses exactly the records of frames no longer in use; nothing else moves. */
  ghost predicate OnlyFreed(s0: Snapshot, s: Snapshot) {
    && Restricts(s0.role, s.role)
    && (forall g :: g in s.owned <==> g in s0.owned && g in s.role)
    && (forall g :: g in s.owned ==> s.owned[g] == s0.owned[g])
    && s.next == s0.next && s.pid == s0.pid
  }

  /** Everything under frame c is gone, and no other frame in use, c aside, has changed. */
  ghost predicate Cut(s0: Snapshot, s: Snapshot, c: int) {
    && OnlyFreed(s0, s)
    && (forall f :: f in s0.role ==> (f in s.role <==> !Under(s0.role, c, f)))
    && (forall f, k {:trigger Entry(s.mem, f, k)} :: 0 <= k < ENTRIES && f in s.role && f != c ==>
          Entry(s.mem, f, k) == Entry(s0.mem, f, k))
  }

  /** The first n entries of table t are cleared and everything below them is gone; the rest is untouched. */
  ghost predicate Pruned(s0: Snapshot, s: Snapshot, t: int, n: int) {
    && OnlyFreed(s0, s)
    && (forall f :: f in s0.role ==> (f in s.role <==> !(0 <= Via(s0.role, t, f) < n)))
    && (forall f, k {:trigger Entry(s.mem, f, k)} :: 0 <= k < ENTRIES && f in s.role ==>
          if f == t && k < n then !V(Entry(s.mem, f, k)) else Entry(s.mem, f, k) == Entry(s0.mem, f, k))
  }

  lemma PrunedAll(s0: Snapshot, s: Snapshot, t: int)
    requires WellFormed(s0) && Pruned(s0, s, t, ENTRIES) && t in s0.role
    ensures Cut(s0, s, t)
  {
    forall f | f in s0.role ensures Via(s0.role, t, f) == NONE || 0 <= Via(s0.role, t, f) < ENTRIES {
      var f1 := Up(s0.role, f);
      LevelUp(s0.mem, s0.role, f);
      LevelUp(s0.mem, s0.role, f1);
      LevelUp(s0.mem, s0.role, Up(s0.role, f1));
    }
  }

  /** An entry that is not valid has nothing to free. */
  lemma SkipStep(s0: Snapshot, s: Snapshot, t: int, i: int)
    requires WellFormed(s0) && WellFormed(s) && Pruned(s0, s, t, i) && t in s.role && 0 <= i < ENTRIES
    requires !V(Entry(s.mem, t, i))
    ensures forall f :: f in s0.role ==> Via(s0.role, t, f) != i
  {
    assert Entry(s.mem, t, i) == Entry(s0.mem, t, i);
    forall f | f in s0.role ensures Via(s0.role, t, f) != i {
      ViaNothing(s0.mem, s0.role, t, i, f);
    }
  }

  /** A supervisor leaf is only cleared: the frame it maps is not freed. */
  lemma SupervisorStep(s0: Snapshot, s: Snapshot, t: int, i: int)
    requires WellFormed(s0) && WellFormed(s) && Pruned(s0, s, t, i) && 0 <= i < ENTRIES
    requires IsTable(s.role, t, 0) && V(Entry(s.mem, t, i)) && !U(Entry(s.mem, t, i))
    ensures var s' := s.(mem := Store(s.mem, t, i, 0)); WellFormed(s') && Pruned(s0, s', t, i + 1)
  {
    assert Entry(s.mem, t, i) == Entry(s0.mem, t, i);
    forall f | f in s0.role ensures Via(s0.role, t, f) != i {
      ViaNothing(s0.mem, s0.role, t, i, f);
    }
    SetLeafShape(s.mem, s.role, s.role, t, i, 0);
    ClearLeafOwners(s.mem, s.role, t, i);
  }

  /** Nothing hangs under a user page. */
  lemma PageIsCut(s: Snapshot, c: int)
    requires WellFormed(s) && c in s.role && s.role[c].User? && s.owned.Keys <= s.role.Keys
    ensures Cut(s, s, c)
  {
    forall f | f in s.role ensures !Under(s.role, c, f) {
      var f1 := Up(s.role, f);
      LevelUp(s.mem, s.role, f);
      LevelUp(s.mem, s.role, f1);
      LevelUp(s.mem, s.role, Up(s.role, f1));
    }
  }

  /** Once everything under the child c of entry i is gone, freeing c and clearing the entry finishes the entry. */
  lemma ChildStep(s0: Snapshot, s: Snapshot, s1: Snapshot, s': Snapshot, t: int, i: int, c: int, link: int)
    requires WellFormed(s0) && WellFormed(s) && WellFormed(s1) && NONE !in s0.role
    requires Pruned(s0, s, t, i) && Cut(s, s1, c) && t in s.role && 0 <= i < ENTRIES
    requires c in s.role && Up(s.role, c) == t && Ix(s.role, c) == i
    requires s' == Snapshot(Store(Store(s1.mem, c, 0, link), t, i, 0), s1.role - {c}, s1.owned - {c}, s1.next, s1.pid)
    ensures WellFormed(s') && Pruned(s0, s', t, i + 1)
  {
    LevelUp(s.mem, s.role, c);
    forall f | f in s.role ensures Via(s0.role, t, f) == Via(s.role, t, f)
    {
      ViaRestrict(s.mem, s0.role, s.role, t, f);
    }
    forall f | f in s.role ensures Via(s.role, t, f) == i <==> f == c || Under(s.role, c, f) {
      ViaChild(s.mem, s.role, t, i, c, f);
    }
    NotUnder(s, c, c);
    NotUnder(s, c, t);
    forall f | f in s1.role ensures Up(s1.role, f) != c {
      LevelUp(s.mem, s.role, f);
      assert !Under(s.role, c, f);
    }
    Detach(s1.mem, s1.role, t, i, c, link);
  }

  /** Neither a frame itself nor the table above it hangs under it. */
  lemma NotUnder(s: Snapshot, c: int, f: int)
    requires WellFormed(s) && c in s.role && (f == c || f == Up(s.role, c) != NONE)
    ensures !Under(s.role, c, f)
  {
    LevelUp(s.mem, s.role, c);
    var f1 := Up(s.role, f);
    LevelUp(s.mem, s.role, f);
    LevelUp(s.mem, s.role, f1);
    LevelUp(s.mem, s.role, Up(s.role, f1));
  }

  /** One turn of the loop in free_pagetable, on a valid entry i of table pt at level lvl. */
  method FreeEntry(ram: PageMemory, pt: int, lvl: int, i: int, ghost s0: Snapshot)
    requires Sound(ram) && 0 <= lvl <= 2 && IsTable(ram.role, pt, lvl) && 0 <= i < ENTRIES
    requires WellFormed(s0) && NONE !in s0.role && Pruned(s0, Now(ram), pt, i) && V(Entry(ram.mem, pt, i))
    modifies ram, ram.tracker, ram.tracker.table
    ensures Sound(ram) && Pruned(s0, Now(ram), pt, i + 1)
    decreases lvl, 0
  {
    hide Pruned, Cut;
    ghost var s := Now(ram);
    var e := Entry(ram.mem, pt, i);
    var child := PteFrame(e);
    if Perm(e) && lvl == 0 {
      assert LeafEntry(ram.mem, ram.role, pt, i);
      if U(e) {
        PageIsCut(s, child);
        ChildStep(s0, s, s, Snapshot(Store(Store(s.mem, child, 0, ram.freeList), pt, i, 0), s.role - {child},
                  s.owned - {child}, s.next, s.pid), pt, i, child, ram.freeList);
        ram.FreePage(child);
      } else {
        SupervisorStep(s0, s, pt, i);
      }
    } else {
      ChildTable(ram.mem, ram.role, pt, i, lvl);
      FreePagetable(ram, child, lvl - 1);
      ghost var s1 := Now(ram);
      ChildStep(s0, s, s1, Snapshot(Store(Store(s1.mem, child, 0, ram.freeList), pt, i, 0), s1.role - {child},
                s1.owned - {child}, s1.next, s1.pid), pt, i, child, ram.freeList);
      NotUnder(s, child, child);
      NotUnder(s, child, pt);
      ram.FreePage(child);
    }
    ram.StoreWord(pt, i, 0);
  }

  lemma ChildTable(mem: Memory, role: Roles, t: int, i: int, lvl: int)
    requires Tables(mem, role) && Leaves(mem, role) && IsTable(role, t, lvl) && 0 <= i < ENTRIES && V(Entry(mem, t, i))
    requires 0 <= lvl <= 2 && !(Perm(Entry(mem, t, i)) && lvl == 0)
    ensures lvl > 0
    ensures var c := PteFrame(Entry(mem, t, i)); IsTable(role, c, lvl - 1) && Up(role, c) == t && Ix(role, c) == i
  {
  }

  /** free_pagetable: everything under table pt is freed, exactly once, and pt ends up empty. No frame outside
      the subtree changes, and the link words written into freed frames are never read as table entries. */
  method FreePagetable(ram: PageMemory, pt: int, lvl: int)
    requires Sound(ram) && 0 <= lvl <= 2 && IsTable(ram.role, pt, lvl)
    modifies ram, ram.tracker, ram.tracker.table
    ensures Sound(ram) && Cut(old(Now(ram)), Now(ram), pt)
    ensures forall k :: 0 <= k < ENTRIES ==> !V(Entry(ram.mem, pt, k))
    decreases lvl, 1
  {
    ghost var s0 := Now(ram);
    NotUnder(s0, pt, pt);
    for i := 0 to ENTRIES
      invariant Sound(ram) && Pruned(s0, Now(ram), pt, i) && pt in ram.role
    {
      if V(Entry(ram.mem, pt, i)) {
        FreeEntry(ram, pt, lvl, i, s0);
      } else {
        SkipStep(s0, Now(ram), pt, i);
      }
    }
    PrunedAll(s0, Now(ram), pt);
  }

  // ---------------------------------------------------------------- process_free_userspace

  const USER_BASE := 0x100_0000

  /** While the user pages of a range are being freed: only user pages under root may have gone, and only the
      level-0 tables under root may have changed. */
  ghost predicate Trimmed(s0: Snapshot, s: Snapshot, root: int) {
    && OnlyFreed(s0, s)
    && (forall f :: f in s0.role && f !in s.role ==> s0.role[f].User? && Under(s0.role, root, f))
    && (forall f, k {:trigger Entry(s.mem, f, k)} :: 0 <= k < ENTRIES && f in s.role && !(s0.role[f].Low? && Under(s0.role, root, f)) ==>
          Entry(s.mem, f, k) == Entry(s0.mem, f, k))
  }

  /** A frame that no tree uses can be freed: a plain frame, or a root with nothing left under it. */
  lemma FreeOrphan(mem: Memory, role: Roles, c: int, link: int)
    requires Tables(mem, role) && Leaves(mem, role) && c in role && (role[c] == Plain || role[c] == Root)
    requires forall f :: f in role ==> Up(role, f) != c
    ensures Tables(Store(mem, c, 0, link), role - {c}) && Leaves(Store(mem, c, 0, link), role - {c})
  {
    var mem', role' := Store(mem, c, 0, link), role - {c};
    forall u, j | IsBranch(role', u) && 0 <= j < ENTRIES ensures BranchEntry(mem', role', u, j) {
      assert BranchEntry(mem, role, u, j);
      assert Entry(mem', u, j) == Entry(mem, u, j);
    }
    forall u, j | IsTable(role', u, 0) && 0 <= j < ENTRIES ensures LeafEntry(mem', role', u, j) {
      assert LeafEntry(mem, role, u, j);
      assert Entry(mem', u, j) == Entry(mem, u, j);
    }
    forall d | d in role' && (role'[d].Mid? || role'[d].Low?) ensures HasParent(mem', role', d) {
      assert HasParent(mem, role, d);
      assert Up(role, d) != c;
    }
    forall d | d in role' && role'[d].User? ensures HasLeaf(mem', role', d) {
      assert HasLeaf(mem, role, d);
      assert Up(role, d) != c;
    }
  }

  /** Only tables have anything under them. */
  lemma PlainHasNoChildren(mem: Memory, role: Roles, c: int)
    requires Tables(mem, role) && Leaves(mem, role) && c in role && role[c] == Plain
    ensures forall f :: f in role ==> Up(role, f) != c
  {
    forall f | f in role ensures Up(role, f) != c {
      LevelUp(mem, role, f);
    }
  }

  /** unmap_page and then free_page of the same user page: one page under root is gone. */
  lemma TrimStep(s0: Snapshot, s: Snapshot, root: int, v: int, s1: Snapshot, s': Snapshot, f: int, link: int)
    requires WellFormed(s0) && WellFormed(s) && WellFormed(s1) && Trimmed(s0, s, root)
    requires IsTable(s.role, root, 2) && 0 <= v < VPNS && f == OwnedBy(LeafPte(s.mem, root, v)) != NONE
    requires UnmapsPage(s.mem, s.role, s1.mem, s1.role, root, v)
    requires s1 == s.(mem := s1.mem, role := s1.role)
    requires s' == Snapshot(Store(s1.mem, f, 0, link), s1.role - {f}, s1.owned - {f}, s1.next, s1.pid)
    ensures WellFormed(s') && Trimmed(s0, s', root)
  {
    PlainHasNoChildren(s1.mem, s1.role, f);
    FreeOrphan(s1.mem, s1.role, f, link);
    WalkStays(s.mem, s.role, root, v);
    var t := LowTable(s.mem, root, v);
    assert LeafEntry(s.mem, s.role, t, Px(0, v));
    assert Via(s.role, root, t) == Px(2, v) == Via(s0.role, root, t);
    assert s.role[f] == User(t, Px(0, v));
    assert Via(s0.role, root, f) == Px(2, v);
  }

  /** Frames have only been freed, and every frame still in use is untouched. */
  ghost predicate Survives(s0: Snapshot, s: Snapshot) {
    && OnlyFreed(s0, s)
    && (forall f, k {:trigger Entry(s.mem, f, k)} :: 0 <= k < ENTRIES && f in s.role ==> Entry(s.mem, f, k) == Entry(s0.mem, f, k))
  }

  /** The whole address space under root is gone, its root included; every frame still in use is untouched. */
  ghost predicate Dismantled(s0: Snapshot, s: Snapshot, root: int) {
    && Survives(s0, s)
    && (forall f :: f in s0.role ==> (f in s.role <==> f != root && !Under(s0.role, root, f)))
  }

  lemma DismantleStep(s0: Snapshot, s: Snapshot, s1: Snapshot, s': Snapshot, root: int, link: int)
    requires WellFormed(s0) && WellFormed(s) && WellFormed(s1) && NONE !in s0.role && IsTable(s.role, root, 2)
    requires Trimmed(s0, s, root) && Cut(s, s1, root)
    requires s' == Snapshot(Store(s1.mem, root, 0, link), s1.role - {root}, s1.owned - {root}, s1.next, s1.pid)
    ensures WellFormed(s') && Dismantled(s0, s', root)
  {
    forall f | f in s.role ensures Via(s0.role, root, f) == Via(s.role, root, f) {
      ViaRestrict(s.mem, s0.role, s.role, root, f);
    }
    NotUnder(s, root, root);
    forall f | f in s1.role ensures Up(s1.role, f) != root {
      LevelUp(s.mem, s.role, f);
      assert !Under(s.role, root, f);
    }
    FreeOrphan(s1.mem, s1.role, root, link);
  }

  /** Rounding up in 64 bits: the sum wraps. */
  function PageRoundUp(x: int): int { (x + PAGE_SIZE - 1) % WORD_LIMIT / PAGE_SIZE * PAGE_SIZE }

  /** The leaf pass of process_free_userspace ends: its last address is not the last page of the address range. */
  predicate LeafPassEnds(heapEnd: int, stackTop: int) {
    && 0 <= heapEnd < WORD_LIMIT && 0 <= stackTop < WORD_LIMIT
    && PageRoundUp(if heapEnd > stackTop then heapEnd else stackTop) < WORD_LIMIT - PAGE_SIZE
  }

  lemma UserEndsAreSmall(heapEnd: int, stackTop: int)
    requires 0 <= heapEnd <= MAXVA && 0 <= stackTop <= MAXVA
    ensures LeafPassEnds(heapEnd, stackTop)
  {
  }

  lemma NextPage(n: int)
    ensures USER_BASE + n * PAGE_SIZE + PAGE_SIZE == USER_BASE + (n + 1) * PAGE_SIZE
    ensures (USER_BASE + n * PAGE_SIZE) % PAGE_SIZE == 0
  {
    assert USER_BASE + n * PAGE_SIZE == (0x1000 + n) * PAGE_SIZE;
    WholePage(0x1000 + n);
  }

  lemma WholePage(q: int)
    ensures q * PAGE_SIZE % PAGE_SIZE == 0
  {
  }

  lemma NothingTrimmed(s: Snapshot, root: int)
    requires s.owned.Keys <= s.role.Keys
    ensures Trimmed(s, s, root)
  {
  }

  /** One turn of the leaf pass: a user page mapped at va is unmapped and then freed. */
  method FreeUserLeaf(ram: PageMemory, root: int, va: int, ghost s0: Snapshot)
    requires Sound(ram) && IsTable(ram.role, root, 2) && 0 <= va < WORD_LIMIT && va % PAGE_SIZE == 0
    requires WellFormed(s0) && Trimmed(s0, Now(ram), root) && NONE !in s0.role
    modifies ram, ram.tracker, ram.tracker.table
    ensures Sound(ram) && Trimmed(s0, Now(ram), root) && IsTable(ram.role, root, 2)
    ensures var e := old(LeafPte(ram.mem, root, Key(va)));
            if V(e) && U(e) then ram.freeList == Addr(PteFrame(e)) && ram.role.Keys == old(ram.role.Keys) - {PteFrame(e)}
            else Now(ram) == old(Now(ram))
  {
    ghost var s := Now(ram);
    IndicesOfAddress(va);
    WalkStays(ram.mem, ram.role, root, Key(va));
    var vpn2 := va / 0x4000_0000 % 512;
    var vpn1 := va / 0x20_0000 % 512;
    var vpn0 := va / 0x1000 % 512;
    var l2e := Entry(ram.mem, root, vpn2);
    if !V(l2e) { return; }
    var l1 := PteFrame(l2e);
    var l1e := Entry(ram.mem, l1, vpn1);
    if !V(l1e) { return; }
    var l0 := PteFrame(l1e);
    var pte := Entry(ram.mem, l0, vpn0);
    if !V(pte) { return; }
    if !U(pte) { return; }
    assert pte == LeafPte(s.mem, root, Key(va));
    assert LeafEntry(s.mem, s.role, l0, vpn0);

    var pa := PteFrame(pte);
    var ok := UnmapPage(ram, root, va);
    ghost var s1 := Now(ram);
    TrimStep(s0, s, root, Key(va), s1,
             Snapshot(Store(s1.mem, pa, 0, ram.freeList), s1.role - {pa}, s1.owned - {pa}, s1.next, s1.pid), pa, ram.freeList);
    assert s.role[root] == s1.role[root] == Root;
    ram.FreePage(pa);
  }

  /** process_free_userspace for a process with page table root: every user page and every table of the address
      space, its root included, goes to the free list once; no supervisor frame does. */
  method FreeUserspace(ram: PageMemory, root: int, heapEnd: int, stackTop: int)
    requires Sound(ram) && IsTable(ram.role, root, 2)
    requires LeafPassEnds(heapEnd, stackTop)
    modifies ram, ram.tracker, ram.tracker.table
    ensures Sound(ram) && Dismantled(old(Now(ram)), Now(ram), root)
    ensures ram.freePages - old(ram.freePages) == old(|ram.role.Keys|) - |ram.role.Keys|
  {
    hide Tables, Leaves, Cut, Trimmed, Linked, Entry, LeafPte;
    ghost var s0 := Now(ram);
    NothingTrimmed(s0, root);
    ghost var pages0 := ram.freePages;
    Conservation(ram.base, ram.nextFrame, ram.free, ram.role.Keys);
    assert pages0 + |s0.role.Keys| == s0.next - ram.base;
    var va := USER_BASE;
    var end := if heapEnd > stackTop then heapEnd else stackTop;
    end := PageRoundUp(end);
    hide PageRoundUp;
    ghost var n := 0;
    while va <= end
      invariant 0 <= n && va == USER_BASE + n * PAGE_SIZE
      invariant Sound(ram) && Trimmed(s0, Now(ram), root) && IsTable(ram.role, root, 2)
    {
      NextPage(n);
      FreeUserLeaf(ram, root, va, s0);
      va := va + PAGE_SIZE;
      n := n + 1;
    }
    ghost var s := Now(ram);
    FreePagetable(ram, root, 2);
    ghost var s1 := Now(ram);
    DismantleStep(s0, s, s1, Snapshot(Store(s1.mem, root, 0, ram.freeList), s1.role - {root}, s1.owned - {root}, s1.next, s1.pid),
                  root, ram.freeList);
    NotUnder(s, root, root);
    ram.FreePage(root);
    Conservation(ram.base, ram.nextFrame, ram.free, ram.role.Keys);
  }

  lemma OtherLookups(s0: Snapshot, s: Snapshot, r: int, v: int)
    requires WellFormed(s0) && WellFormed(s) && Survives(s0, s) && IsTable(s.role, r, 2)
    ensures LeafPte(s.mem, r, v) == LeafPte(s0.mem, r, v)
    ensures OwnedBy(LeafPte(s0.mem, r, v)) != NONE ==> OwnedBy(LeafPte(s0.mem, r, v)) in s.role
  {
  }

  /** Every address space whose root is still in use translates, and reads, exactly as before. */
  lemma SurvivorsUntouched(s0: Snapshot, s: Snapshot, r: int)
    requires WellFormed(s0) && WellFormed(s) && Survives(s0, s) && IsTable(s.role, r, 2)
    ensures forall v :: LeafPte(s.mem, r, v) == LeafPte(s0.mem, r, v)
    ensures Translations(s.mem, r) == Translations(s0.mem, r)
    ensures forall v :: var f := OwnedBy(LeafPte(s0.mem, r, v)); f != NONE ==> f in s.role && SameFrame(s.mem, f, s0.mem, f)
  {
    forall v ensures LeafPte(s.mem, r, v) == LeafPte(s0.mem, r, v)
      ensures var f := OwnedBy(LeafPte(s0.mem, r, v)); f != NONE ==> f in s.role && SameFrame(s.mem, f, s0.mem, f)
    {
      OtherLookups(s0, s, r, v);
    }
  }

  /** Taking one address space apart leaves the other roots in use. */
  lemma OtherRootSurvives(s0: Snapshot, s: Snapshot, root: int, r: int)
    requires WellFormed(s0) && Dismantled(s0, s, root)
    requires IsTable(s0.role, root, 2) && IsTable(s0.role, r, 2) && r != root
    ensures IsTable(s.role, r, 2)
  {
  }

  /** What hangs under a root is what a walk from it can reach: its tables and its user pages. */
  lemma UnderIsReachable(mem: Memory, role: Roles, root: int, f: int)
    requires Tables(mem, role) && Leaves(mem, role) && IsTable(role, root, 2) && f in role && f != NONE
    ensures Under(role, root, f) <==>
              exists v :: 0 <= v < VPNS &&
                (f == MidTable(mem, root, v) || f == LowTable(mem, root, v) || f == OwnedBy(LeafPte(mem, root, v)))
  {
    if Under(role, root, f) {
      var v := UnderHasPage(mem, role, root, f);
    }
    forall v | 0 <= v < VPNS && (f == MidTable(mem, root, v) || f == LowTable(mem, root, v) || f == OwnedBy(LeafPte(mem, root, v)))
      ensures Under(role, root, f)
    {
      WalkStays(mem, role, root, v);
      var t := LowTable(mem, root, v);
      if t != NONE {
        assert LeafEntry(mem, role, t, Px(0, v));
      }
    }
  }

  lemma UnderHasPage(mem: Memory, role: Roles, root: int, f: int) returns (v: int)
    requires Tables(mem, role) && Leaves(mem, role) && IsTable(role, root, 2) && f in role && f != NONE && Under(role, root, f)
    ensures 0 <= v < VPNS
    ensures f == MidTable(mem, root, v) || f == LowTable(mem, root, v) || f == OwnedBy(LeafPte(mem, root, v))
  {
    LevelUp(mem, role, f);
    LevelUp(mem, role, Up(role, f));
    LevelUp(mem, role, Up(role, Up(role, f)));
    if role[f].Mid? {
      v := Join(Ix(role, f), 0, 0);
      SplitJoin(Ix(role, f), 0, 0);
      assert Up(role, root) == NONE && Up(role, f) == root;
    } else if role[f].Low? {
      LowHasPage(mem, role, root, f, 0);
      v := Join(Ix(role, Up(role, f)), Ix(role, f), 0);
    } else {
      var t := Up(role, f);
      LowHasPage(mem, role, root, t, Ix(role, f));
      v := Join(Ix(role, Up(role, t)), Ix(role, t), Ix(role, f));
      assert HasLeaf(mem, role, f);
    }
  }

  lemma LowHasPage(mem: Memory, role: Roles, root: int, t: int, k: int)
    requires Tables(mem, role) && Leaves(mem, role) && IsTable(role, root, 2) && IsTable(role, t, 0) && 0 <= k < ENTRIES
    requires Up(role, Up(role, t)) == root
    ensures var v := Join(Ix(role, Up(role, t)), Ix(role, t), k);
            0 <= v < VPNS && LowTable(mem, root, v) == t && Px(0, v) == k
  {
    var m := Up(role, t);
    LevelUp(mem, role, t);
    LevelUp(mem, role, m);
    SplitJoin(Ix(role, m), Ix(role, t), k);
    WalkReaches(mem, role, t, Join(Ix(role, m), Ix(role, t), k));
  }
}
