/** free_proc: giving back everything a dead process holds. */
module Reaping {
  import opened Sv39
  import opened PageTree
  import opened AllocTracker
  import opened PageMemory
  import opened Teardown

  /** The frames of a set are gone from s0, and nothing else has changed. */
  ghost predicate Released(s0: Snapshot, s: Snapshot, gone: set<int>) {
    && Survives(s0, s)
    && (forall f :: f in s0.role ==> (f in s.role <==> f !in gone))
  }

  lemma ReleaseOne(s0: Snapshot, s: Snapshot, s': Snapshot, gone: set<int>, f: int, link: int)
    requires WellFormed(s) && Released(s0, s, gone) && f in s.role && s.role[f] == Plain
    requires s' == Snapshot(Store(s.mem, f, 0, link), s.role - {f}, s.owned - {f}, s.next, s.pid)
    ensures WellFormed(s') && Released(s0, s', gone + {f})
  {
    PlainHasNoChildren(s.mem, s.role, f);
    FreeOrphan(s.mem, s.role, f, link);
  }

  // ---------------------------------------------------------------- free_pages_range

  ghost function Frames(lo: int, n: int): (s: set<int>)
    requires 0 <= n
    ensures forall f :: f in s <==> lo <= f < lo + n
    decreases n
  {
    if n == 0 then {} else Frames(lo, n - 1) + {lo + n - 1}
  }

  /** One turn of free_pages_range: the record of the first page is dropped (again), then the page itself is freed. */
  method FreeRangePage(ram: PageMemory, pa: int, i: nat, ghost s0: Snapshot, ghost gone: set<int>)
    requires Sound(ram) && Released(s0, Now(ram), gone)
    requires pa + i in ram.role && ram.role[pa + i] == Plain && (i > 0 ==> pa !in ram.role)
    modifies ram, ram.tracker, ram.tracker.table
    ensures Sound(ram) && Released(s0, Now(ram), gone + {pa + i})
  {
    ghost var s := Now(ram);
    var f := pa + i;
    ram.tracker.TrackFree(pa, 1);
    ghost var link := ram.freeList;
    ram.FreePage(f);
    assert ram.tracker.owned == s.owned - {f};
    ReleaseOne(s0, s, Now(ram), gone, f, link);
  }

  /** free_pages_range on a run of plain frames. */
  method FreePagesRange(ram: PageMemory, pa: int, npages: nat)
    requires Sound(ram)
    requires forall f :: pa <= f < pa + npages ==> f in ram.role && ram.role[f] == Plain
    modifies ram, ram.tracker, ram.tracker.table
    ensures Sound(ram) && Released(old(Now(ram)), Now(ram), Frames(pa, npages))
  {
    ghost var s0 := Now(ram);
    for i := 0 to npages
      invariant Sound(ram) && Released(s0, Now(ram), Frames(pa, i))
    {
      FreeRangePage(ram, pa, i, s0, Frames(pa, i));
      assert Frames(pa, i + 1) == Frames(pa, i) + {pa + i};
    }
  }

  // ---------------------------------------------------------------- free_all_tracked_for_pid

  ghost function OwnedFrames(owned: map<int, int>, pid: int): set<int> {
    set f | f in owned && owned[f] == pid
  }

  /** The records of pid in the first i slots are gone, with their frames. */
  ghost predicate SweptTo(s0: Snapshot, s: Snapshot, table: seq<Slot>, pid: int, i: int)
    requires 0 <= i <= |table|
  {
    && Survives(s0, s)
    && (forall f :: f in s0.role && f !in s.role ==> f in s0.owned && s0.owned[f] == pid)
    && (forall j :: 0 <= j < i ==> !(table[j].used && table[j].owner == pid))
  }

  lemma SweepStep(s0: Snapshot, s: Snapshot, s': Snapshot, table: seq<Slot>, table': seq<Slot>, pid: int, i: int, link: int)
    requires 0 <= i < |table| == |table'| && SweptTo(s0, s, table, pid, i) && Tracks(table, s.owned)
    requires table[i].used && table[i].owner == pid && table[i].frame in s.role
    requires forall j :: 0 <= j < |table| ==>
               table'[j] == if table[j].used && table[j].frame == table[i].frame then table[j].(used := false) else table[j]
    requires var f := table[i].frame;
             s' == Snapshot(Store(s.mem, f, 0, link), s.role - {f}, s.owned - {f}, s.next, s.pid)
    ensures SweptTo(s0, s', table', pid, i + 1)
  {
    var f := table[i].frame;
    assert f in s.owned && s.owned[f] == pid;
  }

  /** The frames charged to pid that are in use are plain. */
  ghost predicate ChargedArePlain(s: Snapshot, pid: int) {
    forall f :: f in s.owned && s.owned[f] == pid && f in s.role ==> s.role[f] == Plain
  }

  /** Trees keep their shape while plain frames, and only those, are freed. */
  lemma PlainGone(s0: Snapshot, s: Snapshot)
    requires WellFormed(s0) && Survives(s0, s)
    requires forall f :: f in s0.role && f !in s.role ==> s0.role[f] == Plain
    ensures WellFormed(s)
  {
    forall u, j | IsBranch(s.role, u) && 0 <= j < ENTRIES ensures BranchEntry(s.mem, s.role, u, j) {
      assert BranchEntry(s0.mem, s0.role, u, j);
      assert Entry(s.mem, u, j) == Entry(s0.mem, u, j);
    }
    forall u, j | IsTable(s.role, u, 0) && 0 <= j < ENTRIES ensures LeafEntry(s.mem, s.role, u, j) {
      assert LeafEntry(s0.mem, s0.role, u, j);
      assert Entry(s.mem, u, j) == Entry(s0.mem, u, j);
    }
    forall d | d in s.role && (s.role[d].Mid? || s.role[d].Low?) ensures HasParent(s.mem, s.role, d) {
      assert HasParent(s0.mem, s0.role, d);
      assert s0.role[s.role[d].up] != Plain;
      assert Entry(s.mem, s.role[d].up, s.role[d].ix) == Entry(s0.mem, s.role[d].up, s.role[d].ix);
    }
    forall d | d in s.role && s.role[d].User? ensures HasLeaf(s.mem, s.role, d) {
      assert HasLeaf(s0.mem, s0.role, d);
      assert s0.role[s.role[d].up] != Plain;
      assert Entry(s.mem, s.role[d].up, s.role[d].ix) == Entry(s0.mem, s.role[d].up, s.role[d].ix);
    }
  }

  /** free_all_tracked_for_pid: every frame still charged to pid is freed, once, whatever it is used for, and no record
      of pid remains. The trees stay well shaped when all those frames are plain. The record counter is decremented
      twice for each of them, by free_page and again here. */
  method FreeAllTracked(ram: PageMemory, pid: int)
    requires ram.Valid()
    modifies ram, ram.tracker, ram.tracker.table
    ensures ram.Valid() && Released(old(Now(ram)), Now(ram), OwnedFrames(old(ram.tracker.owned), pid))
    ensures old(Sound(ram) && ChargedArePlain(Now(ram), pid)) ==> Sound(ram)
    ensures ram.tracker.count == old(ram.tracker.count) - 2 * (old(|ram.tracker.owned|) - |ram.tracker.owned|)
  {
    ghost var s0 := Now(ram);
    for i := 0 to ram.tracker.table.Length
      invariant ram.Valid() && SweptTo(s0, Now(ram), ram.tracker.table[..], pid, i)
      invariant ram.tracker.count == old(ram.tracker.count) - 2 * (|s0.owned| - |ram.tracker.owned|)
    {
      FreeRecord(ram, pid, i, s0);
    }
    NoRecordLeft(s0, Now(ram), ram.tracker.table[..], pid);
    if WellFormed(s0) && ChargedArePlain(s0, pid) {
      PlainGone(s0, Now(ram));
    }
  }

  lemma NoRecordLeft(s0: Snapshot, s: Snapshot, table: seq<Slot>, pid: int)
    requires SweptTo(s0, s, table, pid, |table|) && Tracks(table, s.owned)
    ensures Released(s0, s, OwnedFrames(s0.owned, pid))
  {
  }

  /** One turn of the loop in free_all_tracked_for_pid, on slot i. */
  method FreeRecord(ram: PageMemory, pid: int, i: nat, ghost s0: Snapshot)
    requires ram.Valid() && i < ram.tracker.table.Length && SweptTo(s0, Now(ram), ram.tracker.table[..], pid, i)
    modifies ram, ram.tracker, ram.tracker.table
    ensures ram.Valid() && SweptTo(s0, Now(ram), ram.tracker.table[..], pid, i + 1)
    ensures ram.tracker.count - 2 * |ram.tracker.owned| == old(ram.tracker.count - 2 * |ram.tracker.owned|)
  {
    var e := ram.tracker.table[i];
    if !e.used || e.owner != pid {
      return;
    }
    ghost var s, table, link := Now(ram), ram.tracker.table[..], ram.freeList;
    assert table[i] == e;
    // Every record is of one page.
    ram.FreePage(e.frame);
    SweepStep(s0, s, Now(ram), table, ram.tracker.table[..], pid, i, link);
    RewriteUnused(ram.tracker.table[..], ram.tracker.owned, i, EMPTY_SLOT);
    ghost var table1 := ram.tracker.table[..];
    ram.tracker.table[i] := EMPTY_SLOT;
    ram.tracker.count := ram.tracker.count - 1;
    assert ram.tracker.table[..] == table1[i := EMPTY_SLOT];
  }

  // ---------------------------------------------------------------- free_proc

  /** What a process holds: its flat image, its address space, and every other page charged to its pid. */
  ghost predicate Held(s: Snapshot, root: int, image: int, n: int, pid: int, f: int) {
    image <= f < image + n || f == root || Under(s.role, root, f) || (f in s.owned && s.owned[f] == pid)
  }

  /** Pages charged to pid are plain or belong to the address space under root: no other live process uses them. */
  ghost predicate OwnsNothingElse(s: Snapshot, root: int, pid: int) {
    forall f :: f in s.owned && s.owned[f] == pid && f in s.role ==> s.role[f] == Plain || f == root || Under(s.role, root, f)
  }

  /** The root of the tree that frame f belongs to, for a frame that is neither a root nor plain. */
  ghost function TopOf(role: Roles, f: int): int {
    if Up(role, Up(role, f)) == NONE then Up(role, f)
    else if Up(role, Up(role, Up(role, f))) == NONE then Up(role, Up(role, f))
    else Up(role, Up(role, Up(role, f)))
  }

  lemma UpInUse(s: Snapshot, f: int)
    requires WellFormed(s) && f in s.role && s.role[f] != Plain && s.role[f] != Root
    ensures Up(s.role, f) in s.role
  {
    if s.role[f].User? { assert HasLeaf(s.mem, s.role, f); } else { assert HasParent(s.mem, s.role, f); }
  }

  lemma TopIsRoot(s: Snapshot, f: int)
    requires WellFormed(s) && NONE !in s.role && f in s.role && s.role[f] != Plain && s.role[f] != Root
    ensures IsTable(s.role, TopOf(s.role, f), 2) && Under(s.role, TopOf(s.role, f), f)
  {
    var f1 := Up(s.role, f);
    UpInUse(s, f);
    LevelUp(s.mem, s.role, f);
    if s.role[f1] != Root {
      var f2 := Up(s.role, f1);
      UpInUse(s, f1);
      LevelUp(s.mem, s.role, f1);
      if s.role[f2] != Root {
        UpInUse(s, f2);
        LevelUp(s.mem, s.role, f2);
      }
    }
  }

  lemma UnderOneRoot(s: Snapshot, r: int, r': int, f: int)
    requires WellFormed(s) && NONE !in s.role && IsTable(s.role, r, 2) && IsTable(s.role, r', 2)
    requires Under(s.role, r, f) && Under(s.role, r', f)
    ensures r == r' && s.role[f] != Plain && s.role[f] != Root
  {
    LevelUp(s.mem, s.role, f);
    LevelUp(s.mem, s.role, Up(s.role, f));
    LevelUp(s.mem, s.role, Up(s.role, Up(s.role, f)));
  }

  /** Another root is f, or f hangs under it. */
  ghost predicate Elsewhere(s: Snapshot, root: int, r: int, f: int) {
    IsTable(s.role, r, 2) && r != root && (f == r || Under(s.role, r, f))
  }

  lemma NotElsewhere(s: Snapshot, root: int, f: int)
    requires WellFormed(s) && NONE !in s.role && IsTable(s.role, root, 2) && f in s.role
    ensures s.role[f] == Plain || f == root || Under(s.role, root, f) <==> forall r :: !Elsewhere(s, root, r, f)
  {
    forall r | IsTable(s.role, r, 2) && Under(s.role, r, f) ensures s.role[f] != Plain && s.role[f] != Root && (Under(s.role, root, f) ==> r == root) {
      UnderOneRoot(s, r, r, f);
      if Under(s.role, root, f) { UnderOneRoot(s, r, root, f); }
    }
    if s.role[f] == Root {
      assert f != root ==> Elsewhere(s, root, f, f);
    } else if s.role[f] != Plain {
      TopIsRoot(s, f);
      assert TopOf(s.role, f) != root ==> Elsewhere(s, root, TopOf(s.role, f), f);
    }
  }

  /** What the condition comes to: no page charged to pid is another root, or hangs under one. */
  lemma OwnsNothingElseIff(s: Snapshot, root: int, pid: int)
    requires WellFormed(s) && NONE !in s.role && IsTable(s.role, root, 2)
    ensures OwnsNothingElse(s, root, pid) <==>
              forall f, r :: f in s.owned && s.owned[f] == pid && f in s.role ==> !Elsewhere(s, root, r, f)
  {
    forall f | f in s.role
      ensures s.role[f] == Plain || f == root || Under(s.role, root, f) <==> forall r :: !Elsewhere(s, root, r, f)
    {
      NotElsewhere(s, root, f);
    }
  }

  /** What a process holds is gone, and the rest of the frames in use are still in use. */
  ghost predicate HeldIsGone(s0: Snapshot, s: Snapshot, root: int, image: int, n: int, pid: int) {
    forall f :: f in s0.role ==> (f in s.role <==> !Held(s0, root, image, n, pid, f))
  }

  /** Every frame of every other address space is still in use. */
  ghost predicate OthersSpared(s0: Snapshot, s: Snapshot, root: int) {
    forall f, r :: Elsewhere(s0, root, r, f) ==> f in s.role
  }

  /** Reaping a process leaves the other address spaces whole exactly when its pid is charged with nothing of theirs. */
  lemma ReapingSparesOthersIff(s0: Snapshot, s: Snapshot, root: int, image: int, n: int, pid: int)
    requires WellFormed(s0) && NONE !in s0.role && s0.owned.Keys <= s0.role.Keys && IsTable(s0.role, root, 2)
    requires forall f :: image <= f < image + n ==> f in s0.role && s0.role[f] == Plain
    requires HeldIsGone(s0, s, root, image, n, pid)
    ensures OthersSpared(s0, s, root) <==> OwnsNothingElse(s0, root, pid)
  {
    OwnsNothingElseIff(s0, root, pid);
    forall f, r | Elsewhere(s0, root, r, f) ensures f in s0.role && (f in s.role <==> !(f in s0.owned && s0.owned[f] == pid)) {
      ElsewhereIsTree(s0, root, r, f);
    }
    if !OwnsNothingElse(s0, root, pid) {
      var f, r :| f in s0.owned && s0.owned[f] == pid && f in s0.role && Elsewhere(s0, root, r, f);
      assert f !in s.role;
    }
  }

  lemma ElsewhereIsTree(s: Snapshot, root: int, r: int, f: int)
    requires WellFormed(s) && NONE !in s.role && IsTable(s.role, root, 2) && Elsewhere(s, root, r, f)
    ensures f in s.role && s.role[f] != Plain && f != root && !Under(s.role, root, f)
  {
    LevelUp(s.mem, s.role, f);
    LevelUp(s.mem, s.role, Up(s.role, f));
    LevelUp(s.mem, s.role, Up(s.role, Up(s.role, f)));
  }

  lemma ReapedByParts(s0: Snapshot, s1: Snapshot, s2: Snapshot, s: Snapshot, root: int, image: int, n: nat, pid: int)
    requires WellFormed(s0) && WellFormed(s1) && NONE !in s0.role && s0.owned.Keys <= s0.role.Keys
    requires IsTable(s1.role, root, 2)
    requires Released(s0, s1, Frames(image, n)) && Dismantled(s1, s2, root) && Released(s2, s, OwnedFrames(s2.owned, pid))
    ensures Survives(s0, s) && HeldIsGone(s0, s, root, image, n, pid)
  {
    forall f | f in s1.role ensures Via(s1.role, root, f) == Via(s0.role, root, f) {
      ViaRestrict(s1.mem, s0.role, s1.role, root, f);
    }
  }

  /** free_proc for a process with an image and a page table. Everything it holds is freed, once; every other
      frame in use keeps its contents; no tracker record of its pid remains. The other address spaces stay whole
      exactly when the pid is charged with none of their frames, and then all trees keep their shape. */
  method FreeProc(ram: PageMemory, root: int, image: int, imagePages: nat, heapEnd: int, stackTop: int, pid: int)
    requires Sound(ram) && IsTable(ram.role, root, 2)
    requires LeafPassEnds(heapEnd, stackTop)
    requires forall f :: image <= f < image + imagePages ==> f in ram.role && ram.role[f] == Plain
    modifies ram, ram.tracker, ram.tracker.table
    ensures ram.Valid() && Survives(old(Now(ram)), Now(ram))
    ensures HeldIsGone(old(Now(ram)), Now(ram), root, image, imagePages, pid)
    ensures forall f :: f in ram.tracker.owned ==> ram.tracker.owned[f] != pid
    ensures OthersSpared(old(Now(ram)), Now(ram), root) <==> old(OwnsNothingElse(Now(ram), root, pid))
    ensures old(OwnsNothingElse(Now(ram), root, pid)) ==> Sound(ram)
  {
    ghost var s0 := Now(ram);
    FreePagesRange(ram, image, imagePages);
    ghost var s1 := Now(ram);
    FreeUserspace(ram, root, heapEnd, stackTop);
    ghost var s2 := Now(ram);
    if OwnsNothingElse(s0, root, pid) {
      RemainderIsPlain(s0, s1, s2, root, pid);
    }
    FreeAllTracked(ram, pid);
    ReapedByParts(s0, s1, s2, Now(ram), root, image, imagePages, pid);
    ReapingSparesOthersIff(s0, Now(ram), root, image, imagePages, pid);
  }

  lemma RemainderIsPlain(s0: Snapshot, s1: Snapshot, s2: Snapshot, root: int, pid: int)
    requires WellFormed(s0) && WellFormed(s1) && NONE !in s0.role && IsTable(s1.role, root, 2)
    requires OwnsNothingElse(s0, root, pid) && OnlyFreed(s0, s1) && Dismantled(s1, s2, root)
    ensures forall f :: f in s2.owned && s2.owned[f] == pid ==> f in s2.role && s2.role[f] == Plain
  {
    forall f | f in s1.role ensures Via(s1.role, root, f) == Via(s0.role, root, f) {
      ViaRestrict(s1.mem, s0.role, s1.role, root, f);
    }
  }
}
