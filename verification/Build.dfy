/** Building the address space of a program from its flat image: create_init_process and exec_process. */
module Build {
  import opened Wrappers
  import opened Sv39
  import opened PageTree
  import opened PageMemory
  import opened PageTables
  import opened Teardown
  import opened AddressSpace
  import opened HeapGrowth
  import opened Fork

  /** Page v is an own page of the program that holds a copy of a frame of the flat image, which starts at frame
      image and stands for the pages from USER_BASE on. */
  ghost predicate ImagePage(s0: Snapshot, s: Snapshot, root: int, image: int, v: int) {
    OwnPage(s0, s, root, v, USER_RWX) && SameFrame(s.mem, PteFrame(LeafPte(s.mem, root, v)), s0.mem, image + v - USER_VPN)
  }

  ghost predicate ImageRange(s0: Snapshot, s: Snapshot, root: int, image: int, n: int) {
    forall v {:trigger LeafPte(s.mem, root, v)} :: USER_VPN <= v < USER_VPN + n ==> ImagePage(s0, s, root, image, v)
  }

  lemma ImageRangeKept(s0: Snapshot, s: Snapshot, s': Snapshot, root: int, image: int, n: int, lo: int, hi: int)
    requires ImageRange(s0, s, root, image, n) && KeepsOutside(s, s', root, lo, hi) && NONE !in s.role
    requires USER_VPN + n <= lo && USER_VPN + n <= VPNS
    ensures ImageRange(s0, s', root, image, n)
  {
    forall v | USER_VPN <= v < USER_VPN + n ensures ImagePage(s0, s', root, image, v) {
      assert ImagePage(s0, s, root, image, v);
      PteRoundTrip(PteFrame(LeafPte(s.mem, root, v)), USER_RWX);
      assert KeepsPage(s, s', root, v);
    }
  }

  lemma ImageRangeGrows(s0: Snapshot, s: Snapshot, s': Snapshot, root: int, image: int, n: int)
    requires ImageRange(s0, s, root, image, n) && NONE !in s.role && USER_VPN + n < VPNS
    requires KeepsOutside(s, s', root, USER_VPN + n, USER_VPN + n + 1)
    requires ImagePage(s0, s', root, image, USER_VPN + n)
    ensures ImageRange(s0, s', root, image, n + 1)
  {
    ImageRangeKept(s0, s, s', root, image, n, USER_VPN + n, USER_VPN + n + 1);
    forall v | USER_VPN <= v < USER_VPN + n + 1 ensures ImagePage(s0, s', root, image, v) {
      if v == USER_VPN + n {
      } else {
        assert LeafPte(s'.mem, root, v) == LeafPte(s'.mem, root, v);
      }
    }
  }

  /** alloc_pages(1) and memcpy from the flat image. */
  method CopyIn(ram: PageMemory, root: int, src: int, ghost v: int, ghost s0: Snapshot) returns (page: Option<int>)
    requires Sound(ram) && Grows(s0, Now(ram), root) && IsTable(ram.role, root, 2)
    requires src in s0.role && LevelOf(s0.role[src]) < 0
    modifies ram, ram.tracker, ram.tracker.table
    ensures page.None? <==> old(ram.Available()) == 0
    ensures page.Some? ==> ram.Available() == old(ram.Available()) - 1 && ram.Room() >= old(ram.Room()) - 1
    ensures page.Some? ==>
              && Sound(ram) && Grows(s0, Now(ram), root) && IsTable(ram.role, root, 2)
              && page.value !in s0.role && page.value in ram.role && ram.role[page.value] == Plain && page.value < ram.limit
              && SameFrame(ram.mem, page.value, s0.mem, src)
              && KeepsOutside(old(Now(ram)), Now(ram), root, v, v + 1)
              && MissingTables(ram.mem, root, v) == old(MissingTables(ram.mem, root, v))
  {
    ghost var s := Now(ram);
    page := NewDataPage(ram, s0, root);
    if page.Some? {
      ghost var s1 := Now(ram);
      CopyKeepsTables(s.mem, s1.mem, s.role, root, v, page.value, src);
      DataKeepsPages(s, s1, root, v, page.value);
      CopyPage(ram, page.value, src);
      GrowsByWrite(s0, s1, Now(ram), root, page.value);
      DataKeepsPages(s1, Now(ram), root, v, page.value);
      KeepsTransitive(s, s1, Now(ram), root, v, v + 1);
      assert SameFrame(s1.mem, src, s0.mem, src);
    }
  }

  /** alloc_pages(1), memcpy from the flat image, and map_page of one program page. */
  method MapImagePage(ram: PageMemory, root: int, va: int, src: int, ghost v: int, ghost image: int, ghost s0: Snapshot) returns (ok: bool)
    requires Sound(ram) && Grows(s0, Now(ram), root) && IsTable(ram.role, root, 2)
    requires 0 <= v < VPNS && va == Addr(v)
    requires src == image + v - USER_VPN && src in s0.role && LevelOf(s0.role[src]) < 0
    modifies ram, ram.tracker, ram.tracker.table
    ensures ok ==> Sound(ram) && Grows(s0, Now(ram), root) && IsTable(ram.role, root, 2)
    ensures ok <==> old(ram.Available()) >= 1 + old(MissingTables(ram.mem, root, v))
    ensures ok ==> ram.Available() == old(ram.Available()) - 1 - old(MissingTables(ram.mem, root, v))
    ensures ok ==> ram.Room() >= old(ram.Room()) - 1 - old(MissingTables(ram.mem, root, v))
    ensures ok ==> MissingTables(ram.mem, root, v) == 0
    ensures ok ==> ImagePage(s0, Now(ram), root, image, v)
    ensures ok ==> KeepsOutside(old(Now(ram)), Now(ram), root, v, v + 1)
  {
    hide Tables, Leaves, Grows, KeepsOutside, ImagePage, MapsPage, SameFrame, MissingTables;
    ghost var s := Now(ram);
    TwoLevels(ram.mem, root, v);
    var page := CopyIn(ram, root, src, v, s0);
    if page.None? {
      return false;
    }
    ghost var s2 := Now(ram);
    FrameOfAddr(page.value);
    FrameOfAddr(v);
    ok := MapInto(ram, root, va, Addr(page.value), USER_RWX, s0);
    if ok {
      MapKeepsPages(s2, Now(ram), root, v, page.value, USER_RWX);
      KeepsTransitive(s, s2, Now(ram), root, v, v + 1);
      FilledPage(s0, s2, Now(ram), root, v, page.value, image);
    }
  }

  lemma FilledPage(s0: Snapshot, s2: Snapshot, s': Snapshot, root: int, v: int, f: int, image: int)
    requires f !in s0.role && 0 <= v < VPNS && SameFrame(s2.mem, f, s0.mem, image + v - USER_VPN)
    requires IsTable(s2.role, root, 2) && f in s2.role && s2.role[f] == Plain
    requires MapsPage(s2.mem, s2.role, s'.mem, s'.role, root, v, f, USER_RWX)
    ensures ImagePage(s0, s', root, image, v)
  {
    PteRoundTrip(f, USER_RWX);
    assert SameFrame(s'.mem, f, s2.mem, f);
  }

  lemma NothingLoaded(s0: Snapshot, s: Snapshot, root: int, image: int)
    ensures ImageRange(s0, s, root, image, 0)
  {
  }

  lemma ImageTurn(s0: Snapshot, s1: Snapshot, s: Snapshot, s': Snapshot, root: int, image: int, i: nat)
    requires ImageRange(s0, s, root, image, i) && KeepsOutside(s1, s, root, USER_VPN, USER_VPN + i)
    requires ImagePage(s0, s', root, image, USER_VPN + i) && KeepsOutside(s, s', root, USER_VPN + i, USER_VPN + i + 1)
    requires NONE !in s.role && USER_VPN + i < VPNS
    ensures ImageRange(s0, s', root, image, i + 1) && KeepsOutside(s1, s', root, USER_VPN, USER_VPN + i + 1)
  {
    ImageRangeGrows(s0, s, s', root, image, i);
    KeepsWiden(s1, s, s', root, USER_VPN, USER_VPN + i);
  }

  /** The image loop: page i of the program is a copy of frame i of the flat image. */
  method MapImage(ram: PageMemory, root: int, image: int, numPages: nat, ghost s0: Snapshot) returns (ok: bool)
    requires Sound(ram) && Grows(s0, Now(ram), root) && IsTable(ram.role, root, 2)
    requires USER_VPN + numPages <= VPNS
    requires forall i :: image <= i < image + numPages ==> i in s0.role && LevelOf(s0.role[i]) < 0
    modifies ram, ram.tracker, ram.tracker.table
    ensures ok ==> Sound(ram) && Grows(s0, Now(ram), root) && IsTable(ram.role, root, 2)
    ensures ok || old(ram.Available()) < PagesCost(USER_VPN, USER_VPN + numPages)
    ensures ok ==> ram.Available() >= old(ram.Available()) - PagesCost(USER_VPN, USER_VPN + numPages)
    ensures ok ==> ram.Room() >= old(ram.Room()) - PagesCost(USER_VPN, USER_VPN + numPages)
    ensures ok ==> ImageRange(s0, Now(ram), root, image, numPages)
    ensures ok ==> KeepsOutside(old(Now(ram)), Now(ram), root, USER_VPN, USER_VPN + numPages)
  {
    ghost var s1 := Now(ram);
    hide Tables, Leaves, Grows, ImageRange, KeepsOutside, TableCost, MissingTables;
    NoTables(USER_VPN);
    NothingMoved(s1, root, USER_VPN);
    NothingLoaded(s0, s1, root, image);
    for i := 0 to numPages
      invariant ram.Available() >= old(ram.Available()) - i - TableCost(USER_VPN, USER_VPN + i) + Unspent(ram.mem, root, USER_VPN, USER_VPN + i)
      invariant ram.Room() >= old(ram.Room()) - i - TableCost(USER_VPN, USER_VPN + i) + Unspent(ram.mem, root, USER_VPN, USER_VPN + i)
      invariant Sound(ram) && Grows(s0, Now(ram), root) && IsTable(ram.role, root, 2)
      invariant ImageRange(s0, Now(ram), root, image, i) && KeepsOutside(s1, Now(ram), root, USER_VPN, USER_VPN + i)
    {
      ghost var s := Now(ram);
      assert USER_BASE + i * PAGE_SIZE == Addr(USER_VPN + i);
      TablesTurn(s.mem, root, USER_VPN, USER_VPN + i);
      ok := MapImagePage(ram, root, USER_BASE + i * PAGE_SIZE, image + i, USER_VPN + i, image, s0);
      if !ok {
        TableCostGrows(USER_VPN, USER_VPN + i + 1, USER_VPN + numPages);
        return;
      }
      ImageTurn(s0, s1, s, Now(ram), root, image, i);
    }
    TablesSpent(ram.mem, root, USER_VPN, USER_VPN + numPages, USER_VPN + numPages);
    ok := true;
  }

  // ---------------------------------------------------------------- the whole address space

  /** The symbols of the program that the loader passes on: __user_stack_bottom, __user_stack_top, __user_heap_start. */
  datatype Symbols = Symbols(stackBottom: int, stackTop: int, heapStart: int)

  /** What building relies on: page-aligned symbols, and image, stack and first heap page below the kernel. Image,
      stack and heap page may overlap; in the layout of user.ld the image reaches to the top of the stack. */
  ghost predicate LaidOut(sym: Symbols, numPages: int, kb: int) {
    && sym.stackBottom % PAGE_SIZE == 0 && sym.stackTop % PAGE_SIZE == 0 && sym.heapStart % PAGE_SIZE == 0
    && USER_VPN + numPages <= kb
    && 0 <= sym.stackBottom && 0 <= sym.stackTop < Addr(kb) && 0 <= sym.heapStart < Addr(kb)
  }

  /** The pages that are mapped after the image: the stack, including the page at its top, and the first heap page. */
  predicate Remapped(sym: Symbols, v: int) {
    sym.stackBottom / PAGE_SIZE <= v < sym.stackTop / PAGE_SIZE + 1 || v == sym.heapStart / PAGE_SIZE
  }

  /** Page v of a program that has just been loaded: the last of the four loops that reach it decides. */
  ghost predicate LoadedPage(s0: Snapshot, s: Snapshot, root: int, image: int, numPages: int, sym: Symbols, kb: int, limit: int, v: int) {
    if Remapped(sym, v) then FreshPage(s0, s, root, v, USER_RW)
    else if USER_VPN <= v < USER_VPN + numPages then ImagePage(s0, s, root, image, v)
    else LeafPte(s.mem, root, v) == if kb <= v < limit then MakePte(v, KERNEL_RWX) else 0
  }

  /** The pages of a program that has just been loaded: zeroed stack and first heap page, where these do not lie its
      image, the kernel, and nothing else. */
  ghost predicate Loaded(s0: Snapshot, s: Snapshot, root: int, image: int, numPages: int, sym: Symbols, kb: int, limit: int) {
    forall v {:trigger LeafPte(s.mem, root, v)} :: 0 <= v < VPNS ==> LoadedPage(s0, s, root, image, numPages, sym, kb, limit, v)
  }

  lemma FreshPageKept(s0: Snapshot, s: Snapshot, s': Snapshot, root: int, v: int)
    requires FreshPage(s0, s, root, v, USER_RW) && KeepsPage(s, s', root, v) && NONE !in s.role
    ensures FreshPage(s0, s', root, v, USER_RW)
  {
    PteRoundTrip(PteFrame(LeafPte(s.mem, root, v)), USER_RW);
  }

  lemma ImagePageKept(s0: Snapshot, s: Snapshot, s': Snapshot, root: int, image: int, v: int)
    requires ImagePage(s0, s, root, image, v) && KeepsPage(s, s', root, v) && NONE !in s.role
    ensures ImagePage(s0, s', root, image, v)
  {
    PteRoundTrip(PteFrame(LeafPte(s.mem, root, v)), USER_RWX);
  }

  /** The four loops run one after the other; each keeps the pages outside its range. */
  lemma LoadedByParts(s0: Snapshot, s1: Snapshot, s2: Snapshot, s3: Snapshot, s4: Snapshot, root: int, image: int, numPages: nat,
                      sym: Symbols, kb: int, limit: int)
    requires LaidOut(sym, numPages, kb) && kb <= limit <= VPNS
    requires NONE !in s2.role && NONE !in s3.role
    requires forall v :: 0 <= v < VPNS ==> LeafPte(s1.mem, root, v) == if kb <= v < limit then MakePte(v, KERNEL_RWX) else 0
    requires ImageRange(s0, s2, root, image, numPages) && KeepsOutside(s1, s2, root, USER_VPN, USER_VPN + numPages)
    requires var lo, hi := sym.stackBottom / PAGE_SIZE, sym.stackTop / PAGE_SIZE + 1;
             FreshRange(s0, s3, root, lo, hi, USER_RW) && KeepsOutside(s2, s3, root, lo, hi)
    requires var heap := sym.heapStart / PAGE_SIZE;
             FreshRange(s0, s4, root, heap, heap + 1, USER_RW) && KeepsOutside(s3, s4, root, heap, heap + 1)
    ensures Loaded(s0, s4, root, image, numPages, sym, kb, limit)
  {
    forall v | 0 <= v < VPNS ensures LoadedPage(s0, s4, root, image, numPages, sym, kb, limit, v) {
      LoadedPageByParts(s0, s1, s2, s3, s4, root, image, numPages, sym, kb, limit, v);
    }
  }

  lemma LoadedPageByParts(s0: Snapshot, s1: Snapshot, s2: Snapshot, s3: Snapshot, s4: Snapshot, root: int, image: int, numPages: nat,
                          sym: Symbols, kb: int, limit: int, v: int)
    requires LaidOut(sym, numPages, kb) && kb <= limit <= VPNS && 0 <= v < VPNS
    requires NONE !in s2.role && NONE !in s3.role
    requires LeafPte(s1.mem, root, v) == if kb <= v < limit then MakePte(v, KERNEL_RWX) else 0
    requires if USER_VPN <= v < USER_VPN + numPages then ImagePage(s0, s2, root, image, v) else KeepsPage(s1, s2, root, v)
    requires if sym.stackBottom / PAGE_SIZE <= v < sym.stackTop / PAGE_SIZE + 1 then FreshPage(s0, s3, root, v, USER_RW) else KeepsPage(s2, s3, root, v)
    requires if v == sym.heapStart / PAGE_SIZE then FreshPage(s0, s4, root, v, USER_RW) else KeepsPage(s3, s4, root, v)
    ensures LoadedPage(s0, s4, root, image, numPages, sym, kb, limit, v)
  {
    if v != sym.heapStart / PAGE_SIZE {
      if sym.stackBottom / PAGE_SIZE <= v < sym.stackTop / PAGE_SIZE + 1 {
        FreshPageKept(s0, s3, s4, root, v);
      } else if USER_VPN <= v < USER_VPN + numPages {
        ImagePageKept(s0, s2, s3, root, image, v);
        ImagePageKept(s0, s3, s4, root, image, v);
      }
    }
  }

  lemma LayoutPages(sym: Symbols, imageSize: int, kb: int)
    requires 0 <= imageSize && imageSize % PAGE_SIZE == 0 && LaidOut(sym, imageSize / PAGE_SIZE, kb)
    ensures (imageSize + PAGE_SIZE - 1) / PAGE_SIZE == imageSize / PAGE_SIZE
    ensures PageUp(sym.stackTop + 1) == sym.stackTop / PAGE_SIZE + 1
    ensures sym.stackBottom == Addr(sym.stackBottom / PAGE_SIZE) && sym.heapStart == Addr(sym.heapStart / PAGE_SIZE)
    ensures 0 <= sym.stackBottom / PAGE_SIZE && sym.stackTop / PAGE_SIZE < kb && 0 <= sym.heapStart / PAGE_SIZE < kb
  {
  }

  /** A fresh root that maps the kernel and nothing else. */
  method KernelSpace(ram: PageMemory, kernelBase: int) returns (r: Option<int>)
    requires Sound(ram) && 0 < kernelBase && ram.limit <= VPNS
    modifies ram, ram.tracker, ram.tracker.table
    ensures r.None? ==> old(ram.Available()) < 1 + TableCost(kernelBase, ram.limit)
    ensures r.Some? ==> ram.Available() >= old(ram.Available()) - 1 - TableCost(kernelBase, ram.limit) && ram.Room() >= old(ram.Room()) - 1 - TableCost(kernelBase, ram.limit)
    ensures r.Some? ==>
              && Sound(ram) && r.value !in old(ram.role) && IsTable(ram.role, r.value, 2)
              && Grows(old(Now(ram)), Now(ram), r.value)
              && forall v :: 0 <= v < VPNS ==>
                   LeafPte(ram.mem, r.value, v) == if kernelBase <= v < ram.limit then MakePte(v, KERNEL_RWX) else 0
  {
    ghost var s0 := Now(ram);
    r := NewPageTable(ram);
    if r.Some? {
      var ok := MapKernel(ram, r.value, kernelBase, ram.limit, s0);
      if !ok {
        return None;
      }
    }
  }

  /** The frames that the stack and the first heap page take at most. */
  function StackCost(sym: Symbols): nat { PagesCost(sym.stackBottom / PAGE_SIZE, sym.stackTop / PAGE_SIZE + 1) + 3 }

  /** The frames that an address space with n image pages takes at most. */
  function BuildCost(n: nat, sym: Symbols, kb: int, limit: int): nat { 1 + TableCost(kb, limit) + PagesCost(USER_VPN, USER_VPN + n) + StackCost(sym) }

  lemma OnePage(s0: Snapshot, s: Snapshot, root: int, v: int, p: Perms)
    requires FreshPage(s0, s, root, v, p)
    ensures FreshRange(s0, s, root, v, v + 1, p)
  {
  }

  /** The stack loop, up to and including the page at stackTop, and the first heap page. */
  method MapStackAndHeap(ram: PageMemory, pt: int, sym: Symbols, ghost numPages: nat, ghost kb: int, ghost s0: Snapshot)
    returns (ok: bool, ghost s3: Snapshot)
    requires Sound(ram) && Grows(s0, Now(ram), pt) && IsTable(ram.role, pt, 2)
    requires LaidOut(sym, numPages, kb) && kb <= VPNS
    modifies ram, ram.tracker, ram.tracker.table
    ensures ok || old(ram.Available()) < StackCost(sym)
    ensures ok ==> ram.Room() >= old(ram.Room()) - StackCost(sym)
    ensures ok ==> Sound(ram) && Grows(s0, Now(ram), pt) && IsTable(ram.role, pt, 2) && NONE !in s3.role
    ensures ok ==>
              var lo, hi := sym.stackBottom / PAGE_SIZE, sym.stackTop / PAGE_SIZE + 1;
              FreshRange(s0, s3, pt, lo, hi, USER_RW) && KeepsOutside(old(Now(ram)), s3, pt, lo, hi)
    ensures ok ==>
              var heap := sym.heapStart / PAGE_SIZE;
              FreshRange(s0, Now(ram), pt, heap, heap + 1, USER_RW) && KeepsOutside(s3, Now(ram), pt, heap, heap + 1)
  {
    hide Tables, Leaves, Grows, KeepsOutside, FreshRange, FreshPage, PagesCost, MissingTables;
    LayoutPages(sym, numPages * PAGE_SIZE, kb);
    ok := MapFreshRange(ram, pt, sym.stackBottom, sym.stackTop + 1, USER_RW, sym.stackBottom / PAGE_SIZE, s0);
    s3 := Now(ram);
    if ok {
      TwoLevels(ram.mem, pt, sym.heapStart / PAGE_SIZE);
      ok := MapFresh(ram, pt, sym.heapStart, USER_RW, sym.heapStart / PAGE_SIZE, s0);
      if ok {
        OnePage(s0, Now(ram), pt, sym.heapStart / PAGE_SIZE, USER_RW);
      }
    }
  }

  /** create_init_process and exec_process: a fresh page table with the kernel mappings, the image, the stack and
      the first heap page. The loader rounds the image to whole pages. None stands for PANIC("out of memory"),
      and does not happen while BuildCost frames are available. */
  method BuildSpace(ram: PageMemory, image: int, imageSize: int, sym: Symbols, kernelBase: int) returns (r: Option<int>)
    requires Sound(ram) && 0 < kernelBase <= ram.limit <= VPNS
    requires 0 <= imageSize && imageSize % PAGE_SIZE == 0 && LaidOut(sym, imageSize / PAGE_SIZE, kernelBase)
    requires forall i :: image <= i < image + imageSize / PAGE_SIZE ==> i in ram.role && LevelOf(ram.role[i]) < 0
    modifies ram, ram.tracker, ram.tracker.table
    ensures r.None? ==> old(ram.Available()) < BuildCost(imageSize / PAGE_SIZE, sym, kernelBase, ram.limit)
    ensures r.Some? ==> ram.Room() >= old(ram.Room()) - BuildCost(imageSize / PAGE_SIZE, sym, kernelBase, ram.limit)
    ensures r.Some? ==>
              && Sound(ram) && r.value !in old(ram.role) && IsTable(ram.role, r.value, 2)
              && Grows(old(Now(ram)), Now(ram), r.value)
              && Loaded(old(Now(ram)), Now(ram), r.value, image, imageSize / PAGE_SIZE, sym, kernelBase, ram.limit)
  {
    hide Tables, Leaves, Grows, KeepsOutside, FreshRange, ImageRange, Loaded, TableCost, PagesCost, StackCost;
    ghost var s0 := Now(ram);
    r := KernelSpace(ram, kernelBase);
    if r.None? { return; }
    ghost var s1 := Now(ram);
    LayoutPages(sym, imageSize, kernelBase);

    var numPages := (imageSize + PAGE_SIZE - 1) / PAGE_SIZE;
    var ok := MapImage(ram, r.value, image, numPages, s0);
    if !ok { return None; }
    ghost var s2 := Now(ram);

    ghost var s3;
    ok, s3 := MapStackAndHeap(ram, r.value, sym, numPages, kernelBase, s0);
    if !ok { return None; }
    LoadedByParts(s0, s1, s2, s3, Now(ram), r.value, image, numPages, sym, kernelBase, ram.limit);
  }
}
