/** Loading a program: the flat image of its file, and the address space built from it. Both kernel_main and exec do
    this. */
module Loading {
  import opened Wrappers
  import opened Sv39
  import opened PageTree
  import opened PageMemory
  import opened PageTables
  import opened Walkers
  import opened Teardown
  import opened AddressSpace
  import opened HeapGrowth
  import opened Build
  import opened Bytes
  import opened CopyToUser
  import opened DirectStores
  import opened Elf
  import opened Kernel
  import P = ProcTable

  /** The space of a process that runs a program with n image pages. */
  ghost function NewSpace(root: int, image: int, n: nat, sym: Symbols, c: Config): P.Space {
    P.Space(root, c.heapStart + PAGE_SIZE, sym.stackTop, image, n)
  }

  /** The frames of the flat image were not in use before, and belong to no address space. */
  ghost predicate FreshImage(s0: Snapshot, s2: Snapshot, sp: P.Space) {
    forall f :: InImage(sp, f) ==> f !in s0.role && f in s2.role && s2.role[f] == Plain
  }

  /** What loading a program does: s2 is the state with the flat image, s the one with the address space. */
  ghost predicate Created(s0: Snapshot, s2: Snapshot, s: Snapshot, sp: P.Space, file: seq<Byte>, phdrs: seq<Phdr>, sym: Symbols, c: Config)
    requires Program(file, phdrs)
  {
    && sp.imagePages == ImagePages(phdrs) && sp == NewSpace(sp.pageTable, sp.image, ImagePages(phdrs), sym, c)
    && Grows(s0, s2, NONE) && Grows(s2, s, sp.pageTable) && sp.pageTable !in s2.role && IsTable(s.role, sp.pageTable, 2)
    && FreshImage(s0, s2, sp)
    && Holds(s2.mem, sp.image, sp.imagePages, USER_BASE, file, phdrs, |phdrs|)
    && Loaded(s2, s, sp.pageTable, sp.image, sp.imagePages, sym, c.kernelBase, c.limit)
  }

  /** The low ten bits of the entries of a loaded program: 31 (V, R, W, X, U) on the pages of its loadable segments, which
      can be executed; 23 (no X) on the pages mapped over them. */
  ghost predicate Executable(mem: Memory, root: int, phdrs: seq<Phdr>, sym: Symbols) {
    forall i, a :: 0 <= i < |phdrs| && phdrs[i].ptype == 1 && phdrs[i].vaddr <= a < phdrs[i].vaddr + phdrs[i].memsz ==>
      LeafPte(mem, root, a / 4096) % 1024 == if Remapped(sym, a / 4096) then 23 else 31
  }

  lemma ProgramRuns(s0: Snapshot, s2: Snapshot, s: Snapshot, sp: P.Space, file: seq<Byte>, phdrs: seq<Phdr>, sym: Symbols, c: Config)
    requires Program(file, phdrs) && Created(s0, s2, s, sp, file, phdrs, sym, c)
    ensures Executable(s.mem, sp.pageTable, phdrs, sym)
  {
    hide Holds, Grows, FreshImage, LeafPte, PtePerms, MakePte;
    CoversImage(file, phdrs);
    forall i, a | 0 <= i < |phdrs| && phdrs[i].ptype == 1 && phdrs[i].vaddr <= a < phdrs[i].vaddr + phdrs[i].memsz
      ensures LeafPte(s.mem, sp.pageTable, a / 4096) % 1024 == if Remapped(sym, a / 4096) then 23 else 31
    {
      PageOfProgram(a, ImagePages(phdrs));
      assert LoadedPage(s2, s, sp.pageTable, sp.image, sp.imagePages, sym, c.kernelBase, c.limit, a / 4096);
      PteBits(PteFrame(LeafPte(s.mem, sp.pageTable, a / 4096)), if Remapped(sym, a / 4096) then USER_RW else USER_RWX);
    }
  }

  /** Loading another program, or forking, leaves a program's entries alone. */
  lemma ExecutableKept(s0: Snapshot, s: Snapshot, other: int, root: int, file: seq<Byte>, phdrs: seq<Phdr>, sym: Symbols)
    requires Grows(s0, s, other) && other != root && IsTable(s0.role, root, 2)
    requires Program(file, phdrs) && Executable(s0.mem, root, phdrs, sym)
    ensures Executable(s.mem, root, phdrs, sym)
  {
    CoversImage(file, phdrs);
    forall i, a | 0 <= i < |phdrs| && phdrs[i].ptype == 1 && phdrs[i].vaddr <= a < phdrs[i].vaddr + phdrs[i].memsz
      ensures LeafPte(s.mem, root, a / 4096) == LeafPte(s0.mem, root, a / 4096)
    {
      PageOfProgram(a, ImagePages(phdrs));
    }
  }

  /** extract_flat_binary_from_elf, and create_init_process or exec_process. None stands for PANIC("out of memory"),
      which does not happen while the flat image fits above the bump pointer and LoadCost frames are available. */
  method LoadProgram(ram: PageMemory, file: seq<Byte>, phdrs: seq<Phdr>, sym: Symbols, c: Config)
    returns (r: Option<P.Space>, ghost s2: Snapshot)
    requires Sound(ram) && c.Valid() && c.Matches(ram)
    requires Program(file, phdrs) && Fits(phdrs, sym, c.kernelBase) && sym.heapStart == c.heapStart
    modifies ram, ram.tracker, ram.tracker.table
    ensures r.None? ==> old(ram.Room()) < ImagePages(phdrs) || old(ram.Available()) < LoadCost(phdrs, sym, c.kernelBase, c.limit)
    ensures r.Some? ==> ram.Room() >= old(ram.Room()) - LoadCost(phdrs, sym, c.kernelBase, c.limit)
    ensures r.Some? ==> Sound(ram) && WellFormed(s2) && Created(old(Now(ram)), s2, Now(ram), r.value, file, phdrs, sym, c)
    ensures r.Some? ==> Executable(ram.mem, r.value.pageTable, phdrs, sym)
    ensures r.Some? ==> r.value.heapEnd == sym.heapStart + 4096 && r.value.userStackTop == sym.stackTop
  {
    hide Tables, Leaves, Executable;
    ghost var s0 := Now(ram);
    var image, imageSize := ExtractImage(ram, file, phdrs);
    s2 := Now(ram);
    if image.None? {
      return None, s2;
    }
    FitsLaidOut(phdrs, sym, c.kernelBase);
    assert imageSize / PAGE_SIZE == ImagePages(phdrs);
    var root := BuildSpace(ram, image.value, imageSize, sym, c.kernelBase);
    if root.None? {
      return None, s2;
    }
    r := Some(P.Space(root.value, sym.heapStart + PAGE_SIZE, sym.stackTop, image.value, imageSize / PAGE_SIZE));
    ProgramRuns(s0, s2, Now(ram), r.value, file, phdrs, sym, c);
  }

  /** A program of 17 pages, whose stack lies over the last one. */
  const SHORT_HEADERS := [Phdr(PT_LOAD, 0, 0x100_0000, 0x1_1000, 0x1_1000)]
  const SHORT_SYMBOLS := Symbols(0x101_0000, 0x102_0000, 0x300_0000)

  /** What its file holds for the start of the last page cannot be read once it is loaded. */
  lemma StackHidesBytes(file: seq<Byte>, s0: Snapshot, s2: Snapshot, s: Snapshot, sp: P.Space, c: Config)
    requires |file| == 0x1_1000 && file[0x1_0000] == 7 && 0x3001 <= c.kernelBase
    ensures Program(file, SHORT_HEADERS) && Fits(SHORT_HEADERS, SHORT_SYMBOLS, c.kernelBase)
    ensures SegmentByte(file, SHORT_HEADERS[0], 0x101_0000) == 7
    ensures Created(s0, s2, s, sp, file, SHORT_HEADERS, SHORT_SYMBOLS, c) ==> UserByte(s.mem, sp.pageTable, 0x101_0000) == Some(0)
  {
    assert SHORT_HEADERS[0].vaddr < USER_BASE + PAGE_SIZE;
    if Created(s0, s2, s, sp, file, SHORT_HEADERS, SHORT_SYMBOLS, c) {
      CoversImage(file, SHORT_HEADERS);
      ProgramReads(s2, s, sp.pageTable, sp.image, sp.imagePages, SHORT_SYMBOLS, c.kernelBase, c.limit, file, SHORT_HEADERS, 0, 0x101_0000);
    }
  }

  /** Its image takes 17 frames, and its address space 42 and the tables for the kernel. */
  lemma ShortCost(kb: int, limit: int)
    ensures ImagePages(SHORT_HEADERS) == 17
    ensures LoadCost(SHORT_HEADERS, SHORT_SYMBOLS, kb, limit) == 59 + TableCost(kb, limit)
  {
    TopPageIs(SHORT_HEADERS);
    assert PageUp(SHORT_HEADERS[0].vaddr + SHORT_HEADERS[0].memsz) == 0x1011;
    assert TableCost(0x1000, 0x1011) == 2 == TableCost(0x1010, 0x1021);
  }

  /** It is loaded when there are frames for it, and then reads 0 where its file holds 7. */
  method LoadShort(ram: PageMemory, file: seq<Byte>, c: Config) returns (r: Option<P.Space>)
    requires Sound(ram) && c.Valid() && c.Matches(ram) && 0x3001 <= c.kernelBase && c.heapStart == 0x300_0000
    requires |file| == 0x1_1000 && file[0x1_0000] == 7
    modifies ram, ram.tracker, ram.tracker.table
    ensures r.None? ==> old(ram.Room()) < 17 || old(ram.Available()) < 59 + TableCost(c.kernelBase, c.limit)
    ensures Program(file, SHORT_HEADERS) && SegmentByte(file, SHORT_HEADERS[0], 0x101_0000) == 7
    ensures r.Some? ==> Sound(ram) && UserByte(ram.mem, r.value.pageTable, 0x101_0000) == Some(0)
  {
    hide Program, Fits, Created, SegmentByte, UserByte, LoadCost, ImagePages, Tables, Leaves;
    ghost var s0 := Now(ram);
    StackHidesBytes(file, s0, s0, s0, P.NO_SPACE, c);
    ShortCost(c.kernelBase, c.limit);
    ghost var s2;
    r, s2 := LoadProgram(ram, file, SHORT_HEADERS, SHORT_SYMBOLS, c);
    if r.Some? {
      StackHidesBytes(file, s0, s2, Now(ram), r.value, c);
    }
  }

  /** A program that has just been loaded has a good address space. */
  lemma CreatedSpace(s0: Snapshot, s2: Snapshot, s: Snapshot, sp: P.Space, file: seq<Byte>, phdrs: seq<Phdr>, sym: Symbols, c: Config)
    requires c.Valid() && Program(file, phdrs) && Fits(phdrs, sym, c.kernelBase) && sym.heapStart == c.heapStart
    requires Created(s0, s2, s, sp, file, phdrs, sym, c)
    ensures SpaceOk(s, sp, c)
  {
    FitsLaidOut(phdrs, sym, c.kernelBase);
    LoadedSpace(s2, s, sp.pageTable, sp.image, sp.imagePages, sym, c);
  }

  /** After loading, the stack of the program is there, zeroed and writable: setup_user_arguments can begin. */
  lemma StackIsReady(s0: Snapshot, s2: Snapshot, s: Snapshot, sp: P.Space, file: seq<Byte>, phdrs: seq<Phdr>, sym: Symbols, c: Config)
    requires c.Valid() && Program(file, phdrs) && Created(s0, s2, s, sp, file, phdrs, sym, c)
    requires 0 <= sym.stackBottom <= sym.stackTop <= HALF
    ensures AllUserStorable(s.mem, sp.pageTable, sym.stackBottom, sym.stackTop - sym.stackBottom)
    ensures forall a :: sym.stackBottom <= a < sym.stackTop ==> UserByte(s.mem, sp.pageTable, a) == Some(0)
    ensures forall v :: sym.stackBottom / 4096 <= v <= sym.stackTop / 4096 ==> LeafPte(s.mem, sp.pageTable, v) % 1024 == 23
  {
    hide Holds, Program, Grows, ImagePages;
    forall v | sym.stackBottom / 4096 <= v <= sym.stackTop / 4096 ensures LeafPte(s.mem, sp.pageTable, v) % 1024 == 23 {
      assert LoadedPage(s2, s, sp.pageTable, sp.image, sp.imagePages, sym, c.kernelBase, c.limit, v);
      PteBits(PteFrame(LeafPte(s.mem, sp.pageTable, v)), USER_RW);
    }
    forall a | sym.stackBottom <= a < sym.stackTop
      ensures UserStorable(s.mem, sp.pageTable, a) && UserByte(s.mem, sp.pageTable, a) == Some(0)
    {
      var v := Key(a);
      assert LoadedPage(s2, s, sp.pageTable, sp.image, sp.imagePages, sym, c.kernelBase, c.limit, v);
      assert Remapped(sym, v);
      BlankByte(s2, s, sp.pageTable, v, a);
      PteRoundTrip(PteFrame(LeafPte(s.mem, sp.pageTable, v)), USER_RW);
    }
  }
}
