/** Turning an ELF file into a flat image, and the image into a program. */
module Elf {
  import opened Wrappers
  import opened Arithmetic
  import opened Sv39
  import opened PageTree
  import opened PageMemory
  import opened PageTables
  import opened Teardown
  import opened AddressSpace
  import opened HeapGrowth
  import opened Fork
  import opened Build
  import opened Bytes
  import opened CopyToUser

  const PT_LOAD := 1

  /** The fields of a program header that the loader reads. */
  datatype Phdr = Phdr(ptype: int, offset: int, vaddr: int, filesz: int, memsz: int)

  // ---------------------------------------------------------------- size pass

  ghost predicate Covers(phdrs: seq<Phdr>, n: int, lo: int, hi: int)
    requires n <= |phdrs|
  {
    forall j :: 0 <= j < n && phdrs[j].ptype == PT_LOAD ==> lo <= phdrs[j].vaddr && phdrs[j].vaddr + phdrs[j].memsz <= hi
  }

  /** The first loop: the lowest start and the highest end of the loadable segments. */
  method Extent(phdrs: seq<Phdr>) returns (lo: int, hi: int)
    requires forall j :: 0 <= j < |phdrs| && phdrs[j].ptype == PT_LOAD ==>
               0 <= phdrs[j].vaddr && 0 <= phdrs[j].memsz && phdrs[j].vaddr + phdrs[j].memsz < WORD_LIMIT
    ensures Covers(phdrs, |phdrs|, lo, hi) && 0 <= hi
    ensures lo == WORD_LIMIT - 1 || exists j :: 0 <= j < |phdrs| && phdrs[j].ptype == PT_LOAD && phdrs[j].vaddr == lo
    ensures hi == 0 || exists j :: 0 <= j < |phdrs| && phdrs[j].ptype == PT_LOAD && phdrs[j].vaddr + phdrs[j].memsz == hi
  {
    lo, hi := WORD_LIMIT - 1, 0;
    for i := 0 to |phdrs|
      invariant 0 <= hi && Covers(phdrs, i, lo, hi)
      invariant lo == WORD_LIMIT - 1 || exists j :: 0 <= j < i && phdrs[j].ptype == PT_LOAD && phdrs[j].vaddr == lo
      invariant hi == 0 || exists j :: 0 <= j < i && phdrs[j].ptype == PT_LOAD && phdrs[j].vaddr + phdrs[j].memsz == hi
    {
      if phdrs[i].ptype == PT_LOAD {
        if phdrs[i].vaddr < lo {
          lo := phdrs[i].vaddr;
        }
        if phdrs[i].vaddr + phdrs[i].memsz > hi {
          hi := phdrs[i].vaddr + phdrs[i].memsz;
        }
      }
    }
  }

  // ---------------------------------------------------------------- segment copy

  ghost predicate InFile(file: seq<Byte>, p: Phdr) {
    0 <= p.offset && 0 <= p.filesz <= p.memsz && p.offset + p.filesz <= |file|
  }

  ghost predicate Loadable(file: seq<Byte>, phdrs: seq<Phdr>) {
    forall j :: 0 <= j < |phdrs| && phdrs[j].ptype == PT_LOAD ==> InFile(file, phdrs[j])
  }

  /** The byte the flat image holds for address a once the first n headers are copied: the last segment whose file
      part covers a provides it, and it is zero if none does. */
  function ImageByte(file: seq<Byte>, phdrs: seq<Phdr>, n: nat, a: int): Byte
    requires n <= |phdrs| && Loadable(file, phdrs)
  {
    if n == 0 then 0
    else
      var p := phdrs[n - 1];
      assert p.ptype == PT_LOAD ==> InFile(file, phdrs[n - 1]);
      if p.ptype == PT_LOAD && p.vaddr <= a < p.vaddr + p.filesz then file[p.offset + a - p.vaddr]
      else ImageByte(file, phdrs, n - 1, a)
  }

  /** No two loadable segments share an address. */
  ghost predicate Disjoint(phdrs: seq<Phdr>) {
    forall i, j :: 0 <= i < j < |phdrs| && phdrs[i].ptype == PT_LOAD && phdrs[j].ptype == PT_LOAD ==>
      phdrs[i].vaddr + phdrs[i].memsz <= phdrs[j].vaddr || phdrs[j].vaddr + phdrs[j].memsz <= phdrs[i].vaddr
  }

  /** What the Program Header section of the System V gABI, chapter 5, requires of byte a of a segment: the file's
      byte for the first p_filesz bytes, and zero from there to p_memsz. */
  function SegmentByte(file: seq<Byte>, p: Phdr, a: int): Byte
    requires InFile(file, p) && p.vaddr <= a
  {
    if a < p.vaddr + p.filesz then file[p.offset + a - p.vaddr] else 0
  }

  lemma {:induction false} ImageHoldsSegments(file: seq<Byte>, phdrs: seq<Phdr>, n: nat, i: int, a: int)
    requires n <= |phdrs| && 0 <= i < |phdrs| && phdrs[i].ptype == PT_LOAD && Disjoint(phdrs)
    requires Loadable(file, phdrs)
    requires phdrs[i].vaddr <= a < phdrs[i].vaddr + phdrs[i].memsz
    ensures ImageByte(file, phdrs, n, a) == if i < n then SegmentByte(file, phdrs[i], a) else 0
    decreases n
  {
    if n > 0 {
      ImageHoldsSegments(file, phdrs, n - 1, i, a);
    }
  }

  // ---------------------------------------------------------------- the flat image in memory

  lemma RunIsPlain(s: Snapshot, s': Snapshot, f: int, n: int)
    requires WellFormed(s) && 0 < f && forall g :: f <= g < f + n ==> g !in s.role
    requires s'.mem == ZeroFrames(s.mem, f, f + n) && s'.role == WithPlain(s.role, f, f + n)
    ensures WellFormed(s') && SameLookups(s.mem, s'.mem, s.role)
  {
    TreeFrame(s.mem, s'.mem, s.role, s'.role);
    forall t, k | IsTable(s'.role, t, 0) && 0 <= k < ENTRIES ensures LeafEntry(s'.mem, s'.role, t, k) {
      assert LeafEntry(s.mem, s.role, t, k);
    }
    forall g | g in s'.role && s'.role[g].User? ensures HasLeaf(s'.mem, s'.role, g) {
      assert HasLeaf(s.mem, s.role, g);
    }
  }

  lemma GrowsByRun(s: Snapshot, s': Snapshot, f: int, n: int)
    requires WellFormed(s) && s.owned.Keys <= s.role.Keys && 0 < f
    requires forall g :: f <= g < f + n ==> g !in s.role
    requires s'.mem == ZeroFrames(s.mem, f, f + n) && s'.role == WithPlain(s.role, f, f + n) && s'.pid == s.pid
    requires 0 < n && (s'.owned == s.owned || s'.owned == s.owned[f := s.pid])
    ensures Grows(s, s', NONE) && WellFormed(s')
    ensures forall g :: f <= g < f + n ==> g !in s.role && g in s'.role && s'.role[g] == Plain
    ensures forall g, k :: f <= g < f + n && 0 <= k < ENTRIES ==> Entry(s'.mem, g, k) == 0
  {
    RunIsPlain(s, s', f, n);
  }

  /** Filling frames that no tree uses, and that were not in use in s0. */
  lemma GrowsByFill(s0: Snapshot, s: Snapshot, s': Snapshot, f: int, n: int)
    requires Grows(s0, s, NONE) && WellFormed(s) && s' == s.(mem := s'.mem)
    requires forall g :: f <= g < f + n ==> g in s.role && s.role[g] == Plain && g !in s0.role
    requires forall g, j {:trigger Entry(s'.mem, g, j)} :: 0 <= j < ENTRIES && !(f <= g < f + n) ==> Entry(s'.mem, g, j) == Entry(s.mem, g, j)
    ensures Grows(s0, s', NONE) && WellFormed(s')
  {
    DataWrite(s.mem, s'.mem, s.role);
    forall q, u | IsTable(s0.role, q, 2) && 0 <= u < VPNS ensures LeafPte(s'.mem, q, u) == LeafPte(s0.mem, q, u) {
      assert LeafPte(s.mem, q, u) == LeafPte(s0.mem, q, u);
    }
  }

  /** The flat image of n frames from frame image on holds the program from address lo on. */
  ghost predicate Holds(mem: Memory, image: int, n: int, lo: int, file: seq<Byte>, phdrs: seq<Phdr>, k: nat)
    requires k <= |phdrs| && Loadable(file, phdrs)
  {
    forall a :: lo <= a < lo + n * PAGE_SIZE ==> MemByte(mem, Addr(image) + a - lo) == ImageByte(file, phdrs, k, a)
  }

  /** The second loop: each loadable segment's file part is copied to its place in the flat image. Every write stays
      inside the image. */
  method CopySegments(ram: PageMemory, image: int, n: int, lo: int, file: seq<Byte>, phdrs: seq<Phdr>)
    requires ram.Valid() && 0 <= n && Loadable(file, phdrs)
    requires forall f :: image <= f < image + n ==> f in ram.role
    requires Covers(phdrs, |phdrs|, lo, lo + n * PAGE_SIZE)
    requires forall f, k :: image <= f < image + n && 0 <= k < ENTRIES ==> Entry(ram.mem, f, k) == 0
    modifies ram`mem
    ensures ram.Valid() && Holds(ram.mem, image, n, lo, file, phdrs, |phdrs|)
    ensures forall g, k {:trigger Entry(ram.mem, g, k)} :: 0 <= k < ENTRIES && !(image <= g < image + n) ==>
              Entry(ram.mem, g, k) == Entry(old(ram.mem), g, k)
  {
    ZeroBytes(ram.mem, image, n, lo, file, phdrs);
    for i := 0 to |phdrs|
      invariant ram.Valid() && Holds(ram.mem, image, n, lo, file, phdrs, i)
      invariant forall g, k {:trigger Entry(ram.mem, g, k)} :: 0 <= k < ENTRIES && !(image <= g < image + n) ==>
                  Entry(ram.mem, g, k) == Entry(old(ram.mem), g, k)
    {
      var p := phdrs[i];
      if p.ptype == PT_LOAD {
        CopySegment(ram, image, n, lo, file, phdrs, i);
      }
    }
  }

  lemma ZeroBytes(mem: Memory, image: int, n: int, lo: int, file: seq<Byte>, phdrs: seq<Phdr>)
    requires Loadable(file, phdrs)
    requires forall f, k :: image <= f < image + n && 0 <= k < ENTRIES ==> Entry(mem, f, k) == 0
    ensures Holds(mem, image, n, lo, file, phdrs, 0)
  {
    forall a | lo <= a < lo + n * PAGE_SIZE ensures MemByte(mem, Addr(image) + a - lo) == ImageByte(file, phdrs, 0, a) {
      var b := Addr(image) + a - lo;
      InFrames(b, image, n);
      ByteOfZero(b % 8);
    }
  }

  lemma InFrames(b: int, image: int, n: int)
    requires Addr(image) <= b < Addr(image) + n * PAGE_SIZE
    ensures image <= FrameAt(b) < image + n
  {
  }

  lemma {:induction false} ByteOfZero(j: nat)
    ensures ByteOf(0, j) == 0
  {
    if j > 0 { ByteOfZero(j - 1); }
  }

  method CopySegment(ram: PageMemory, image: int, n: int, lo: int, file: seq<Byte>, phdrs: seq<Phdr>, i: nat)
    requires ram.Valid() && 0 <= n && Loadable(file, phdrs) && i < |phdrs| && phdrs[i].ptype == PT_LOAD
    requires forall f :: image <= f < image + n ==> f in ram.role
    requires Covers(phdrs, |phdrs|, lo, lo + n * PAGE_SIZE)
    requires Holds(ram.mem, image, n, lo, file, phdrs, i)
    modifies ram`mem
    ensures ram.Valid() && Holds(ram.mem, image, n, lo, file, phdrs, i + 1)
    ensures forall g, k {:trigger Entry(ram.mem, g, k)} :: 0 <= k < ENTRIES && !(image <= g < image + n) ==>
              Entry(ram.mem, g, k) == Entry(old(ram.mem), g, k)
  {
    var p := phdrs[i];
    assert InFile(file, phdrs[i]);
    var dest := Addr(image) + (p.vaddr - lo);
    forall b | dest <= b < dest + p.filesz ensures FrameAt(b) in ram.role {
      InFrames(b, image, n);
    }
    MemcpyIn(ram, dest, file[p.offset..p.offset + p.filesz]);
    ghost var next := i + 1;
    forall a | lo <= a < lo + n * PAGE_SIZE
      ensures MemByte(ram.mem, Addr(image) + a - lo) == ImageByte(file, phdrs, next, a)
    {
      assert MemByte(old(ram.mem), Addr(image) + a - lo) == ImageByte(file, phdrs, i, a);
    }
  }

  // ---------------------------------------------------------------- from file to address space

  /** A file this kernel can load: segments in the file, in the 39-bit address space and apart from each other, the
      lowest page being USER_BASE. */
  ghost predicate Program(file: seq<Byte>, phdrs: seq<Phdr>) {
    && Loadable(file, phdrs) && Disjoint(phdrs)
    && (forall j :: 0 <= j < |phdrs| && phdrs[j].ptype == PT_LOAD ==>
          USER_BASE <= phdrs[j].vaddr && 0 <= phdrs[j].memsz && phdrs[j].vaddr + phdrs[j].memsz <= MAXVA)
    && (exists j :: 0 <= j < |phdrs| && phdrs[j].ptype == PT_LOAD && phdrs[j].vaddr < USER_BASE + PAGE_SIZE && 0 < phdrs[j].memsz)
  }

  /** The page behind the highest end of the loadable segments. */
  function TopPage(phdrs: seq<Phdr>): (top: int)
    ensures USER_VPN <= top
  {
    if phdrs == [] then USER_VPN
    else
      var last, before := phdrs[|phdrs| - 1], TopPage(phdrs[..|phdrs| - 1]);
      if last.ptype == PT_LOAD && PageUp(last.vaddr + last.memsz) > before then PageUp(last.vaddr + last.memsz) else before
  }

  /** No loadable segment reaches beyond the top page, and one reaches it unless there is no image at all. */
  lemma {:induction false} TopPageIs(phdrs: seq<Phdr>)
    ensures forall j :: 0 <= j < |phdrs| && phdrs[j].ptype == PT_LOAD ==> PageUp(phdrs[j].vaddr + phdrs[j].memsz) <= TopPage(phdrs)
    ensures TopPage(phdrs) == USER_VPN
         || exists j :: 0 <= j < |phdrs| && phdrs[j].ptype == PT_LOAD && TopPage(phdrs) == PageUp(phdrs[j].vaddr + phdrs[j].memsz)
  {
    if phdrs != [] {
      var n := |phdrs| - 1;
      TopPageIs(phdrs[..n]);
      assert forall j :: 0 <= j < n ==> phdrs[..n][j] == phdrs[j];
    }
  }

  /** The number of pages in the image of a program. */
  function ImagePages(phdrs: seq<Phdr>): nat { TopPage(phdrs) - USER_VPN }

  /** The frames that loading a program takes at most: the flat image, and the address space. */
  function LoadCost(phdrs: seq<Phdr>, sym: Symbols, kb: int, limit: int): nat {
    ImagePages(phdrs) + BuildCost(ImagePages(phdrs), sym, kb, limit)
  }

  lemma CoversImage(file: seq<Byte>, phdrs: seq<Phdr>)
    requires Program(file, phdrs)
    ensures Covers(phdrs, |phdrs|, USER_BASE, USER_BASE + ImagePages(phdrs) * PAGE_SIZE)
    ensures 0 < ImagePages(phdrs) && USER_VPN + ImagePages(phdrs) <= VPNS
  {
    TopPageIs(phdrs);
  }

  /** Rounding the extent outwards gives the pages from USER_BASE to TopPage. */
  lemma LowEnd(file: seq<Byte>, phdrs: seq<Phdr>, lo: int, hi: int)
    requires Program(file, phdrs) && Covers(phdrs, |phdrs|, lo, hi)
    requires lo == WORD_LIMIT - 1 || exists j :: 0 <= j < |phdrs| && phdrs[j].ptype == PT_LOAD && phdrs[j].vaddr == lo
    ensures lo / PAGE_SIZE == USER_VPN
  {
    assert USER_BASE <= lo < USER_BASE + PAGE_SIZE;
  }

  lemma HighEnd(file: seq<Byte>, phdrs: seq<Phdr>, lo: int, hi: int)
    requires Program(file, phdrs) && Covers(phdrs, |phdrs|, lo, hi)
    requires hi == 0 || exists j :: 0 <= j < |phdrs| && phdrs[j].ptype == PT_LOAD && phdrs[j].vaddr + phdrs[j].memsz == hi
    ensures PageUp(hi) == TopPage(phdrs)
  {
    TopPageIs(phdrs);
    assert USER_BASE < hi;
    if TopPage(phdrs) != USER_VPN {
      var j :| 0 <= j < |phdrs| && phdrs[j].ptype == PT_LOAD && TopPage(phdrs) == PageUp(phdrs[j].vaddr + phdrs[j].memsz);
      PagesOrdered(phdrs[j].vaddr + phdrs[j].memsz, hi);
    }
  }

  lemma PagesOrdered(a: int, b: int)
    requires a <= b
    ensures PageUp(a) <= PageUp(b)
  {
  }

  /** The extent rounded outwards to whole pages. */
  method RoundedExtent(ghost file: seq<Byte>, phdrs: seq<Phdr>) returns (minVaddr: int, imageSize: int)
    requires Program(file, phdrs)
    ensures minVaddr == USER_BASE && 0 < imageSize <= MAXVA && imageSize == ImagePages(phdrs) * PAGE_SIZE
  {
    var maxVaddr;
    minVaddr, maxVaddr := Extent(phdrs);
    LowEnd(file, phdrs, minVaddr, maxVaddr);
    HighEnd(file, phdrs, minVaddr, maxVaddr);
    CoversImage(file, phdrs);
    minVaddr := minVaddr / PAGE_SIZE * PAGE_SIZE;
    maxVaddr := (maxVaddr + PAGE_SIZE - 1) / PAGE_SIZE * PAGE_SIZE;
    imageSize := maxVaddr - minVaddr;
  }

  /** Symbols and segments lie below the kernel, the symbols on page boundaries. */
  ghost predicate Fits(phdrs: seq<Phdr>, sym: Symbols, kb: int) {
    && sym.stackBottom % PAGE_SIZE == 0 && sym.stackTop % PAGE_SIZE == 0 && sym.heapStart % PAGE_SIZE == 0
    && 0 <= sym.stackBottom && 0 <= sym.stackTop < Addr(kb) && 0 <= sym.heapStart < Addr(kb)
    && forall j :: 0 <= j < |phdrs| && phdrs[j].ptype == PT_LOAD ==> phdrs[j].vaddr + phdrs[j].memsz <= Addr(kb)
  }

  lemma FitsLaidOut(phdrs: seq<Phdr>, sym: Symbols, kb: int)
    requires Fits(phdrs, sym, kb) && USER_VPN <= kb
    ensures LaidOut(sym, ImagePages(phdrs), kb)
  {
    TopPageIs(phdrs);
  }

  /** The zeroed frames of the flat image. */
  method AllocImage(ram: PageMemory, n: int) returns (r: Option<int>)
    requires Sound(ram) && 0 < n <= VPNS && ram.limit <= VPNS
    modifies ram, ram.tracker, ram.tracker.table
    ensures r.None? <==> if n == 1 then old(ram.Available()) == 0 else old(ram.Room()) < n
    ensures r.Some? ==> ram.Available() == old(ram.Available()) - n && ram.Room() >= old(ram.Room()) - n
    ensures r.Some? ==>
              && Sound(ram) && Grows(old(Now(ram)), Now(ram), NONE)
              && (forall f :: r.value <= f < r.value + n ==> f !in old(ram.role) && f in ram.role && ram.role[f] == Plain)
              && (forall f, k :: r.value <= f < r.value + n && 0 <= k < ENTRIES ==> Entry(ram.mem, f, k) == 0)
  {
    hide Tables, Leaves, Grows, Partition, Linked, WithPlain, ZeroFrames;
    ghost var s0 := Now(ram);
    r := ram.AllocPages(n);
    if r.Some? {
      GrowsByRun(s0, Now(ram), r.value, n);
    }
  }

  /** extract_flat_binary_from_elf up to the point where the process is created: the image frame and its size. None
      stands for PANIC("out of memory"). */
  method ExtractImage(ram: PageMemory, file: seq<Byte>, phdrs: seq<Phdr>) returns (r: Option<int>, imageSize: int)
    requires Sound(ram) && Program(file, phdrs) && ram.limit <= VPNS
    modifies ram, ram.tracker, ram.tracker.table
    ensures imageSize == ImagePages(phdrs) * PAGE_SIZE
    ensures r.None? <==> var n := ImagePages(phdrs); if n == 1 then old(ram.Available()) == 0 else old(ram.Room()) < n
    ensures r.Some? ==> ram.Available() == old(ram.Available()) - ImagePages(phdrs) && ram.Room() >= old(ram.Room()) - ImagePages(phdrs)
    ensures r.Some? ==>
              && Sound(ram) && Grows(old(Now(ram)), Now(ram), NONE)
              && (forall f :: r.value <= f < r.value + ImagePages(phdrs) ==> f !in old(ram.role) && f in ram.role && ram.role[f] == Plain)
              && Holds(ram.mem, r.value, ImagePages(phdrs), USER_BASE, file, phdrs, |phdrs|)
  {
    hide Tables, Leaves, Grows, Holds, ImagePages;
    ghost var s0 := Now(ram);
    var minVaddr;
    minVaddr, imageSize := RoundedExtent(file, phdrs);
    var n := (imageSize + PAGE_SIZE - 1) / PAGE_SIZE;
    WholePages(imageSize);
    CoversImage(file, phdrs);
    r := AllocImage(ram, n);
    if r.Some? {
      ghost var s1 := Now(ram);
      CopySegments(ram, r.value, n, minVaddr, file, phdrs);
      GrowsByFill(s0, s1, Now(ram), r.value, n);
    }
  }

  lemma WholePages(size: int)
    requires 0 < size <= MAXVA && size % PAGE_SIZE == 0
    ensures (size + PAGE_SIZE - 1) / PAGE_SIZE == size / PAGE_SIZE && size / PAGE_SIZE * PAGE_SIZE == size
    ensures 0 < size / PAGE_SIZE <= VPNS
  {
  }

  /** What a program reads at address a of segment i: zero on the pages of the stack and the first heap page, which
      are mapped over the image; elsewhere the file's byte, or zero past the file part. */
  lemma ProgramReads(s1: Snapshot, s: Snapshot, root: int, image: int, n: nat, sym: Symbols, kb: int, limit: int,
                     file: seq<Byte>, phdrs: seq<Phdr>, i: int, a: int)
    requires Program(file, phdrs) && Loaded(s1, s, root, image, n, sym, kb, limit)
    requires Holds(s1.mem, image, n, USER_BASE, file, phdrs, |phdrs|) && Covers(phdrs, |phdrs|, USER_BASE, USER_BASE + n * PAGE_SIZE)
    requires USER_VPN + n <= VPNS
    requires 0 <= i < |phdrs| && phdrs[i].ptype == PT_LOAD && phdrs[i].vaddr <= a < phdrs[i].vaddr + phdrs[i].memsz
    ensures UserByte(s.mem, root, a) == Some(if Remapped(sym, a / PAGE_SIZE) then 0
                                             else if a < phdrs[i].vaddr + phdrs[i].filesz then file[phdrs[i].offset + a - phdrs[i].vaddr]
                                             else 0)
  {
    PageOfProgram(a, n);
    var v := a / PAGE_SIZE;
    assert LoadedPage(s1, s, root, image, n, sym, kb, limit, v);
    if Remapped(sym, v) {
      BlankByte(s1, s, root, v, a);
    } else {
      ProgramByte(s1, s, root, image, v, a);
      assert MemByte(s1.mem, Addr(image) + a - USER_BASE) == ImageByte(file, phdrs, |phdrs|, a);
      ImageHoldsSegments(file, phdrs, |phdrs|, i, a);
    }
  }

  /** An address of the image that belongs to no segment reads zero. */
  lemma GapReads(s1: Snapshot, s: Snapshot, root: int, image: int, n: nat, sym: Symbols, kb: int, limit: int,
                 file: seq<Byte>, phdrs: seq<Phdr>, a: int)
    requires Program(file, phdrs) && Loaded(s1, s, root, image, n, sym, kb, limit)
    requires Holds(s1.mem, image, n, USER_BASE, file, phdrs, |phdrs|)
    requires USER_VPN + n <= VPNS && 0x100_0000 <= a < 0x100_0000 + 4096 * n
    requires forall i :: 0 <= i < |phdrs| && phdrs[i].ptype == 1 ==> !(phdrs[i].vaddr <= a < phdrs[i].vaddr + phdrs[i].memsz)
    ensures UserByte(s.mem, root, a) == Some(0)
  {
    PageOfProgram(a, n);
    var v := a / PAGE_SIZE;
    assert LoadedPage(s1, s, root, image, n, sym, kb, limit, v);
    if Remapped(sym, v) {
      BlankByte(s1, s, root, v, a);
    } else {
      ProgramByte(s1, s, root, image, v, a);
      assert MemByte(s1.mem, Addr(image) + a - USER_BASE) == ImageByte(file, phdrs, |phdrs|, a);
      NoSegment(file, phdrs, |phdrs|, a);
    }
  }

  lemma {:induction false} NoSegment(file: seq<Byte>, phdrs: seq<Phdr>, n: nat, a: int)
    requires n <= |phdrs| && Loadable(file, phdrs)
    requires forall i :: 0 <= i < n && phdrs[i].ptype == PT_LOAD ==> !(phdrs[i].vaddr <= a < phdrs[i].vaddr + phdrs[i].memsz)
    ensures ImageByte(file, phdrs, n, a) == 0
    decreases n
  {
    if n > 0 {
      NoSegment(file, phdrs, n - 1, a);
      assert phdrs[n - 1].ptype == PT_LOAD ==> InFile(file, phdrs[n - 1]);
    }
  }

  /** Loading preserves meaning at address a exactly when its page is not mapped over, or its byte is zero anyway. */
  lemma ProgramReadsFile(s1: Snapshot, s: Snapshot, root: int, image: int, n: nat, sym: Symbols, kb: int, limit: int,
                         file: seq<Byte>, phdrs: seq<Phdr>, i: int, a: int)
    requires Program(file, phdrs) && Loaded(s1, s, root, image, n, sym, kb, limit)
    requires Holds(s1.mem, image, n, USER_BASE, file, phdrs, |phdrs|) && Covers(phdrs, |phdrs|, USER_BASE, USER_BASE + n * PAGE_SIZE)
    requires USER_VPN + n <= VPNS
    requires 0 <= i < |phdrs| && phdrs[i].ptype == PT_LOAD && phdrs[i].vaddr <= a < phdrs[i].vaddr + phdrs[i].memsz
    ensures UserByte(s.mem, root, a) == Some(SegmentByte(file, phdrs[i], a))
        <==> !Remapped(sym, a / PAGE_SIZE) || SegmentByte(file, phdrs[i], a) == 0
  {
    ProgramReads(s1, s, root, image, n, sym, kb, limit, file, phdrs, i, a);
  }

  /** A byte of a zeroed user page. */
  lemma BlankByte(s1: Snapshot, s: Snapshot, root: int, v: int, a: int)
    requires FreshPage(s1, s, root, v, USER_RW) && Key(a) == v
    ensures UserByte(s.mem, root, a) == Some(0)
  {
    var f, off := PteFrame(LeafPte(s.mem, root, v)), a % PAGE_SIZE;
    PteRoundTrip(f, USER_RW);
    SplitAddress(f, off);
    ByteOfZero((Addr(f) + off) % 8);
  }

  lemma ProgramByte(s1: Snapshot, s: Snapshot, root: int, image: int, v: int, a: int)
    requires ImagePage(s1, s, root, image, v) && Key(a) == v && a == Addr(v) + a % PAGE_SIZE
    ensures UserByte(s.mem, root, a) == Some(MemByte(s1.mem, Addr(image) + a - USER_BASE))
  {
    var f, src, off := PteFrame(LeafPte(s.mem, root, v)), image + v - USER_VPN, a % PAGE_SIZE;
    PteRoundTrip(f, USER_RWX);
    SplitAddress(f, off);
    SplitAddress(src, off);
    assert Addr(src) + off == Addr(image) + a - USER_BASE;
    SameFrameSameByte(s.mem, f, s1.mem, src, off);
  }

  lemma SameFrameSameByte(mem: Memory, f: int, mem': Memory, f': int, off: int)
    requires SameFrame(mem, f, mem', f') && 0 <= off < PAGE_SIZE
    ensures MemByte(mem, Addr(f) + off) == MemByte(mem', Addr(f') + off)
  {
    SplitAddress(f, off);
    SplitAddress(f', off);
    PageRem8(f, off);
    PageRem8(f', off);
    assert Entry(mem, f, off / 8) == Entry(mem', f', off / 8);
  }

  lemma PageOfProgram(a: int, n: int)
    requires USER_BASE <= a < USER_BASE + n * PAGE_SIZE && USER_VPN + n <= VPNS
    ensures USER_VPN <= a / PAGE_SIZE < USER_VPN + n && Key(a) == a / PAGE_SIZE && a == Addr(a / PAGE_SIZE) + a % PAGE_SIZE
  {
  }
}
