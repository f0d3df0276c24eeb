/** copy_to_user: writing kernel bytes to user addresses through the page table. */
module CopyToUser {
  import opened Wrappers
  import opened Sv39
  import opened PageTree
  import opened PageMemory
  import opened PageTables
  import opened Walkers
  import opened Teardown
  import opened AddressSpace
  import opened Fork
  import opened Bytes

  /** The byte a user program reads at address va, if va lies in a user page. */
  function UserByte(mem: Memory, root: int, va: int): Option<Byte> {
    var e := LeafPte(mem, root, Key(va));
    if V(e) && U(e) then Some(MemByte(mem, Addr(PteFrame(e)) + va % PAGE_SIZE)) else None
  }

  /** walkaddr finds a physical address for va. */
  ghost predicate Translates(mem: Memory, root: int, va: int, kernelBase: int) {
    va < kernelBase && UserAddress(mem, root, va) != 0
  }

  lemma SplitAddress(f: int, off: int)
    requires 0 <= off < PAGE_SIZE
    ensures (Addr(f) + off) / PAGE_SIZE == f && (Addr(f) + off) % PAGE_SIZE == off
  {
  }

  lemma KeyInjective(va: int, va': int)
    requires 0 <= va < MAXVA && 0 <= va' < MAXVA && Key(va) == Key(va') && va % PAGE_SIZE == va' % PAGE_SIZE
    ensures va == va'
  {
  }

  /** A user byte lies in a user page, and writing it changes no translation. */
  lemma ByteIsData(s: Snapshot, root: int, va: int, b: Byte)
    requires WellFormed(s) && IsTable(s.role, root, 2) && 0 <= va < MAXVA
    requires var e := LeafPte(s.mem, root, Key(va)); V(e) && U(e)
    ensures var f := PteFrame(LeafPte(s.mem, root, Key(va))); FrameAt(ByteAddress(s.mem, root, va)) == f && f in s.role
    ensures var mem' := StoreByte(s.mem, ByteAddress(s.mem, root, va), b);
            WellFormed(s.(mem := mem')) && SameLookups(s.mem, mem', s.role)
  {
    SplitAddress(PteFrame(LeafPte(s.mem, root, Key(va))), va % PAGE_SIZE);
    WalkStays(s.mem, s.role, root, Key(va));
    assert LeafEntry(s.mem, s.role, LowTable(s.mem, root, Key(va)), Px(0, Key(va)));
    hide PutByte, LowTable, MidTable;
    DataWrite(s.mem, StoreByte(s.mem, ByteAddress(s.mem, root, va), b), s.role);
  }

  /** Writing one user byte changes that byte of that address space, no other user byte, and no table word. */
  lemma ByteWrite(s: Snapshot, root: int, va: int, b: Byte)
    requires WellFormed(s) && IsTable(s.role, root, 2) && 0 <= va < MAXVA
    requires var e := LeafPte(s.mem, root, Key(va)); V(e) && U(e)
    ensures var f := PteFrame(LeafPte(s.mem, root, Key(va)));
            var mem' := StoreByte(s.mem, Addr(f) + va % PAGE_SIZE, b);
            && f in s.role && FrameAt(Addr(f) + va % PAGE_SIZE) == f
            && WellFormed(s.(mem := mem')) && SameLookups(s.mem, mem', s.role)
            && forall r, va' :: IsTable(s.role, r, 2) && 0 <= va' < MAXVA ==>
                 UserByte(mem', r, va') == if r == root && va' == va then Some(b) else UserByte(s.mem, r, va')
  {
    hide WellFormed, UserByte, StoreByte, LeafPte, PteFrame;
    var mem' := StoreByte(s.mem, ByteAddress(s.mem, root, va), b);
    ByteIsData(s, root, va, b);
    forall r, va' | IsTable(s.role, r, 2) && 0 <= va' < MAXVA
      ensures UserByte(mem', r, va') == if r == root && va' == va then Some(b) else UserByte(s.mem, r, va')
    {
      assert LeafPte(mem', r, Key(va')) == LeafPte(s.mem, r, Key(va'));
      OtherByte(s, root, va, b, r, va');
    }
  }

  /** The physical address of a user byte. */
  function ByteAddress(mem: Memory, root: int, va: int): int { Addr(PteFrame(LeafPte(mem, root, Key(va)))) + va % PAGE_SIZE }

  lemma SameIff(s: Snapshot, root: int, va: int, r: int, va': int)
    requires WellFormed(s) && IsTable(s.role, root, 2) && 0 <= va < MAXVA && IsTable(s.role, r, 2) && 0 <= va' < MAXVA
    requires var e := LeafPte(s.mem, root, Key(va)); V(e) && U(e)
    requires var e' := LeafPte(s.mem, r, Key(va')); V(e') && U(e')
    ensures ByteAddress(s.mem, root, va) == ByteAddress(s.mem, r, va') <==> r == root && va' == va
  {
    if ByteAddress(s.mem, root, va) == ByteAddress(s.mem, r, va') {
      SameByte(s, root, va, r, va');
    }
  }

  lemma ByteMoved(s: Snapshot, mem': Memory, root: int, va: int, b: Byte, r: int, va': int)
    requires WellFormed(s) && IsTable(s.role, root, 2) && 0 <= va < MAXVA && IsTable(s.role, r, 2) && 0 <= va' < MAXVA
    requires var e := LeafPte(s.mem, root, Key(va)); V(e) && U(e)
    requires LeafPte(mem', r, Key(va')) == LeafPte(s.mem, r, Key(va'))
    requires var a, a' := ByteAddress(s.mem, root, va), ByteAddress(s.mem, r, va');
             MemByte(mem', a') == if a' == a then b else MemByte(s.mem, a')
    ensures UserByte(mem', r, va') == if r == root && va' == va then Some(b) else UserByte(s.mem, r, va')
  {
    if V(LeafPte(s.mem, r, Key(va'))) && U(LeafPte(s.mem, r, Key(va'))) {
      SameIff(s, root, va, r, va');
    }
  }

  lemma OtherByte(s: Snapshot, root: int, va: int, b: Byte, r: int, va': int)
    requires WellFormed(s) && IsTable(s.role, root, 2) && 0 <= va < MAXVA && IsTable(s.role, r, 2) && 0 <= va' < MAXVA
    requires var e := LeafPte(s.mem, root, Key(va)); V(e) && U(e)
    requires LeafPte(StoreByte(s.mem, ByteAddress(s.mem, root, va), b), r, Key(va')) == LeafPte(s.mem, r, Key(va'))
    ensures UserByte(StoreByte(s.mem, ByteAddress(s.mem, root, va), b), r, va')
         == if r == root && va' == va then Some(b) else UserByte(s.mem, r, va')
  {
    StoreByteReads(s.mem, ByteAddress(s.mem, root, va), b, ByteAddress(s.mem, r, va'));
    ByteMoved(s, StoreByte(s.mem, ByteAddress(s.mem, root, va), b), root, va, b, r, va');
  }

  /** Two user addresses share a byte only if they are the same address of the same address space. */
  lemma SameByte(s: Snapshot, root: int, va: int, r: int, va': int)
    requires WellFormed(s) && IsTable(s.role, root, 2) && 0 <= va < MAXVA && IsTable(s.role, r, 2) && 0 <= va' < MAXVA
    requires var e := LeafPte(s.mem, root, Key(va)); V(e) && U(e)
    requires var e' := LeafPte(s.mem, r, Key(va')); V(e') && U(e')
    requires Addr(PteFrame(LeafPte(s.mem, root, Key(va)))) + va % PAGE_SIZE
          == Addr(PteFrame(LeafPte(s.mem, r, Key(va')))) + va' % PAGE_SIZE
    ensures r == root && va' == va
  {
    SplitAddress(PteFrame(LeafPte(s.mem, root, Key(va))), va % PAGE_SIZE);
    SplitAddress(PteFrame(LeafPte(s.mem, r, Key(va'))), va' % PAGE_SIZE);
    UserFramesDistinct(s.mem, s.role, root, Key(va), r, Key(va'));
    KeyInjective(va, va');
  }

  /** The user bytes of every address space after the first n bytes of src went to dst under root. */
  ghost predicate Copied(mem0: Memory, mem: Memory, roots: Roles, root: int, dst: int, src: seq<Byte>, n: int)
    requires 0 <= n <= |src|
  {
    forall r, va :: IsTable(roots, r, 2) && 0 <= va < MAXVA ==>
      UserByte(mem, r, va) == if r == root && dst <= va < dst + n then Some(src[va - dst]) else UserByte(mem0, r, va)
  }

  lemma LeafTranslates(s: Snapshot, root: int, va: int, kb: int)
    requires WellFormed(s) && IsTable(s.role, root, 2) && kb <= VPNS && OnlyUserPages(s.mem, root, 0, kb)
    requires 0 <= va && Translates(s.mem, root, va, Addr(kb))
    ensures va < MAXVA
    ensures var e := LeafPte(s.mem, root, Key(va)); V(e) && U(e) && UserAddress(s.mem, root, va) == Addr(PteFrame(e)) + va % PAGE_SIZE
  {
  }

  lemma CopiedMore(mem0: Memory, mem: Memory, mem': Memory, roots: Roles, root: int, dst: int, src: seq<Byte>, i: int)
    requires 0 <= i < |src| && Copied(mem0, mem, roots, root, dst, src, i)
    requires forall r, va :: IsTable(roots, r, 2) && 0 <= va < MAXVA ==>
               UserByte(mem', r, va) == if r == root && va == dst + i then Some(src[i]) else UserByte(mem, r, va)
    ensures Copied(mem0, mem', roots, root, dst, src, i + 1)
  {
  }

  lemma NoneCopied(mem: Memory, roots: Roles, root: int, dst: int, src: seq<Byte>)
    ensures Copied(mem, mem, roots, root, dst, src, 0)
  {
  }

  /** One turn of the loop: the byte is written where walkaddr finds its address, if it does. */
  method CopyOne(ram: PageMemory, root: int, va: int, b: Byte, kb: int, ghost s0: Snapshot) returns (ok: bool)
    requires Sound(ram) && IsTable(ram.role, root, 2) && 0 <= va && kb <= VPNS
    requires WellFormed(s0) && s0.role == ram.role && OnlyUserPages(s0.mem, root, 0, kb) && SameLookups(s0.mem, ram.mem, ram.role)
    modifies ram`mem
    ensures Sound(ram) && SameLookups(s0.mem, ram.mem, ram.role)
    ensures ok <==> Translates(s0.mem, root, va, Addr(kb))
    ensures !ok ==> ram.mem == old(ram.mem)
    ensures ok ==> forall r, a :: IsTable(ram.role, r, 2) && 0 <= a < MAXVA ==>
              UserByte(ram.mem, r, a) == if r == root && a == va then Some(b) else UserByte(old(ram.mem), r, a)
  {
    assert LeafPte(ram.mem, root, Key(va)) == LeafPte(s0.mem, root, Key(va));
    var pa := WalkAddr(ram, root, va, Addr(kb));
    if pa == 0 {
      return false;
    }
    LeafTranslates(s0, root, va, kb);
    ghost var s := Now(ram);
    ByteWrite(s, root, va, b);
    WriteByte(ram, pa, b);
    LookupsTransitive(s0.mem, s.mem, ram.mem, ram.role);
    return true;
  }

  lemma LookupsTransitive(mem0: Memory, mem: Memory, mem': Memory, role: Roles)
    requires SameLookups(mem0, mem, role) && SameLookups(mem, mem', role)
    ensures SameLookups(mem0, mem', role)
  {
  }

  /** copy_to_user. It returns -1 exactly when some byte of the range does not translate, and then the bytes before
      the first such one have been written. In both cases no other user byte of any address space changes, and no
      translation does. */
  method Copy(ram: PageMemory, root: int, dst: int, src: seq<Byte>, kb: int) returns (r: int, ghost n: int)
    requires Sound(ram) && IsTable(ram.role, root, 2) && 0 <= dst
    requires kb <= VPNS && OnlyUserPages(ram.mem, root, 0, kb)
    modifies ram`mem
    ensures Sound(ram) && SameLookups(old(ram.mem), ram.mem, ram.role)
    ensures r == 0 || r == -1
    ensures r == 0 <==> forall va :: dst <= va < dst + |src| ==> Translates(old(ram.mem), root, va, Addr(kb))
    ensures 0 <= n <= |src| && (r == 0 ==> n == |src|)
    ensures r == -1 ==> n < |src| && !Translates(old(ram.mem), root, dst + n, Addr(kb))
    ensures forall va :: dst <= va < dst + n ==> Translates(old(ram.mem), root, va, Addr(kb))
    ensures Copied(old(ram.mem), ram.mem, ram.role, root, dst, src, n)
  {
    hide Tables, Leaves, Copied, OnlyUserPages, UserAddress, UserByte;
    ghost var s0 := Now(ram);
    NoneCopied(s0.mem, ram.role, root, dst, src);
    for i := 0 to |src|
      invariant Sound(ram) && SameLookups(s0.mem, ram.mem, ram.role)
      invariant forall va :: dst <= va < dst + i ==> Translates(s0.mem, root, va, Addr(kb))
      invariant Copied(s0.mem, ram.mem, ram.role, root, dst, src, i)
    {
      ghost var mem := ram.mem;
      var ok := CopyOne(ram, root, dst + i, src[i], kb, s0);
      if !ok {
        return -1, i;
      }
      CopiedMore(s0.mem, mem, ram.mem, ram.role, root, dst, src, i);
    }
    return 0, |src|;
  }
}
