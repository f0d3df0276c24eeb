/** Stores that the kernel makes straight to user addresses, through the page table in force and with the SUM bit set:
    the exit code that wait reports, and the arguments of a new program. */
module DirectStores {
  import opened Wrappers
  import opened Arithmetic
  import opened Sv39
  import opened PageTree
  import opened PageMemory
  import opened PageTables
  import opened Walkers
  import opened Teardown
  import opened Fork
  import opened Bytes
  import opened CopyToUser

  /** A store by the kernel to va does not fault. */
  predicate Storable(mem: Memory, root: int, va: int) {
    0 <= va < HALF && var e := LeafPte(mem, root, Key(va)); V(e) && R(e) && W(e)
  }

  predicate UserStorable(mem: Memory, root: int, va: int) { Storable(mem, root, va) && U(LeafPte(mem, root, Key(va))) }

  predicate AllStorable(mem: Memory, root: int, va: int, n: nat) { forall a :: va <= a < va + n ==> Storable(mem, root, a) }

  predicate AllUserStorable(mem: Memory, root: int, va: int, n: nat) { forall a :: va <= a < va + n ==> UserStorable(mem, root, a) }

  /** Memory after the first n bytes of src were stored from va on; the addresses are translated as in mem. */
  function After(mem: Memory, root: int, va: int, src: seq<Byte>, n: nat): Memory
    requires n <= |src|
  {
    if n == 0 then mem else StoreByte(After(mem, root, va, src, n - 1), ByteAddress(mem, root, va + n - 1), src[n - 1])
  }

  /** Stores to writable user pages change the bytes they name in their own address space, no other byte of any address
      space, and no translation. */
  lemma {:induction false} AfterSeen(s: Snapshot, root: int, va: int, src: seq<Byte>, n: nat)
    requires WellFormed(s) && IsTable(s.role, root, 2) && n <= |src| && AllUserStorable(s.mem, root, va, n)
    ensures var mem' := After(s.mem, root, va, src, n);
            WellFormed(s.(mem := mem')) && SameLookups(s.mem, mem', s.role) && Copied(s.mem, mem', s.role, root, va, src, n)
  {
    hide WellFormed, StoreByte, UserByte, LeafPte, SameLookups, Copied;
    NothingCopied(s, root, va, src);
    if n > 0 {
      AfterSeen(s, root, va, src, n - 1);
      var mem1 := After(s.mem, root, va, src, n - 1);
      StoreOneMore(s, s.(mem := mem1), root, va + n - 1, src[n - 1]);
      CopiedMore(s.mem, mem1, After(s.mem, root, va, src, n), s.role, root, va, src, n - 1);
    }
  }

  lemma NothingCopied(s: Snapshot, root: int, va: int, src: seq<Byte>)
    ensures SameLookups(s.mem, s.mem, s.role) && Copied(s.mem, s.mem, s.role, root, va, src, 0)
  {
  }

  lemma StoreOneMore(s: Snapshot, s1: Snapshot, root: int, va: int, b: Byte)
    requires WellFormed(s) && IsTable(s.role, root, 2) && UserStorable(s.mem, root, va)
    requires s1 == s.(mem := s1.mem) && WellFormed(s1) && SameLookups(s.mem, s1.mem, s.role)
    ensures LeafPte(s1.mem, root, Key(va)) == LeafPte(s.mem, root, Key(va)) && FrameAt(ByteAddress(s.mem, root, va)) in s.role
    ensures var mem' := StoreByte(s1.mem, ByteAddress(s.mem, root, va), b);
            && WellFormed(s.(mem := mem')) && SameLookups(s.mem, mem', s.role)
            && forall r, a :: IsTable(s.role, r, 2) && 0 <= a < MAXVA ==>
                 UserByte(mem', r, a) == if r == root && a == va then Some(b) else UserByte(s1.mem, r, a)
  {
    hide WellFormed, StoreByte, UserByte, LeafPte;
    assert LeafPte(s1.mem, root, Key(va)) == LeafPte(s.mem, root, Key(va));
    ByteWrite(s1, root, va, b);
    LookupsTransitive(s.mem, s1.mem, StoreByte(s1.mem, ByteAddress(s.mem, root, va), b), s.role);
  }

  /** A byte stored to a writable user page is a store by the program itself, of the word with that byte replaced. */
  lemma ByteIsUserStore(mem: Memory, root: int, va: int, b: Byte)
    requires UserStorable(mem, root, va)
    ensures var k := va % PAGE_SIZE / 8;
            StoreByte(mem, ByteAddress(mem, root, va), b)
            == UserStore(mem, root, Key(va), k, PutByte(Entry(mem, PteFrame(LeafPte(mem, root, Key(va))), k), va % 8, b))
  {
    hide LeafPte, PutByte, Store;
    var f := PteFrame(LeafPte(mem, root, Key(va)));
    SplitAddress(f, va % PAGE_SIZE);
    PageRem8(f, va % PAGE_SIZE);
    OffsetRem8(va);
  }

  /** Stores to identity-mapped addresses: the first byte is where it was put. */
  lemma {:induction false} FirstByteStored(mem: Memory, root: int, va: int, src: seq<Byte>, n: nat)
    requires 0 < n <= |src| && forall a :: va <= a < va + n ==> ByteAddress(mem, root, a) == a
    ensures MemByte(After(mem, root, va, src, n), va) == src[0]
  {
    hide MemByte, StoreByte, ByteAddress;
    if n > 1 { FirstByteStored(mem, root, va, src, n - 1); }
    StoreByteReads(After(mem, root, va, src, n - 1), va + n - 1, src[n - 1], va);
  }

  /** The first byte of a word decides whether the word is a valid entry. */
  lemma FirstByteOfWord(mem: Memory, f: int, k: int)
    requires 0 <= k < ENTRIES
    ensures MemByte(mem, Addr(f) + 8 * k) % 2 == Entry(mem, f, k) % 2
  {
    SplitAddress(f, 8 * k);
    hide Entry;
    var a := Addr(f) + 8 * k;
    PageRem8(f, 8 * k);
    Rem8(k, 0);
    assert a / PAGE_SIZE == f && a % PAGE_SIZE / 8 == k && a % 8 == 0;
    LowBitOfByte(Entry(mem, f, k));
  }

  /** A valid root entry that is no longer valid leaves a table without its parent. */
  lemma EntryCleared(s: Snapshot, s': Snapshot, root: int, k: int)
    requires WellFormed(s) && IsTable(s.role, root, 2) && 0 <= k < ENTRIES && V(Entry(s.mem, root, k))
    requires s'.role == s.role && !V(Entry(s'.mem, root, k))
    ensures !WellFormed(s')
  {
    var child := PteFrame(Entry(s.mem, root, k));
    assert BranchEntry(s.mem, s.role, root, k);
    PteRoundTrip(child, NO_PERMS);
    assert child in s'.role && s'.role[child] == Mid(root, k) && Entry(s'.mem, root, k) != MakePte(child, NO_PERMS);
    assert Tables(s'.mem, s'.role) ==> HasParent(s'.mem, s'.role, child);
  }

  /** One byte more of a memcpy that began in state s. */
  method StoreNext(ram: PageMemory, root: int, va: int, src: seq<Byte>, i: nat, ghost s: Snapshot)
    requires Sound(ram) && i < |src| && Now(ram) == s.(mem := After(s.mem, root, va, src, i))
    requires WellFormed(s) && IsTable(s.role, root, 2) && AllUserStorable(s.mem, root, va, |src|)
    modifies ram`mem
    ensures Sound(ram) && Now(ram) == s.(mem := After(s.mem, root, va, src, i + 1))
  {
    hide WellFormed, Tables, Leaves, LeafPte, SameLookups, Copied, StoreByte;
    AfterSeen(s, root, va, src, i);
    StoreOneMore(s, s.(mem := ram.mem), root, va + i, src[i]);
    WriteByte(ram, ByteAddress(ram.mem, root, va + i), src[i]);
    WellFormedNow(ram, s.(mem := ram.mem));
  }

  /** memcpy to user addresses. */
  method StoreThrough(ram: PageMemory, root: int, va: int, src: seq<Byte>)
    requires Sound(ram) && IsTable(ram.role, root, 2) && AllUserStorable(ram.mem, root, va, |src|)
    modifies ram`mem
    ensures Sound(ram) && Now(ram) == old(Now(ram)).(mem := After(old(ram.mem), root, va, src, |src|))
  {
    hide Tables, Leaves, AllUserStorable;
    ghost var s := Now(ram);
    for i := 0 to |src|
      invariant Sound(ram) && Now(ram) == s.(mem := After(s.mem, root, va, src, i))
    {
      StoreNext(ram, root, va, src, i, s);
    }
  }

  lemma WellFormedNow(ram: PageMemory, s: Snapshot)
    requires ram.Valid() && s == Now(ram) && WellFormed(s)
    ensures Sound(ram)
  {
  }
}
