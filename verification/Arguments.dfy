/** setup_user_arguments: the argument strings and the argv array at the top of a new program's stack, written through
    the program's page table. */
module Arguments {
  import opened Wrappers
  import opened Arithmetic
  import opened Sv39
  import opened PageTree
  import opened PageMemory
  import opened PageTables
  import opened Walkers
  import opened Teardown
  import opened Bytes
  import opened CopyToUser
  import opened DirectStores

  const MAX_ARGS := 8
  const MAX_ARG_LENGTH := 128
  const PTR_SIZE := 8

  /** Memory as the user program sees it, byte by byte. */
  type UserMemory = map<int, Byte>

  function At(m: UserMemory, a: int): Byte { if a in m then m[a] else 0 }

  /** m' is m with the given bytes written at a. */
  ghost predicate Written(m: UserMemory, m': UserMemory, a: int, bytes: seq<Byte>) {
    forall x {:trigger At(m', x)} :: At(m', x) == if a <= x < a + |bytes| then bytes[x - a] else At(m, x)
  }

  /** The n-byte number stored at a, lowest byte first. */
  function Load(m: UserMemory, a: int, n: nat): int
    decreases n
  {
    if n == 0 then 0 else At(m, a) + 256 * Load(m, a + 1, n - 1)
  }

  function BytesOf(x: int, n: nat): (r: seq<Byte>)
    ensures |r| == n && forall j :: 0 <= j < n ==> r[j] == ByteOf(x, j)
  {
    seq(n, j requires 0 <= j => ByteOf(x, j))
  }

  ghost predicate ByteAt(m: UserMemory, a: int, x: int, j: nat) { At(m, a + j) == ByteOf(x, j) }

  lemma {:induction false} LoadBytes(m: UserMemory, a: int, x: int, n: nat)
    requires forall j :: 0 <= j < n ==> ByteAt(m, a, x, j)
    ensures Load(m, a, n) == LowBytes(x, n)
    decreases n
  {
    if n > 0 {
      assert ByteAt(m, a, x, 0);
      var a', x' := a + 1, x / 256;
      forall j | 0 <= j < n - 1 ensures ByteAt(m, a', x', j) {
        assert ByteAt(m, a, x, j + 1);
      }
      LoadBytes(m, a', x', n - 1);
    }
  }

  // ---------------------------------------------------------------- strings and where they go

  /** strnlen(row, MAX_ARG_LENGTH), from position k on. */
  function Strnlen(row: seq<Byte>, k: nat): (n: nat)
    requires k <= |row| == MAX_ARG_LENGTH
    ensures k <= n <= MAX_ARG_LENGTH && (n < MAX_ARG_LENGTH ==> row[n] == 0) && forall j :: k <= j < n ==> row[j] != 0
    decreases |row| - k
  {
    if k == |row| || row[k] == 0 then k else Strnlen(row, k + 1)
  }

  /** One row of the argument buffer: 128 bytes with a NUL among them. */
  ghost predicate Row(row: seq<Byte>) { |row| == MAX_ARG_LENGTH && 0 in row }

  ghost predicate Rows(argv: seq<seq<Byte>>) { forall i :: 0 <= i < |argv| ==> Row(argv[i]) }

  /** The bytes copied for a row: the string with its NUL. */
  function Text(row: seq<Byte>): (t: seq<Byte>)
    requires Row(row)
    ensures 1 <= |t| <= MAX_ARG_LENGTH && t == row[..|t|] && t[|t| - 1] == 0 && 0 !in t[..|t| - 1]
  {
    row[..Strnlen(row, 0) + 1]
  }

  /** sp & ~7 */
  function Down8(a: int): int { a / 8 * 8 }

  /** Where string i goes, when the stack starts at sp. */
  ghost function Place(argv: seq<seq<Byte>>, sp: int, i: int): int
    requires Rows(argv) && 0 <= i <= |argv|
    decreases |argv| - i
  {
    if i == |argv| then sp else Down8(Place(argv, sp, i + 1) - |Text(argv[i])|)
  }

  /** Where the argv array goes. */
  ghost function Base(argv: seq<seq<Byte>>, sp: int): int
    requires Rows(argv)
  {
    Down8(Place(argv, sp, 0) - (|argv| + 1) * PTR_SIZE)
  }

  lemma {:induction false} PlacesDown(argv: seq<seq<Byte>>, sp: int, i: int, j: int)
    requires Rows(argv) && 0 <= i < j <= |argv|
    ensures Place(argv, sp, i) + |Text(argv[i])| <= Place(argv, sp, j) <= sp
    ensures Place(argv, sp, i) % 8 == 0
    decreases |argv| - i
  {
    if i + 1 < j { PlacesDown(argv, sp, i + 1, j); } else if j < |argv| { PlacesDown(argv, sp, j, |argv|); }
  }

  lemma BaseBelow(argv: seq<seq<Byte>>, sp: int, i: int)
    requires Rows(argv) && 0 <= i <= |argv|
    ensures Base(argv, sp) + (|argv| + 1) * PTR_SIZE <= Place(argv, sp, i) <= sp && Base(argv, sp) % 8 == 0
  {
    hide Place, Down8, Text;
    DownBelow(Place(argv, sp, 0) - (|argv| + 1) * PTR_SIZE);
    LastPlace(argv, sp);
    if i > 0 { PlacesDown(argv, sp, 0, i); }
    if i < |argv| { PlacesDown(argv, sp, i, |argv|); }
  }

  lemma LastPlace(argv: seq<seq<Byte>>, sp: int)
    requires Rows(argv)
    ensures Place(argv, sp, |argv|) == sp
  {
  }

  lemma DownBelow(a: int)
    ensures Down8(a) <= a && Down8(a) % 8 == 0
  {
  }

  /** The regions: string i, or the array for i = -1. */
  ghost function Region(argv: seq<seq<Byte>>, sp: int, i: int): (int, int)
    requires Rows(argv) && -1 <= i < |argv|
  {
    if i == -1 then (Base(argv, sp), Base(argv, sp) + (|argv| + 1) * PTR_SIZE)
    else (Place(argv, sp, i), Place(argv, sp, i) + |Text(argv[i])|)
  }

  /** The array and the strings are 8-aligned, below the old stack pointer and pairwise disjoint. */
  lemma RegionsDisjoint(argv: seq<seq<Byte>>, sp: int, i: int, j: int)
    requires Rows(argv) && -1 <= i < |argv| && -1 <= j < |argv| && i != j
    ensures var (a, b), (c, d) := Region(argv, sp, i), Region(argv, sp, j);
            a % 8 == 0 && Base(argv, sp) <= a < b <= sp && (b <= c || d <= a)
  {
    BaseBelow(argv, sp, if i < 0 then 0 else i);
    BaseBelow(argv, sp, if j < 0 then 0 else j);
    if i >= 0 { PlacesDown(argv, sp, i, |argv|); }
    if 0 <= i < j { PlacesDown(argv, sp, i, j); }
    if 0 <= j < i { PlacesDown(argv, sp, j, i); }
  }

  /** No more than seven bytes are skipped between one region and the next, so the layout is the tightest with strings and
      array on 8-byte boundaries. */
  lemma RegionsTight(argv: seq<seq<Byte>>, sp: int, i: int)
    requires Rows(argv) && 0 <= i < |argv|
    ensures 0 <= Place(argv, sp, i + 1) - (Place(argv, sp, i) + |Text(argv[i])|) < 8
    ensures Place(argv, sp, |argv|) == sp && 0 <= Place(argv, sp, 0) - (Base(argv, sp) + 8 * (|argv| + 1)) < 8
  {
  }

  lemma DownOrdered(a: int, b: int)
    requires a <= b
    ensures Down8(b) % 8 == 0 && (a % 8 == 0 ==> a <= Down8(b))
  {
  }

  lemma Multiples(sp: int, n: int)
    requires sp % 8 == 0
    ensures (sp - MAX_ARG_LENGTH * n) % 8 == 0
  {
    assert sp - MAX_ARG_LENGTH * n == 8 * (sp / 8 - 16 * n) + 0;
    Rem8(sp / 8 - 16 * n, 0);
  }

  lemma {:induction false} PlaceDepth(argv: seq<seq<Byte>>, sp: int, i: int)
    requires Rows(argv) && 0 <= i <= |argv| && sp % 8 == 0
    ensures Place(argv, sp, i) >= sp - MAX_ARG_LENGTH * (|argv| - i) && Place(argv, sp, i) % 8 == 0
    decreases |argv| - i
  {
    hide Down8;
    if i < |argv| {
      PlaceDepth(argv, sp, i + 1);
      Multiples(sp, |argv| - i);
      DownOrdered(sp - MAX_ARG_LENGTH * (|argv| - i), Place(argv, sp, i + 1) - |Text(argv[i])|);
    }
  }

  /** Eight arguments take at most 1096 bytes of an 8-aligned stack, so a stack of that size is never too small. */
  lemma StackUse(argv: seq<seq<Byte>>, sp: int, bottom: int)
    requires Rows(argv) && |argv| <= 8 && sp % 8 == 0
    ensures sp - Base(argv, sp) <= 1096
    ensures sp - bottom >= 1096 ==> Base(argv, sp) >= bottom
  {
    PlaceDepth(argv, sp, 0);
  }

  // ---------------------------------------------------------------- the code

  ghost predicate TextAt(m: UserMemory, a: int, t: seq<Byte>) {
    forall x :: a <= x < a + |t| ==> At(m, x) == t[x - a]
  }

  ghost predicate StringStored(m: UserMemory, argv: seq<seq<Byte>>, sp: int, i: int)
    requires Rows(argv) && 0 <= i < |argv|
  {
    TextAt(m, Place(argv, sp, i), Text(argv[i]))
  }

  /** Word i of the array at base. */
  function Pointer(m: UserMemory, base: int, i: int): int { Load(m, base + PTR_SIZE * i, PTR_SIZE) }

  /** What main(argc, argv) finds: argv[i] points to a copy of string i, and argv[argc] is NULL. */
  ghost predicate Argv(m: UserMemory, argv: seq<seq<Byte>>, sp: int, base: int)
    requires Rows(argv)
  {
    && (forall i :: 0 <= i < |argv| ==> Pointer(m, base, i) == Place(argv, sp, i) && StringStored(m, argv, sp, i))
    && Pointer(m, base, |argv|) == 0
  }

  lemma WordWritten(m: UserMemory, m': UserMemory, a: int, x: int)
    requires 0 <= x < Pow256(8) && Written(m, m', a, BytesOf(x, 8))
    ensures Load(m', a, 8) == x
  {
    forall j | 0 <= j < 8 ensures ByteAt(m', a, x, j) {
    }
    LoadBytes(m', a, x, 8);
    LowBytesOfWord(x, 8);
  }

  lemma {:induction false} LoadKept(m: UserMemory, m': UserMemory, a: int, n: nat)
    requires forall x :: a <= x < a + n ==> At(m', x) == At(m, x)
    ensures Load(m', a, n) == Load(m, a, n)
    decreases n
  {
    if n > 0 { LoadKept(m, m', a + 1, n - 1); }
  }

  lemma StringStep(argv: seq<seq<Byte>>, sp: int, i: int)
    requires Rows(argv) && 0 <= i < |argv|
    ensures Text(argv[i]) == argv[i][..Strnlen(argv[i], 0) + 1]
    ensures Base(argv, sp) <= Place(argv, sp, i) < Place(argv, sp, i + 1) <= sp
  {
    BaseBelow(argv, sp, i);
    BaseBelow(argv, sp, i + 1);
    PlacesDown(argv, sp, i, i + 1);
  }

  /** Copying string i below the ones already copied disturbs none of them. */
  lemma StringCopied(m: UserMemory, m': UserMemory, argv: seq<seq<Byte>>, sp: int, i: int)
    requires Rows(argv) && 0 <= i < |argv| && Written(m, m', Place(argv, sp, i), Text(argv[i]))
    requires forall j :: i < j < |argv| ==> StringStored(m, argv, sp, j)
    ensures forall j :: i <= j < |argv| ==> StringStored(m', argv, sp, j)
    ensures forall x {:trigger At(m', x)} :: !(Place(argv, sp, i) <= x < Place(argv, sp, i + 1)) ==> At(m', x) == At(m, x)
  {
    forall j | i < j < |argv| ensures StringStored(m', argv, sp, j) {
      PlacesDown(argv, sp, i, j);
      assert StringStored(m, argv, sp, j);
    }
    PlacesDown(argv, sp, i, i + 1);
  }

  ghost predicate PointersStored(m: UserMemory, base: int, ptrs: seq<int>, n: int)
    requires 0 <= n <= |ptrs|
  {
    forall j :: 0 <= j < n ==> Pointer(m, base, j) == ptrs[j]
  }

  lemma PointerKept(m: UserMemory, m': UserMemory, base: int, bytes: seq<Byte>, i: int, j: int)
    requires 0 <= j < i && Written(m, m', base + PTR_SIZE * i, bytes)
    ensures Pointer(m', base, j) == Pointer(m, base, j)
  {
    var a := base + PTR_SIZE * j;
    assert a + 8 <= base + PTR_SIZE * i;
    LoadKept(m, m', a, 8);
  }

  lemma PointerCopied(m: UserMemory, m': UserMemory, base: int, ptrs: seq<int>, i: int)
    requires 0 <= i < |ptrs| && PointersStored(m, base, ptrs, i) && 0 <= ptrs[i] < Pow256(8)
    requires Written(m, m', base + PTR_SIZE * i, BytesOf(ptrs[i], 8))
    ensures PointersStored(m', base, ptrs, i + 1)
  {
    hide Written, BytesOf, Pow256;
    WordWritten(m, m', base + PTR_SIZE * i, ptrs[i]);
    forall j | 0 <= j < i ensures Pointer(m', base, j) == ptrs[j] {
      PointerKept(m, m', base, BytesOf(ptrs[i], 8), i, j);
    }
  }

  /** The array written below the strings leaves them as they are. */
  lemma ArgvStored(m: UserMemory, m': UserMemory, argv: seq<seq<Byte>>, sp: int, ptrs: seq<int>)
    requires Rows(argv) && |ptrs| == |argv| + 1 && ptrs[|argv|] == 0
    requires forall j :: 0 <= j < |argv| ==> ptrs[j] == Place(argv, sp, j) && StringStored(m, argv, sp, j)
    requires PointersStored(m', Base(argv, sp), ptrs, |ptrs|)
    requires forall x {:trigger At(m', x)} :: !(Base(argv, sp) <= x < Base(argv, sp) + PTR_SIZE * |ptrs|) ==> At(m', x) == At(m, x)
    ensures Argv(m', argv, sp, Base(argv, sp))
  {
    forall j | 0 <= j < |argv| ensures Pointer(m', Base(argv, sp), j) == Place(argv, sp, j) && StringStored(m', argv, sp, j) {
      BaseBelow(argv, sp, j);
      assert StringStored(m, argv, sp, j);
    }
  }

  /** Bytes outside [lo, hi) of the address space under root, and all bytes of the others, are what they were. */
  ghost predicate OnlyBytes(mem0: Memory, mem: Memory, role: Roles, root: int, lo: int, hi: int) {
    && SameLookups(mem0, mem, role)
    && forall r, a :: IsTable(role, r, 2) && 0 <= a < MAXVA && !(r == root && lo <= a < hi) ==> UserByte(mem, r, a) == UserByte(mem0, r, a)
  }

  lemma NoBytes(mem: Memory, role: Roles, root: int, a: int)
    ensures OnlyBytes(mem, mem, role, root, a, a)
  {
  }

  lemma MoreBytes(mem0: Memory, mem: Memory, mem': Memory, role: Roles, root: int, lo: int, hi: int, lo': int, hi': int, lo'': int, hi'': int)
    requires OnlyBytes(mem0, mem, role, root, lo, hi) && OnlyBytes(mem, mem', role, root, lo', hi')
    requires (lo >= hi || lo'' <= lo <= hi <= hi'') && (lo' >= hi' || lo'' <= lo' <= hi' <= hi'')
    ensures OnlyBytes(mem0, mem', role, root, lo'', hi'')
  {
    hide UserByte, SameLookups;
    LookupsTransitive(mem0, mem, mem', role);
  }

  function WithBytes(m: UserMemory, a: int, bytes: seq<Byte>): UserMemory {
    if bytes == [] then m else WithBytes(m, a, bytes[..|bytes| - 1])[a + |bytes| - 1 := bytes[|bytes| - 1]]
  }

  lemma {:induction false} BytesWritten(m: UserMemory, a: int, bytes: seq<Byte>)
    ensures Written(m, WithBytes(m, a, bytes), a, bytes)
    decreases |bytes|
  {
    if bytes != [] {
      var n := |bytes| - 1;
      var m1, m' := WithBytes(m, a, bytes[..n]), WithBytes(m, a, bytes);
      BytesWritten(m, a, bytes[..n]);
      forall x ensures At(m', x) == if a <= x < a + |bytes| then bytes[x - a] else At(m, x) {
        assert At(m', x) == if x == a + n then bytes[n] else At(m1, x);
      }
    }
  }

  /** What the program under root sees at the addresses of [lo, hi). */
  ghost predicate Shows(mem: Memory, root: int, lo: int, hi: int, m: UserMemory) {
    forall a :: lo <= a < hi ==> UserByte(mem, root, a) == Some(At(m, a))
  }

  lemma StoresShow(s: Snapshot, root: int, lo: int, hi: int, m: UserMemory, va: int, src: seq<Byte>)
    requires WellFormed(s) && IsTable(s.role, root, 2) && 0 <= lo <= va && va + |src| <= hi <= HALF
    requires AllUserStorable(s.mem, root, lo, hi - lo) && Shows(s.mem, root, lo, hi, m)
    ensures AllUserStorable(s.mem, root, va, |src|)
    ensures var mem' := After(s.mem, root, va, src, |src|);
            && AllUserStorable(mem', root, lo, hi - lo) && Shows(mem', root, lo, hi, WithBytes(m, va, src))
            && OnlyBytes(s.mem, mem', s.role, root, va, va + |src|)
  {
    hide WellFormed, After, UserByte, LeafPte, WithBytes;
    AfterSeen(s, root, va, src, |src|);
    BytesWritten(m, va, src);
    var mem' := After(s.mem, root, va, src, |src|);
    forall a | lo <= a < hi
      ensures UserStorable(mem', root, a) && UserByte(mem', root, a) == Some(At(WithBytes(m, va, src), a))
    {
      assert UserStorable(s.mem, root, a) && LeafPte(mem', root, Key(a)) == LeafPte(s.mem, root, Key(a));
    }
  }

  /** The stack of a program under the given root. */
  class UserStack {
    const bottom: int  // g_user_stack_bottom
    const top: int     // end of the stack, where the stack pointer starts
    const root: int
    const ram: PageMemory
    ghost var mem: UserMemory

    ghost predicate Valid()
      reads this, ram, ram.tracker, ram.tracker.table
    {
      && Sound(ram) && IsTable(ram.role, root, 2) && 0 <= bottom <= top <= HALF
      && AllUserStorable(ram.mem, root, bottom, top - bottom) && Shows(ram.mem, root, bottom, top, mem)
    }

    constructor (ram: PageMemory, root: int, bottom: int, top: int)
      requires Sound(ram) && IsTable(ram.role, root, 2) && 0 <= bottom <= top <= HALF
      requires AllUserStorable(ram.mem, root, bottom, top - bottom)
      ensures Valid() && this.ram == ram && this.root == root && this.bottom == bottom && this.top == top
    {
      this.ram, this.root, this.bottom, this.top := ram, root, bottom, top;
      mem := map a | bottom <= a < top :: if UserByte(ram.mem, root, a).Some? then UserByte(ram.mem, root, a).value else 0;
      new;
      forall a | bottom <= a < top ensures UserByte(ram.mem, root, a) == Some(At(mem, a)) {
        assert UserStorable(ram.mem, root, a);
      }
    }

    /** memcpy to a user address. */
    method Memcpy(dst: int, src: seq<Byte>)
      requires Valid() && bottom <= dst && dst + |src| <= top
      modifies this`mem, ram`mem
      ensures Valid() && Written(old(mem), mem, dst, src)
      ensures OnlyBytes(old(ram.mem), ram.mem, ram.role, root, dst, dst + |src|)
    {
      hide Tables, Leaves, AllUserStorable, Shows, OnlyBytes, Written, WithBytes;
      StoresShow(Now(ram), root, bottom, top, mem, dst, src);
      BytesWritten(mem, dst, src);
      StoreThrough(ram, root, dst, src);
      mem := WithBytes(mem, dst, src);
    }

    /** One turn of the loop that copies the argument strings: string i goes below p. None stands for PANIC. */
    method CopyString(argv: seq<seq<Byte>>, i: nat, p: int, ghost mem0: Memory) returns (r: Option<int>)
      requires Valid() && Rows(argv) && i < |argv| && p == Place(argv, top, i + 1) <= top
      requires forall j :: i < j < |argv| ==> StringStored(mem, argv, top, j)
      requires OnlyBytes(mem0, ram.mem, ram.role, root, p, top)
      modifies this`mem, ram`mem
      ensures Valid() && (r.None? ==> Place(argv, top, i) < bottom)
      ensures r.Some? ==> r.value == Place(argv, top, i) <= top && OnlyBytes(mem0, ram.mem, ram.role, root, r.value, top)
      ensures r.Some? ==> forall j :: i <= j < |argv| ==> StringStored(mem, argv, top, j)
    {
      hide Sound, AllUserStorable, Shows, OnlyBytes, StringStored, Written, Strnlen;
      ghost var m, mem1 := mem, ram.mem;
      var len := Strnlen(argv[i], 0) + 1;
      StringStep(argv, top, i);
      var q := Down8(p - len);
      if q < bottom {
        return None;
      }
      Memcpy(q, argv[i][..len]);
      StringCopied(m, mem, argv, top, i);
      MoreBytes(mem0, mem1, ram.mem, ram.role, root, p, top, q, q + len, q, top);
      return Some(q);
    }

    /** The loop that copies the argument strings, last one first. None stands for PANIC. */
    method CopyStrings(argv: seq<seq<Byte>>) returns (sp: Option<int>, ptrs: seq<int>)
      requires Valid() && Rows(argv) && MAX_ARG_LENGTH * |argv| + 8 * |argv| <= top
      modifies this`mem, ram`mem
      ensures Valid() && (sp.None? ==> Base(argv, top) < bottom)
      ensures sp.Some? ==> sp.value == Place(argv, top, 0) && |ptrs| == |argv| + 1 && ptrs[|argv|] == 0
      ensures sp.Some? ==> forall j :: 0 <= j < |argv| ==> ptrs[j] == Place(argv, top, j) && StringStored(mem, argv, top, j)
      ensures sp.Some? ==> OnlyBytes(old(ram.mem), ram.mem, ram.role, root, Place(argv, top, 0), top)
    {
      hide Sound, AllUserStorable, Shows, OnlyBytes, StringStored;
      var p, i := top, |argv|;
      ptrs := seq(|argv| + 1, _ => 0);
      NoBytes(ram.mem, ram.role, root, top);
      while i > 0
        invariant Valid() && 0 <= i <= |argv| && |ptrs| == |argv| + 1 && p == Place(argv, top, i) <= top
        invariant forall j :: i <= j < |argv| ==> ptrs[j] == Place(argv, top, j)
        invariant forall j :: i <= j < |argv| ==> StringStored(mem, argv, top, j)
        invariant OnlyBytes(old(ram.mem), ram.mem, ram.role, root, p, top)
      {
        i := i - 1;
        var q := CopyString(argv, i, p, old(ram.mem));
        if q.None? {
          BaseBelow(argv, top, i);
          return None, ptrs;
        }
        p := q.value;
        ptrs := ptrs[i := p];
      }
      ptrs := ptrs[|argv| := 0];
      return Some(p), ptrs;
    }

    /** memcpy of the pointer array. */
    method CopyPointers(base: int, ptrs: seq<int>)
      requires Valid() && forall j :: 0 <= j < |ptrs| ==> 0 <= ptrs[j] < Pow256(8)
      requires bottom <= base && base + PTR_SIZE * |ptrs| <= top
      modifies this`mem, ram`mem
      ensures Valid() && PointersStored(mem, base, ptrs, |ptrs|)
      ensures forall x {:trigger At(mem, x)} :: !(base <= x < base + PTR_SIZE * |ptrs|) ==> At(mem, x) == At(old(mem), x)
      ensures OnlyBytes(old(ram.mem), ram.mem, ram.role, root, base, base + PTR_SIZE * |ptrs|)
    {
      hide Sound, AllUserStorable, Shows, OnlyBytes, Pointer, Pow256;
      NoBytes(ram.mem, ram.role, root, base);
      for i := 0 to |ptrs|
        invariant Valid() && PointersStored(mem, base, ptrs, i)
        invariant forall x {:trigger At(mem, x)} :: !(base <= x < base + PTR_SIZE * i) ==> At(mem, x) == At(old(mem), x)
        invariant OnlyBytes(old(ram.mem), ram.mem, ram.role, root, base, base + PTR_SIZE * i)
      {
        ghost var m, mem1, a := mem, ram.mem, base + PTR_SIZE * i;
        Memcpy(base + PTR_SIZE * i, BytesOf(ptrs[i], 8));
        PointerCopied(m, mem, base, ptrs, i);
        MoreBytes(old(ram.mem), mem1, ram.mem, ram.role, root, base, a, a, a + PTR_SIZE, base, a + PTR_SIZE);
      }
    }

    /** setup_user_arguments, with argc = |argv|. The result is the new stack pointer, which is also argv; the program
        then finds its arguments through its page table, and no other byte of any process has changed. None stands for
        PANIC, and happens exactly when the layout does not fit above the bottom of the stack. */
    method SetupUserArguments(argv: seq<seq<Byte>>) returns (sp: Option<int>)
      requires Valid() && Rows(argv) && |argv| <= MAX_ARGS && 1096 + 64 <= top
      modifies this`mem, ram`mem
      ensures Valid() && (sp.None? <==> Base(argv, top) < bottom)
      ensures sp.Some? ==> sp.value == Base(argv, top) && Argv(mem, argv, top, sp.value)
      ensures sp.Some? ==> OnlyBytes(old(ram.mem), ram.mem, ram.role, root, sp.value, top)
    {
      hide Sound, AllUserStorable, Shows, OnlyBytes, StringStored, PointersStored, Argv;
      ghost var mem0 := ram.mem;
      var p, ptrs := CopyStrings(argv);
      BaseBelow(argv, top, 0);
      if p.None? {
        return None;
      }
      var base := Down8(p.value - (|argv| + 1) * PTR_SIZE);
      if base < bottom {
        return None;
      }
      ghost var m, mem1 := mem, ram.mem;
      PointersFit(argv, top, ptrs);
      CopyPointers(base, ptrs);
      ArgvStored(m, mem, argv, top, ptrs);
      MoreBytes(mem0, mem1, ram.mem, ram.role, root, p.value, top, base, base + PTR_SIZE * |ptrs|, base, top);
      return Some(base);
    }
  }

  lemma PointersFit(argv: seq<seq<Byte>>, sp: int, ptrs: seq<int>)
    requires Rows(argv) && |argv| <= MAX_ARGS && 1096 + 64 <= sp <= HALF && |ptrs| == |argv| + 1 && ptrs[|argv|] == 0
    requires forall j :: 0 <= j < |argv| ==> ptrs[j] == Place(argv, sp, j)
    ensures forall j :: 0 <= j < |ptrs| ==> 0 <= ptrs[j] < Pow256(8)
  {
    assert HALF < Pow256(8);
    forall j | 0 <= j < |argv| ensures 0 <= ptrs[j] < Pow256(8) {
      PlaceFits(argv, sp, j);
      PlacesDown(argv, sp, j, |argv|);
    }
  }

  lemma {:induction false} PlaceFits(argv: seq<seq<Byte>>, sp: int, i: int)
    requires Rows(argv) && 0 <= i <= |argv|
    ensures Place(argv, sp, i) >= sp - 136 * (|argv| - i)
    decreases |argv| - i
  {
    if i < |argv| { PlaceFits(argv, sp, i + 1); }
  }
}
