/** Memory seen byte by byte: each 64-bit word holds eight bytes, the lowest first. */
module Bytes {
  import opened Arithmetic
  import opened Sv39
  import opened PageMemory

  type Byte = b: int | 0 <= b < 256

  function ByteOf(w: int, j: nat): (b: Byte)
    decreases j
  {
    if j == 0 then w % 256 else ByteOf(w / 256, j - 1)
  }

  function PutByte(w: int, j: nat, b: Byte): int
    decreases j
  {
    if j == 0 then w / 256 * 256 + b else PutByte(w / 256, j - 1, b) * 256 + w % 256
  }

  lemma {:induction false} PutThenGet(w: int, j: nat, b: Byte, i: nat)
    ensures ByteOf(PutByte(w, j, b), i) == if i == j then b else ByteOf(w, i)
    decreases j
  {
    if j == 0 {
      assert PutByte(w, j, b) / 256 == w / 256;
    } else {
      var v := PutByte(w / 256, j - 1, b);
      assert PutByte(w, j, b) / 256 == v && PutByte(w, j, b) % 256 == w % 256;
      if i > 0 {
        PutThenGet(w / 256, j - 1, b, i - 1);
      }
    }
  }

  function Pow256(n: nat): int { if n == 0 then 1 else 256 * Pow256(n - 1) }

  /** The number in the low n bytes of a word. */
  function LowBytes(x: int, n: nat): int
    decreases n
  {
    if n == 0 then 0 else x % 256 + 256 * LowBytes(x / 256, n - 1)
  }

  lemma {:induction false} LowBytesOfWord(x: int, n: nat)
    requires 0 <= x < Pow256(n)
    ensures LowBytes(x, n) == x
    decreases n
  {
    if n > 0 { LowBytesOfWord(x / 256, n - 1); }
  }

  /** The frame that holds address a. */
  function FrameAt(a: int): int { a / PAGE_SIZE }

  /** The byte at physical address a. */
  function MemByte(mem: Memory, a: int): Byte
  {
    ByteOf(Entry(mem, a / PAGE_SIZE, a % PAGE_SIZE / 8), a % 8)
  }

  function StoreByte(mem: Memory, a: int, b: Byte): Memory
  {
    var f, k := a / PAGE_SIZE, a % PAGE_SIZE / 8;
    Store(mem, f, k, PutByte(Entry(mem, f, k), a % 8, b))
  }

  lemma SameWordSameByte(a: int, a': int)
    requires a / PAGE_SIZE == a' / PAGE_SIZE && a % PAGE_SIZE / 8 == a' % PAGE_SIZE / 8 && a % 8 == a' % 8
    ensures a == a'
  {
    OffsetRem8(a);
    OffsetRem8(a');
    assert a % PAGE_SIZE == 8 * (a % PAGE_SIZE / 8) + a % PAGE_SIZE % 8;
    assert a' % PAGE_SIZE == 8 * (a' % PAGE_SIZE / 8) + a' % PAGE_SIZE % 8;
  }

  lemma StoreByteReads(mem: Memory, a: int, b: Byte, a': int)
    ensures MemByte(StoreByte(mem, a, b), a') == if a' == a then b else MemByte(mem, a')
  {
    var f, k := a / PAGE_SIZE, a % PAGE_SIZE / 8;
    var f', k' := a' / PAGE_SIZE, a' % PAGE_SIZE / 8;
    PutThenGet(Entry(mem, f, k), a % 8, b, a' % 8);
    if f == f' && k == k' && a % 8 == a' % 8 {
      SameWordSameByte(a, a');
    }
  }

  /** *(uint8_t *)a = b, inside a frame in use. */
  method WriteByte(ram: PageMemory, a: int, b: Byte)
    requires ram.Valid() && FrameAt(a) in ram.role
    modifies ram`mem
    ensures ram.Valid() && ram.mem == StoreByte(old(ram.mem), a, b)
  {
    var f, k := a / PAGE_SIZE, a % PAGE_SIZE / 8;
    ram.StoreWord(f, k, PutByte(Entry(ram.mem, f, k), a % 8, b));
  }

  /** The first n bytes of src are at dst; every other byte is as in mem0. */
  ghost predicate CopiedTo(mem0: Memory, mem: Memory, dst: int, src: seq<Byte>, n: nat)
    requires n <= |src|
  {
    forall a :: MemByte(mem, a) == if dst <= a < dst + n then src[a - dst] else MemByte(mem0, a)
  }

  lemma CopiedNext(mem0: Memory, mem: Memory, dst: int, src: seq<Byte>, n: nat)
    requires n < |src| && CopiedTo(mem0, mem, dst, src, n)
    ensures CopiedTo(mem0, StoreByte(mem, dst + n, src[n]), dst, src, n + 1)
  {
    var mem' := StoreByte(mem, dst + n, src[n]);
    forall a ensures MemByte(mem', a) == if dst <= a < dst + n + 1 then src[a - dst] else MemByte(mem0, a) {
      StoreByteReads(mem, dst + n, src[n], a);
    }
  }

  /** memcpy(dst, src, |src|), where src lies outside the allocator's frames. */
  method MemcpyIn(ram: PageMemory, dst: int, src: seq<Byte>)
    requires ram.Valid() && forall a :: dst <= a < dst + |src| ==> FrameAt(a) in ram.role
    modifies ram`mem
    ensures ram.Valid()
    ensures forall a :: MemByte(ram.mem, a) == if dst <= a < dst + |src| then src[a - dst] else MemByte(old(ram.mem), a)
    ensures forall g, k {:trigger Entry(ram.mem, g, k)} :: 0 <= k < ENTRIES && (Addr(g + 1) <= dst || dst + |src| <= Addr(g)) ==>
              Entry(ram.mem, g, k) == Entry(old(ram.mem), g, k)
  {
    for i := 0 to |src|
      invariant ram.Valid()
      invariant CopiedTo(old(ram.mem), ram.mem, dst, src, i)
      invariant forall g, k {:trigger Entry(ram.mem, g, k)} :: 0 <= k < ENTRIES && (Addr(g + 1) <= dst || dst + |src| <= Addr(g)) ==>
                  Entry(ram.mem, g, k) == Entry(old(ram.mem), g, k)
    {
      CopiedNext(old(ram.mem), ram.mem, dst, src, i);
      WriteByte(ram, dst + i, src[i]);
    }
  }
}
