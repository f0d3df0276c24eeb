/** The kernel heap: an address-ordered list of blocks, first fit with splitting, and forward coalescing. */
module KernelHeap {
  import opened Arithmetic

  /** sizeof(Block): size, next and free, padded to 24 bytes. */
  const BLOCK_SIZE := 24
  // ---------------------------------------------------------------- the list of blocks

  datatype Blk = Blk(addr: int, size: int, free: bool)

  function End(b: Blk): int { b.addr + BLOCK_SIZE + b.size }

  /** The blocks lie end to end from lo to hi. */
  ghost predicate Tiles(bs: seq<Blk>, lo: int, hi: int) {
    && bs != [] && bs[0].addr == lo && End(bs[|bs| - 1]) == hi
    && (forall i :: 0 <= i < |bs| ==> bs[i].size >= 0 && bs[i].size % 8 == 0)
    && (forall i :: 0 <= i < |bs| - 1 ==> Follows(bs, i))
  }

  ghost predicate Follows(bs: seq<Blk>, i: int)
    requires 0 <= i < |bs| - 1
  {
    bs[i + 1].addr == End(bs[i])
  }

  /** sum of size + BLOCK_SIZE */
  function Total(bs: seq<Blk>): int {
    if bs == [] then 0 else bs[0].size + BLOCK_SIZE + Total(bs[1..])
  }

  lemma {:induction false} Ordered(bs: seq<Blk>, lo: int, hi: int, i: int, j: int)
    requires Tiles(bs, lo, hi) && 0 <= i < j < |bs|
    ensures End(bs[i]) <= bs[j].addr
    decreases j
  {
    if i + 1 < j {
      Ordered(bs, lo, hi, i, j - 1);
      assert Follows(bs, j - 1);
    } else {
      assert Follows(bs, i);
    }
  }

  /** A tiling accounts for every byte of the heap. */
  lemma {:induction false} TilesTotal(bs: seq<Blk>, lo: int, hi: int)
    requires Tiles(bs, lo, hi)
    ensures Total(bs) == hi - lo
    decreases |bs|
  {
    if |bs| > 1 {
      assert Follows(bs, 0);
      forall i | 0 <= i < |bs[1..]| - 1 ensures Follows(bs[1..], i) {
        assert Follows(bs, i + 1);
      }
      TilesTotal(bs[1..], End(bs[0]), hi);
    }
  }

  /** Live payloads are pairwise disjoint, and disjoint from every header. */
  lemma BlocksDisjoint(bs: seq<Blk>, lo: int, hi: int, i: int, j: int, a: int)
    requires Tiles(bs, lo, hi) && 0 <= i < |bs| && 0 <= j < |bs| && i != j
    requires bs[i].addr <= a < End(bs[i])
    ensures !(bs[j].addr <= a < End(bs[j]))
  {
    if i < j { Ordered(bs, lo, hi, i, j); } else { Ordered(bs, lo, hi, j, i); }
  }

  // ---------------------------------------------------------------- malloc and free on the list

  predicate Fits(b: Blk, size: int) { b.free && b.size >= size }

  /** The first block at or after position i that fits, or |bs|. */
  function FirstFit(bs: seq<Blk>, size: int, i: nat): (r: nat)
    requires i <= |bs|
    ensures i <= r <= |bs| && (r < |bs| ==> Fits(bs[r], size))
    ensures forall j :: i <= j < r ==> !Fits(bs[j], size)
    decreases |bs| - i
  {
    if i == |bs| || Fits(bs[i], size) then i else FirstFit(bs, size, i + 1)
  }

  predicate Splits(b: Blk, size: int) { b.size >= size + BLOCK_SIZE + 8 }

  /** Taking block i for an aligned request: the front of it, if the rest can hold a header and eight bytes. */
  function Take(bs: seq<Blk>, i: nat, size: int): seq<Blk>
    requires i < |bs|
  {
    var b := bs[i];
    if Splits(b, size) then
      bs[..i] + [Blk(b.addr, size, false), Blk(b.addr + BLOCK_SIZE + size, b.size - size - BLOCK_SIZE, true)] + bs[i + 1..]
    else bs[i := b.(free := false)]
  }

  /** Freeing block i, and merging the block behind it if that one is free. */
  function Give(bs: seq<Blk>, i: nat): seq<Blk>
    requires i < |bs|
  {
    var b := bs[i];
    if i + 1 < |bs| && bs[i + 1].free then bs[..i] + [Blk(b.addr, b.size + BLOCK_SIZE + bs[i + 1].size, true)] + bs[i + 2..]
    else bs[i := b.(free := true)]
  }

  lemma Multiples(x: int, y: int)
    requires x % 8 == 0 && y % 8 == 0
    ensures (x - y - BLOCK_SIZE) % 8 == 0 && (x + BLOCK_SIZE + y) % 8 == 0
  {
    assert x - y - BLOCK_SIZE == 8 * (x / 8 - y / 8 - 3) + 0;
    Rem8(x / 8 - y / 8 - 3, 0);
    assert x + BLOCK_SIZE + y == 8 * (x / 8 + y / 8 + 3) + 0;
    Rem8(x / 8 + y / 8 + 3, 0);
  }

  lemma TakeTiles(bs: seq<Blk>, i: nat, size: int, lo: int, hi: int)
    requires Tiles(bs, lo, hi) && i < |bs| && 0 <= size && size % 8 == 0
    ensures Tiles(Take(bs, i, size), lo, hi)
  {
    var b, bs' := bs[i], Take(bs, i, size);
    if Splits(b, size) {
      Multiples(b.size, size);
      forall k | 0 <= k < |bs'| ensures bs'[k].size >= 0 && bs'[k].size % 8 == 0 {
        if k > i + 1 { assert bs'[k] == bs[k - 1]; }
      }
      forall k | 0 <= k < |bs'| - 1 ensures Follows(bs', k) {
        if k < i { assert Follows(bs, k); }
        else if k > i { assert bs'[k + 1] == bs[k] && Follows(bs, k - 1); }
      }
    } else {
      forall k | 0 <= k < |bs'| - 1 ensures Follows(bs', k) {
        assert Follows(bs, k);
      }
    }
  }

  lemma GiveTiles(bs: seq<Blk>, i: nat, lo: int, hi: int)
    requires Tiles(bs, lo, hi) && i < |bs|
    ensures Tiles(Give(bs, i), lo, hi)
  {
    var b, bs' := bs[i], Give(bs, i);
    if i + 1 < |bs| && bs[i + 1].free {
      assert Follows(bs, i);
      Multiples(b.size, bs[i + 1].size);
      forall k | 0 <= k < |bs'| - 1 ensures Follows(bs', k) {
        if k < i { assert Follows(bs, k); }
        else { assert bs'[k + 1] == bs[k + 2] && Follows(bs, k + 1); }
      }
    } else {
      forall k | 0 <= k < |bs'| - 1 ensures Follows(bs', k) {
        assert Follows(bs, k);
      }
    }
  }

  /** Freeing what was just allocated restores the list exactly when the block was split, or when there is no free
      block behind it: coalescing does not know whether the two were one block before. */
  lemma FreeUndoesMalloc(bs: seq<Blk>, i: nat, size: int, lo: int, hi: int)
    requires Tiles(bs, lo, hi) && i < |bs| && Fits(bs[i], size)
    ensures Give(Take(bs, i, size), i) == bs <==> Splits(bs[i], size) || i + 1 == |bs| || !bs[i + 1].free
  {
  }

  /** Two neighbours of which the first is taken whole and freed again: they come back as one block. */
  lemma CoalescingForgets()
    ensures var bs := [Blk(8, 16, true), Blk(48, 8, true)];
            Tiles(bs, 8, 80) && FirstFit(bs, Align8(16), 0) == 0 && Give(Take(bs, 0, Align8(16)), 0) == [Blk(8, 48, true)]
  {
    var bs := [Blk(8, 16, true), Blk(48, 8, true)];
    assert Follows(bs, 0);
    assert Take(bs, 0, 16) == [Blk(8, 16, false), Blk(48, 8, true)];
  }

  /** A request of 2^64 - 1 bytes is rounded to none: malloc hands out a block without payload. */
  lemma WrappedRequestGetsNothing()
    ensures var bs := [Blk(8, 48, true)];
            Tiles(bs, 8, 80) && FirstFit(bs, Align8(0xFFFF_FFFF_FFFF_FFFF), 0) == 0 && Take(bs, 0, Align8(0xFFFF_FFFF_FFFF_FFFF))[0] == Blk(8, 0, false)
  {
    AlignCovers(SIZE_LIMIT - 1);
  }

  // ---------------------------------------------------------------- the list in memory

  /** The words of the kernel heap by address: in a header size, next and free are eight bytes apart. */
  type Words = map<int, int>

  function Word(m: Words, a: int): int { if a in m then m[a] else 0 }

  function NextAddr(bs: seq<Blk>, i: int): int
    requires -1 <= i < |bs|
  {
    if i + 1 < |bs| then bs[i + 1].addr else 0
  }

  /** The header of block i is stored; next is null at the end of the list. */
  ghost predicate HeaderAt(m: Words, bs: seq<Blk>, i: int)
    requires 0 <= i < |bs|
  {
    var b := bs[i];
    Word(m, b.addr) == b.size && Word(m, b.addr + 8) == NextAddr(bs, i) && (Word(m, b.addr + 16) != 0 <==> b.free)
  }

  /** The headers from head on spell out the list. */
  ghost predicate Stored(m: Words, head: int, bs: seq<Blk>) {
    head == NextAddr(bs, -1) && forall i :: 0 <= i < |bs| ==> HeaderAt(m, bs, i)
  }

  ghost predicate SameHeader(m: Words, m': Words, a: int) {
    Word(m', a) == Word(m, a) && Word(m', a + 8) == Word(m, a + 8) && Word(m', a + 16) == Word(m, a + 16)
  }

  /** Writes inside one block leave the headers of the others alone. */
  lemma OthersKept(m: Words, m': Words, bs: seq<Blk>, i: int, lo: int, hi: int)
    requires Tiles(bs, lo, hi) && 0 <= i < |bs|
    requires forall a :: !(bs[i].addr <= a < End(bs[i])) ==> Word(m', a) == Word(m, a)
    ensures forall k :: 0 <= k < |bs| && k != i ==> SameHeader(m, m', bs[k].addr)
  {
    forall k | 0 <= k < |bs| && k != i ensures SameHeader(m, m', bs[k].addr) {
      if k < i { Ordered(bs, lo, hi, k, i); } else { Ordered(bs, lo, hi, i, k); }
    }
  }

  /** The stores of malloc that split block b, in order, up to the one that marks it as taken. */
  function SplitWords(m: Words, b: Blk, next: int, size: int): Words {
    var rest := b.addr + BLOCK_SIZE + size;
    m[rest := b.size - size - BLOCK_SIZE][rest + 16 := 1][rest + 8 := next][b.addr := size][b.addr + 8 := rest]
  }

  /** Both headers of a split block. */
  lemma SplitStored(m: Words, b: Blk, next: int, size: int)
    requires 0 <= size && Splits(b, size)
    ensures var m', rest := SplitWords(m, b, next, size)[b.addr + 16 := 0], b.addr + BLOCK_SIZE + size;
            && Word(m', b.addr) == size && Word(m', b.addr + 8) == rest && Word(m', b.addr + 16) == 0
            && Word(m', rest) == b.size - size - BLOCK_SIZE && Word(m', rest + 8) == next && Word(m', rest + 16) == 1
            && forall a :: !(b.addr <= a < End(b)) ==> Word(m', a) == Word(m, a)
  {
  }

  lemma TakeStored(m: Words, head: int, bs: seq<Blk>, i: nat, size: int, lo: int, hi: int)
    requires Tiles(bs, lo, hi) && Stored(m, head, bs) && i < |bs| && 0 <= size && Splits(bs[i], size)
    ensures Stored(SplitWords(m, bs[i], NextAddr(bs, i), size)[bs[i].addr + 16 := 0], head, Take(bs, i, size))
  {
    hide Tiles, SplitWords;
    var b, bs' := bs[i], Take(bs, i, size);
    var m' := SplitWords(m, b, NextAddr(bs, i), size)[b.addr + 16 := 0];
    SplitStored(m, b, NextAddr(bs, i), size);
    OthersKept(m, m', bs, i, lo, hi);
    forall k | 0 <= k < |bs'| ensures HeaderAt(m', bs', k) {
      if k < i {
        assert HeaderAt(m, bs, k);
      } else if k > i + 1 {
        assert HeaderAt(m, bs, k - 1) && SameHeader(m, m', bs[k - 1].addr);
      }
    }
  }

  lemma MarkStored(m: Words, head: int, bs: seq<Blk>, i: nat, free: bool, lo: int, hi: int)
    requires Tiles(bs, lo, hi) && Stored(m, head, bs) && i < |bs|
    ensures Stored(m[bs[i].addr + 16 := if free then 1 else 0], head, bs[i := bs[i].(free := free)])
  {
    var bs', m' := bs[i := bs[i].(free := free)], m[bs[i].addr + 16 := if free then 1 else 0];
    OthersKept(m, m', bs, i, lo, hi);
    forall k | 0 <= k < |bs'| ensures HeaderAt(m', bs', k) {
      assert HeaderAt(m, bs, k);
    }
  }

  /** The stores of free that merge block b with its neighbour n. */
  function MergeWords(m: Words, b: Blk, n: Blk, next: int): Words { m[b.addr := b.size + BLOCK_SIZE + n.size][b.addr + 8 := next] }

  lemma MergedHeader(m: Words, b: Blk, n: Blk, next: int)
    requires b.size >= 0
    ensures var m' := MergeWords(m, b, n, next);
            && Word(m', b.addr) == b.size + BLOCK_SIZE + n.size && Word(m', b.addr + 8) == next
            && Word(m', b.addr + 16) == Word(m, b.addr + 16)
            && forall a :: !(b.addr <= a < End(b)) ==> Word(m', a) == Word(m, a)
  {
  }

  lemma MergeStored(m: Words, head: int, bs: seq<Blk>, i: nat, lo: int, hi: int)
    requires Tiles(bs, lo, hi) && Stored(m, head, bs) && i + 1 < |bs| && bs[i].free && bs[i + 1].free
    ensures Stored(MergeWords(m, bs[i], bs[i + 1], NextAddr(bs, i + 1)), head, Give(bs, i))
  {
    hide Word, MergeWords, Follows;
    var bs', m' := Give(bs, i), MergeWords(m, bs[i], bs[i + 1], NextAddr(bs, i + 1));
    MergedHeader(m, bs[i], bs[i + 1], NextAddr(bs, i + 1));
    OthersKept(m, m', bs, i, lo, hi);
    assert HeaderAt(m, bs, i);
    forall k | 0 <= k < |bs'| ensures HeaderAt(m', bs', k) {
      if k < i {
        assert HeaderAt(m, bs, k);
      } else if k > i {
        assert HeaderAt(m, bs, k + 1) && SameHeader(m, m', bs[k + 1].addr);
      }
    }
  }

  ghost predicate InPayload(bs: seq<Blk>, a: int) {
    exists i :: 0 <= i < |bs| && bs[i].addr + BLOCK_SIZE <= a < End(bs[i])
  }

  /** Whatever the kernel writes into the payloads it holds, or held, the list stays intact. */
  lemma PayloadMemory(m: Words, m': Words, head: int, bs: seq<Blk>, lo: int, hi: int)
    requires Tiles(bs, lo, hi) && Stored(m, head, bs)
    requires forall a :: Word(m', a) != Word(m, a) ==> InPayload(bs, a)
    ensures Stored(m', head, bs)
  {
    forall k | 0 <= k < |bs| ensures HeaderAt(m', bs, k) {
      assert HeaderAt(m, bs, k);
      HeaderNotPayload(bs, lo, hi, k, 0);
      HeaderNotPayload(bs, lo, hi, k, 8);
      HeaderNotPayload(bs, lo, hi, k, 16);
    }
  }

  lemma HeaderNotPayload(bs: seq<Blk>, lo: int, hi: int, k: int, offset: int)
    requires Tiles(bs, lo, hi) && 0 <= k < |bs| && 0 <= offset < BLOCK_SIZE
    ensures !InPayload(bs, bs[k].addr + offset)
  {
    forall i | 0 <= i < |bs| ensures !(bs[i].addr + BLOCK_SIZE <= bs[k].addr + offset < End(bs[i])) {
      if i < k { Ordered(bs, lo, hi, i, k); } else if k < i { Ordered(bs, lo, hi, k, i); }
    }
  }

  class Heap {
    const lo: int  // __heap_start
    const hi: int  // __heap_end
    var mem: Words
    var freeList: int
    ghost var blocks: seq<Blk>

    ghost predicate Valid()
      reads this
    {
      0 < lo && lo % 8 == 0 && hi < SIZE_LIMIT && Tiles(blocks, lo, hi) && Stored(mem, freeList, blocks)
    }

    /** heap_init: one free block fills the heap. */
    constructor (lo: int, hi: int)
      requires 0 < lo && lo + BLOCK_SIZE <= hi < SIZE_LIMIT && lo % 8 == 0 && hi % 8 == 0
      ensures Valid() && this.lo == lo && this.hi == hi && blocks == [Blk(lo, hi - lo - BLOCK_SIZE, true)]
    {
      this.lo, this.hi := lo, hi;
      freeList := lo;
      mem := map[lo := hi - lo - BLOCK_SIZE, lo + 8 := 0, lo + 16 := 1];
      blocks := [Blk(lo, hi - lo - BLOCK_SIZE, true)];
    }

    /** malloc on the first block that fits, curr, which is at position k of the list. */
    method TakeBlock(curr: int, size: int, ghost k: nat)
      requires Valid() && k < |blocks| && curr == blocks[k].addr && Fits(blocks[k], size) && 0 <= size && size % 8 == 0
      modifies this`mem, this`blocks
      ensures Valid() && blocks == Take(old(blocks), k, size)
    {
      hide Tiles;
      assert HeaderAt(mem, blocks, k);
      SizeInHeap(blocks, lo, hi, k);
      TakeTiles(blocks, k, size, lo, hi);
      assert size + BLOCK_SIZE + 8 < SIZE_LIMIT;
      if Word(mem, curr) >= (size + BLOCK_SIZE + 8) % SIZE_LIMIT {
        TakeStored(mem, freeList, blocks, k, size, lo, hi);
        ghost var b, m := blocks[k], mem;
        var rest := curr + BLOCK_SIZE + size;
        mem := mem[rest := Word(mem, curr) - size - BLOCK_SIZE];
        mem := mem[rest + 16 := 1];
        mem := mem[rest + 8 := Word(mem, curr + 8)];
        mem := mem[curr := size];
        mem := mem[curr + 8 := rest];
        assert mem == SplitWords(m, b, NextAddr(blocks, k), size);
      } else {
        MarkStored(mem, freeList, blocks, k, false, lo, hi);
      }
      mem := mem[curr + 16 := 0];
      blocks := Take(blocks, k, size);
    }

    /** malloc. The lowest free block that fits the rounded size is taken, split if the rest is large enough; 0
        (NULL) is returned exactly when none fits. */
    method Malloc(request: int) returns (ptr: int)
      requires Valid() && 0 <= request < SIZE_LIMIT
      modifies this
      ensures Valid()
      ensures var size := Align8(request);
              var i := FirstFit(old(blocks), size, 0);
              if i == |old(blocks)| then ptr == 0 && unchanged(this)
              else ptr == old(blocks)[i].addr + BLOCK_SIZE && blocks == Take(old(blocks), i, size)
    {
      AlignCovers(request);
      var size := Align8(request);
      var curr := freeList;
      ghost var k := 0;
      while curr != 0
        invariant 0 <= k <= |blocks| && curr == NextAddr(blocks, k - 1)
        invariant FirstFit(blocks, size, 0) == FirstFit(blocks, size, k)
        invariant unchanged(this)
        decreases |blocks| - k
      {
        assert HeaderAt(mem, blocks, k);
        if Word(mem, curr + 16) != 0 && Word(mem, curr) >= size {
          TakeBlock(curr, size, k);
          return curr + BLOCK_SIZE;
        }
        curr := Word(mem, curr + 8);
        k := k + 1;
      }
      AddressesPositive(blocks, lo, hi);
      return 0;
    }

    /** free of a pointer to the payload of block i, or of NULL. */
    method Free(ptr: int, ghost i: int)
      requires Valid() && (ptr != 0 ==> 0 <= i < |blocks| && ptr == blocks[i].addr + BLOCK_SIZE)
      modifies this
      ensures Valid()
      ensures blocks == if ptr == 0 then old(blocks) else Give(old(blocks), i)
    {
      if ptr == 0 {
        return;
      }
      hide Tiles, Give;
      var block := ptr - BLOCK_SIZE;
      AddressesPositive(blocks, lo, hi);
      GiveMarked(blocks, i);
      MarkStored(mem, freeList, blocks, i, true, lo, hi);
      MarkTiles(blocks, i, true, lo, hi);
      mem := mem[block + 16 := 1];
      blocks := blocks[i := blocks[i].(free := true)];
      assert HeaderAt(mem, blocks, i);
      var next := Word(mem, block + 8);
      if next != 0 {
        assert HeaderAt(mem, blocks, i + 1);
        if Word(mem, next + 16) != 0 {
          Merge(block, next, i);
        }
      }
    }

    /** The merging branch of free, for block i, which is free, and its free neighbour. */
    method Merge(block: int, next: int, ghost i: nat)
      requires Valid() && i + 1 < |blocks| && blocks[i].free && blocks[i + 1].free
      requires block == blocks[i].addr && next == blocks[i + 1].addr
      modifies this`mem, this`blocks
      ensures Valid() && blocks == Give(old(blocks), i)
    {
      assert HeaderAt(mem, blocks, i) && HeaderAt(mem, blocks, i + 1) && Follows(blocks, i);
      ghost var m := mem;
      GiveTiles(blocks, i, lo, hi);
      MergeStored(mem, freeList, blocks, i, lo, hi);
      mem := mem[block := Word(mem, block) + BLOCK_SIZE + Word(mem, next)];
      mem := mem[block + 8 := Word(mem, next + 8)];
      assert mem == MergeWords(m, blocks[i], blocks[i + 1], NextAddr(blocks, i + 1));
      blocks := Give(blocks, i);
    }
  }

  lemma GiveMarked(bs: seq<Blk>, i: nat)
    requires i < |bs|
    ensures var marked := bs[i := bs[i].(free := true)];
            if i + 1 < |bs| && bs[i + 1].free then Give(bs, i) == Give(marked, i) else Give(bs, i) == marked
  {
  }

  lemma MarkTiles(bs: seq<Blk>, i: nat, free: bool, lo: int, hi: int)
    requires Tiles(bs, lo, hi) && i < |bs|
    ensures Tiles(bs[i := bs[i].(free := free)], lo, hi)
  {
    var bs' := bs[i := bs[i].(free := free)];
    forall k | 0 <= k < |bs'| - 1 ensures Follows(bs', k) {
      assert Follows(bs, k);
    }
  }

  lemma SizeInHeap(bs: seq<Blk>, lo: int, hi: int, i: int)
    requires Tiles(bs, lo, hi) && 0 <= i < |bs|
    ensures lo <= bs[i].addr && End(bs[i]) <= hi && bs[i].size % 8 == 0
  {
    if i > 0 { Ordered(bs, lo, hi, 0, i); }
    if i < |bs| - 1 { Ordered(bs, lo, hi, i, |bs| - 1); }
  }

  lemma AddressesPositive(bs: seq<Blk>, lo: int, hi: int)
    requires Tiles(bs, lo, hi) && 0 < lo
    ensures forall i :: 0 <= i < |bs| ==> bs[i].addr > 0
  {
    forall i | 0 <= i < |bs| ensures bs[i].addr > 0 {
      if i > 0 { Ordered(bs, lo, hi, 0, i); }
    }
  }

  /** What a caller of malloc gets: a live payload of its own, inside the heap. It is at least as large as requested
      exactly when rounding the request up does not wrap around. */
  lemma MallocServes(bs: seq<Blk>, request: int, lo: int, hi: int)
    requires Tiles(bs, lo, hi) && 0 < lo && hi < SIZE_LIMIT
    requires 0 <= request < SIZE_LIMIT && FirstFit(bs, Align8(request), 0) < |bs|
    ensures var i := FirstFit(bs, Align8(request), 0);
            var bs' := Take(bs, i, Align8(request));
            && bs'[i].addr == bs[i].addr && !bs'[i].free
            && lo <= bs'[i].addr && End(bs'[i]) <= hi && Total(bs') == hi - lo
            && (bs'[i].size >= request <==> request <= 0xFFFF_FFFF_FFFF_FFF8)
  {
    AlignCovers(request);
    var i := FirstFit(bs, Align8(request), 0);
    var bs' := Take(bs, i, Align8(request));
    TakeTiles(bs, i, Align8(request), lo, hi);
    TilesTotal(bs', lo, hi);
    if i > 0 { Ordered(bs', lo, hi, 0, i); }
    if i < |bs'| - 1 { Ordered(bs', lo, hi, i, |bs'| - 1); }
  }

  /** What is left of the block that was found. A block larger than the rounded request by 32 bytes or more is cut: the
      front is taken and the rest, less a header of 24, is free behind it. Any other block is taken whole, so that less than
      32 bytes are wasted. All other blocks stay. */
  lemma MallocWastes(bs: seq<Blk>, request: int, lo: int, hi: int)
    requires Tiles(bs, lo, hi) && 0 <= request < SIZE_LIMIT && FirstFit(bs, Align8(request), 0) < |bs|
    ensures var size, i := Align8(request), FirstFit(bs, Align8(request), 0);
            var bs', n := Take(bs, i, size), |bs| - i - 1;
            && bs[i].free && bs[i].size >= size && (forall j :: 0 <= j < i ==> !bs[j].free || bs[j].size < size)
            && !bs'[i].free && size <= bs'[i].size < size + 32 && bs'[..i] == bs[..i] && bs'[|bs'| - n..] == bs[i + 1..]
            && if bs[i].size >= size + 32
               then |bs'| == |bs| + 1 && bs'[i].size == size && bs'[i + 1].free && bs'[i + 1].size == bs[i].size - size - 24
               else |bs'| == |bs| && bs'[i].size == bs[i].size
  {
  }

  /** What free leaves: one free block in the place of the freed one, and of the neighbour behind it if that is free. */
  lemma FreeMerges(bs: seq<Blk>, i: nat, lo: int, hi: int)
    requires Tiles(bs, lo, hi) && i < |bs|
    ensures var bs', merged := Give(bs, i), i + 1 < |bs| && bs[i + 1].free;
            && |bs'| == |bs| - (if merged then 1 else 0)
            && bs'[i] == Blk(bs[i].addr, bs[i].size + (if merged then 24 + bs[i + 1].size else 0), true)
            && bs'[..i] == bs[..i] && bs'[i + 1..] == bs[(if merged then i + 2 else i + 1)..]
  {
  }
}
