/** The user library's malloc and free: a last-in first-out list of free blocks, searched first fit and split, on a
    heap that sbrk extends at its end. */
module UserHeap {
  import opened Arithmetic

  /** sizeof(block_t): size and next. */
  const BLOCK_SIZE := 16
  const LONG_MAX := 0x7FFF_FFFF_FFFF_FFFF

  // ---------------------------------------------------------------- blocks

  /** A block: the address of its header and the size of its payload. */
  datatype Blk = Blk(addr: int, size: int)

  function End(b: Blk): int { b.addr + BLOCK_SIZE + b.size }

  ghost predicate Follows(bs: seq<Blk>, i: int)
    requires 0 <= i < |bs| - 1
  {
    bs[i + 1].addr == End(bs[i])
  }

  /** The blocks, free and live, lie end to end from lo to hi. */
  ghost predicate Tiles(bs: seq<Blk>, lo: int, hi: int) {
    && (if bs == [] then lo == hi else bs[0].addr == lo && End(bs[|bs| - 1]) == hi)
    && (forall i :: 0 <= i < |bs| ==> bs[i].size >= 0 && bs[i].size % 8 == 0)
    && (forall i :: 0 <= i < |bs| - 1 ==> Follows(bs, i))
  }

  lemma {:induction false} Ordered(bs: seq<Blk>, lo: int, hi: int, i: int, j: int)
    requires Tiles(bs, lo, hi) && 0 <= i < j < |bs|
    ensures End(bs[i]) <= bs[j].addr
    decreases j
  {
    if i + 1 < j {
      Ordered(bs, lo, hi, i, j - 1);
      assert Follows(bs, j - 1);
    } else {
      assert Follows(bs, i);
    }
  }

  lemma InsideHeap(bs: seq<Blk>, lo: int, hi: int, b: Blk)
    requires Tiles(bs, lo, hi) && b in bs
    ensures lo <= b.addr && End(b) <= hi && 0 <= b.size && b.size % 8 == 0
  {
    var i :| 0 <= i < |bs| && bs[i] == b;
    if i > 0 { Ordered(bs, lo, hi, 0, i); }
    if i < |bs| - 1 { Ordered(bs, lo, hi, i, |bs| - 1); }
  }

  /** Two different blocks share no byte. */
  lemma Apart(bs: seq<Blk>, lo: int, hi: int, b: Blk, c: Blk)
    requires Tiles(bs, lo, hi) && b in bs && c in bs && b != c
    ensures End(b) <= c.addr || End(c) <= b.addr
  {
    var i :| 0 <= i < |bs| && bs[i] == b;
    var j :| 0 <= j < |bs| && bs[j] == c;
    if i < j { Ordered(bs, lo, hi, i, j); } else { Ordered(bs, lo, hi, j, i); }
  }

  /** Block b is cut after size payload bytes. */
  function Rest(b: Blk, size: int): Blk { Blk(b.addr + BLOCK_SIZE + size, b.size - size - BLOCK_SIZE) }

  function Cut(bs: seq<Blk>, i: nat, size: int): seq<Blk>
    requires i < |bs|
  {
    bs[..i] + [Blk(bs[i].addr, size), Rest(bs[i], size)] + bs[i + 1..]
  }

  lemma Multiples(x: int, y: int)
    requires x % 8 == 0 && y % 8 == 0
    ensures (x - y - BLOCK_SIZE) % 8 == 0
  {
    assert x - y - BLOCK_SIZE == 8 * (x / 8 - y / 8 - 2) + 0;
    Rem8(x / 8 - y / 8 - 2, 0);
  }

  lemma CutTiles(bs: seq<Blk>, lo: int, hi: int, i: nat, size: int)
    requires Tiles(bs, lo, hi) && i < |bs| && 0 <= size && size % 8 == 0 && bs[i].size >= size + BLOCK_SIZE
    ensures Tiles(Cut(bs, i, size), lo, hi)
  {
    var bs' := Cut(bs, i, size);
    Multiples(bs[i].size, size);
    forall k | 0 <= k < |bs'| ensures bs'[k].size >= 0 && bs'[k].size % 8 == 0 {
      if k > i + 1 { assert bs'[k] == bs[k - 1]; }
    }
    forall k | 0 <= k < |bs'| - 1 ensures Follows(bs', k) {
      if k < i { assert Follows(bs, k); }
      else if k > i { assert bs'[k + 1] == bs[k] && Follows(bs, k - 1); }
    }
  }

  lemma CutMembers(bs: seq<Blk>, lo: int, hi: int, i: nat, size: int)
    requires Tiles(bs, lo, hi) && i < |bs|
    ensures forall c :: c in Cut(bs, i, size) <==> (c in bs && c != bs[i]) || c == Blk(bs[i].addr, size) || c == Rest(bs[i], size)
  {
    var bs' := Cut(bs, i, size);
    forall c | c in bs && c != bs[i] ensures c in bs' {
      var k :| 0 <= k < |bs| && bs[k] == c;
      assert c == bs'[if k < i then k else k + 1];
    }
    assert bs'[i] == Blk(bs[i].addr, size) && bs'[i + 1] == Rest(bs[i], size);
    forall c | c in bs' ensures (c in bs && c != bs[i]) || c == Blk(bs[i].addr, size) || c == Rest(bs[i], size) {
      var k :| 0 <= k < |bs'| && bs'[k] == c;
      if k < i { assert c == bs[k]; Ordered(bs, lo, hi, k, i); }
      else if k > i + 1 { assert c == bs[k - 1]; Ordered(bs, lo, hi, i, k - 1); }
    }
  }

  lemma AppendTiles(bs: seq<Blk>, lo: int, hi: int, size: int)
    requires Tiles(bs, lo, hi) && 0 <= size && size % 8 == 0
    ensures Tiles(bs + [Blk(hi, size)], lo, hi + BLOCK_SIZE + size)
  {
    var bs' := bs + [Blk(hi, size)];
    forall k | 0 <= k < |bs'| - 1 ensures Follows(bs', k) {
      if k < |bs| - 1 { assert Follows(bs, k); }
    }
  }

  // ---------------------------------------------------------------- headers in memory

  /** The words of the user heap by address: a block's size is at its address, its link eight bytes further. */
  type Words = map<int, int>

  function Word(m: Words, a: int): int { if a in m then m[a] else 0 }

  ghost predicate SizesStored(m: Words, bs: seq<Blk>) {
    forall b :: b in bs ==> Word(m, b.addr) == b.size
  }

  function LinkAfter(free: seq<Blk>, i: int): int
    requires -1 <= i < |free|
  {
    if i + 1 < |free| then free[i + 1].addr else 0
  }

  ghost predicate LinkStored(m: Words, free: seq<Blk>, k: int)
    requires 0 <= k < |free|
  {
    Word(m, free[k].addr + 8) == LinkAfter(free, k)
  }

  /** The free list is chained through its link words from head on. */
  ghost predicate FreeChain(m: Words, head: int, free: seq<Blk>) {
    && head == LinkAfter(free, -1)
    && (forall k :: 0 <= k < |free| ==> LinkStored(m, free, k))
  }

  /** m' differs from m only in bytes of block b. */
  ghost predicate OnlyIn(m: Words, m': Words, b: Blk) {
    forall a :: !(b.addr <= a < End(b)) ==> Word(m', a) == Word(m, a)
  }

  lemma OthersKept(m: Words, m': Words, bs: seq<Blk>, lo: int, hi: int, b: Blk)
    requires Tiles(bs, lo, hi) && OnlyIn(m, m', b) && b in bs
    ensures forall c :: c in bs && c != b ==> Word(m', c.addr) == Word(m, c.addr) && Word(m', c.addr + 8) == Word(m, c.addr + 8)
  {
    forall c | c in bs && c != b ensures Word(m', c.addr) == Word(m, c.addr) && Word(m', c.addr + 8) == Word(m, c.addr + 8) {
      Apart(bs, lo, hi, b, c);
      InsideHeap(bs, lo, hi, b);
      InsideHeap(bs, lo, hi, c);
    }
  }

  // ---------------------------------------------------------------- malloc and free on the lists

  /** The first block of the free list, from position k on, that fits, or |free|. */
  function FirstFit(free: seq<Blk>, size: int, k: nat): (r: nat)
    requires k <= |free|
    ensures k <= r <= |free| && (r < |free| ==> free[r].size >= size)
    ensures forall j :: k <= j < r ==> free[j].size < size
    decreases |free| - k
  {
    if k == |free| || free[k].size >= size then k else FirstFit(free, size, k + 1)
  }

  predicate Splits(b: Blk, size: int) { b.size >= size + BLOCK_SIZE + 8 }

  ghost function IndexOf(bs: seq<Blk>, b: Blk): (i: nat)
    requires b in bs
    ensures i < |bs| && bs[i] == b
  {
    var i :| 0 <= i < |bs| && bs[i] == b;
    i
  }

  /** Every block, and the free ones in the order of the list. */
  datatype Blocks = Blocks(all: seq<Blk>, free: seq<Blk>) {
    ghost function Live(): set<Blk> { set b | b in all && b !in free }
  }

  /** Both sequences fit together: the blocks tile the heap and the free list names each free block once. */
  ghost predicate Sound(h: Blocks, lo: int, hi: int) {
    && Tiles(h.all, lo, hi)
    && (forall j, k :: 0 <= j < k < |h.free| ==> h.free[j] != h.free[k])
    && (forall f :: f in h.free ==> f in h.all)
  }

  /** Taking block k of the free list for a rounded size; what is cut off takes its place in the list. */
  ghost function Take(h: Blocks, k: nat, size: int): Blocks
    requires k < |h.free| && h.free[k] in h.all
  {
    var b := h.free[k];
    if Splits(b, size) then Blocks(Cut(h.all, IndexOf(h.all, b), size), h.free[k := Rest(b, size)])
    else Blocks(h.all, h.free[..k] + h.free[k + 1..])
  }

  /** The block handed out. */
  function Taken(b: Blk, size: int): Blk { if Splits(b, size) then Blk(b.addr, size) else b }

  function Append(h: Blocks, hi: int, size: int): Blocks { Blocks(h.all + [Blk(hi, size)], h.free) }

  function Give(h: Blocks, b: Blk): Blocks { Blocks(h.all, [b] + h.free) }

  /** No two blocks start at the same address, so a new block is told apart from the others by its address. */
  lemma SameAddress(bs: seq<Blk>, lo: int, hi: int, b: Blk, c: Blk)
    requires Tiles(bs, lo, hi) && b in bs && c in bs && b.addr <= c.addr < End(b)
    ensures b == c
  {
    if b != c {
      Apart(bs, lo, hi, b, c);
      InsideHeap(bs, lo, hi, c);
    }
  }

  lemma SplitFree(free: seq<Blk>, k: nat, r: Blk, c: Blk)
    requires k < |free| && forall i, j :: 0 <= i < j < |free| ==> free[i] != free[j]
    ensures c in free[k := r] <==> c == r || (c in free && c != free[k])
  {
    var free' := free[k := r];
    assert free'[k] == r;
    if c in free && c != free[k] {
      var j :| 0 <= j < |free| && free[j] == c;
      assert c == free'[j];
    }
  }

  lemma SplitSound(h: Blocks, k: nat, size: int, lo: int, hi: int)
    requires Sound(h, lo, hi) && k < |h.free| && 0 <= size && size % 8 == 0 && Splits(h.free[k], size)
    ensures var h', t := Take(h, k, size), Blk(h.free[k].addr, size);
            Sound(h', lo, hi) && t !in h.Live() && h'.Live() == h.Live() + {t}
  {
    var b, h', t, r := h.free[k], Take(h, k, size), Blk(h.free[k].addr, size), Rest(h.free[k], size);
    InsideHeap(h.all, lo, hi, b);
    CutTiles(h.all, lo, hi, IndexOf(h.all, b), size);
    CutMembers(h.all, lo, hi, IndexOf(h.all, b), size);
    if r in h.all { SameAddress(h.all, lo, hi, b, r); }
    if t in h.all { SameAddress(h.all, lo, hi, b, t); }
    forall c ensures c in h'.free <==> c == r || (c in h.free && c != b) {
      SplitFree(h.free, k, r, c);
    }
  }

  lemma UnlinkSound(h: Blocks, k: nat, lo: int, hi: int)
    requires Sound(h, lo, hi) && k < |h.free|
    ensures var b, h' := h.free[k], Blocks(h.all, h.free[..k] + h.free[k + 1..]);
            Sound(h', lo, hi) && b !in h.Live() && h'.Live() == h.Live() + {b}
  {
  }

  /** malloc from the free list: the blocks still tile the heap, and exactly one block more is live; it was free
      before and is large enough. */
  lemma TakeSound(h: Blocks, k: nat, size: int, lo: int, hi: int)
    requires Sound(h, lo, hi) && k < |h.free| && 0 <= size <= h.free[k].size && size % 8 == 0
    ensures var h', t := Take(h, k, size), Taken(h.free[k], size);
            Sound(h', lo, hi) && t.size >= size && t !in h.Live() && h'.Live() == h.Live() + {t}
  {
    if Splits(h.free[k], size) { SplitSound(h, k, size, lo, hi); } else { UnlinkSound(h, k, lo, hi); }
  }

  /** malloc when nothing fits: the new block lies behind every old one. */
  lemma AppendSound(h: Blocks, size: int, lo: int, hi: int)
    requires Sound(h, lo, hi) && 0 <= size && size % 8 == 0
    ensures var h', t := Append(h, hi, size), Blk(hi, size);
            Sound(h', lo, hi + BLOCK_SIZE + size) && t !in h.all && h'.Live() == h.Live() + {t}
  {
    AppendTiles(h.all, lo, hi, size);
    if Blk(hi, size) in h.all { InsideHeap(h.all, lo, hi, Blk(hi, size)); }
  }

  /** free: exactly one block less is live. */
  lemma GiveSound(h: Blocks, b: Blk, lo: int, hi: int)
    requires Sound(h, lo, hi) && b in h.Live()
    ensures Sound(Give(h, b), lo, hi) && Give(h, b).Live() == h.Live() - {b}
  {
  }

  /** Live payloads are pairwise disjoint, inside the heap, and clear of every header. */
  lemma PayloadsDisjoint(h: Blocks, lo: int, hi: int, b: Blk, c: Blk, a: int)
    requires Sound(h, lo, hi) && b in h.Live() && c in h.all && b != c && b.addr + BLOCK_SIZE <= a < End(b)
    ensures lo <= a < hi && !(c.addr <= a < End(c))
  {
    Apart(h.all, lo, hi, b, c);
    InsideHeap(h.all, lo, hi, b);
  }

  // ---------------------------------------------------------------- the same steps on memory

  /** The headers of all blocks and the links of the free list are in memory. */
  ghost predicate Stored(m: Words, head: int, h: Blocks) {
    SizesStored(m, h.all) && FreeChain(m, head, h.free)
  }

  /** Giving position k of the list a new link target: the word of its predecessor, or the list head. */
  function Relink(m: Words, free: seq<Blk>, k: nat, to: int): Words
    requires k < |free|
  {
    if k == 0 then m else m[free[k - 1].addr + 8 := to]
  }

  lemma RelinkOthers(m: Words, h: Blocks, lo: int, hi: int, k: nat, to: int)
    requires Sound(h, lo, hi) && k < |h.free|
    ensures SizesStored(m, h.all) ==> SizesStored(Relink(m, h.free, k, to), h.all)
    ensures forall j :: 0 <= j < |h.free| && j != k - 1 ==>
              Word(Relink(m, h.free, k, to), h.free[j].addr + 8) == Word(m, h.free[j].addr + 8)
  {
    if k > 0 {
      var p, m' := h.free[k - 1], Relink(m, h.free, k, to);
      InsideHeap(h.all, lo, hi, p);
      assert OnlyIn(m, m', p);
      OthersKept(m, m', h.all, lo, hi, p);
    }
  }

  lemma UnlinkStored(m: Words, head: int, h: Blocks, lo: int, hi: int, k: nat)
    requires Sound(h, lo, hi) && Stored(m, head, h) && k < |h.free|
    ensures var next := LinkAfter(h.free, k);
            Stored(Relink(m, h.free, k, next), if k == 0 then next else head, Blocks(h.all, h.free[..k] + h.free[k + 1..]))
  {
    var next, free' := LinkAfter(h.free, k), h.free[..k] + h.free[k + 1..];
    var m' := Relink(m, h.free, k, next);
    RelinkOthers(m, h, lo, hi, k, next);
    forall j | 0 <= j < |free'| ensures LinkStored(m', free', j) {
      assert LinkStored(m, h.free, if j < k then j else j + 1);
    }
  }

  lemma UnlinkMemory(m: Words, head: int, h: Blocks, lo: int, hi: int, k: nat, size: int)
    requires Sound(h, lo, hi) && Stored(m, head, h) && k < |h.free| && !Splits(h.free[k], size)
    ensures var next := LinkAfter(h.free, k);
            Stored(Relink(m, h.free, k, next), if k == 0 then next else head, Take(h, k, size))
  {
    UnlinkStored(m, head, h, lo, hi, k);
  }

  /** The header writes of a split: the rest's size and link, and the new size of the front. */
  function SplitWords(m: Words, b: Blk, size: int, next: int): Words {
    m[Rest(b, size).addr := Rest(b, size).size][Rest(b, size).addr + 8 := next][b.addr := size]
  }

  lemma SplitOthers(m: Words, h: Blocks, lo: int, hi: int, b: Blk, size: int, next: int)
    requires Sound(h, lo, hi) && b in h.all && 0 <= size && Splits(b, size)
    ensures var m', r := SplitWords(m, b, size, next), Rest(b, size);
            && Word(m', b.addr) == size && Word(m', r.addr) == r.size && Word(m', r.addr + 8) == next
            && (forall c :: c in h.all && c != b ==> Word(m', c.addr) == Word(m, c.addr) && Word(m', c.addr + 8) == Word(m, c.addr + 8))
  {
    var m' := SplitWords(m, b, size, next);
    assert OnlyIn(m, m', b);
    OthersKept(m, m', h.all, lo, hi, b);
  }

  lemma SplitSizes(m: Words, h: Blocks, lo: int, hi: int, b: Blk, size: int, next: int)
    requires Sound(h, lo, hi) && SizesStored(m, h.all) && b in h.all && 0 <= size && size % 8 == 0 && Splits(b, size)
    ensures SizesStored(SplitWords(m, b, size, next), Cut(h.all, IndexOf(h.all, b), size))
  {
    SplitOthers(m, h, lo, hi, b, size, next);
    CutMembers(h.all, lo, hi, IndexOf(h.all, b), size);
  }

  lemma RelinkChain(m: Words, m1: Words, m': Words, head: int, free: seq<Blk>, k: nat, r: Blk)
    requires FreeChain(m, head, free) && k < |free|
    requires forall j :: 0 <= j < |free| && j != k ==> Word(m1, free[j].addr + 8) == Word(m, free[j].addr + 8)
    requires Word(m1, r.addr + 8) == LinkAfter(free, k)
    requires var free' := free[k := r];
             && (forall j :: 0 <= j < |free'| && j != k - 1 ==> Word(m', free'[j].addr + 8) == Word(m1, free'[j].addr + 8))
             && (k > 0 ==> Word(m', free'[k - 1].addr + 8) == r.addr)
    ensures FreeChain(m', if k == 0 then r.addr else head, free[k := r])
  {
    var free' := free[k := r];
    forall j | 0 <= j < |free'| ensures LinkStored(m', free', j) {
      assert LinkStored(m, free, j);
    }
  }

  lemma SplitChain(m: Words, head: int, h: Blocks, lo: int, hi: int, k: nat, size: int)
    requires Sound(h, lo, hi) && Stored(m, head, h) && k < |h.free| && 0 <= size && Splits(h.free[k], size)
    requires Sound(Take(h, k, size), lo, hi)
    ensures var r := Rest(h.free[k], size);
            FreeChain(SplitResult(m, h.free, k, size), if k == 0 then r.addr else head, h.free[k := r])
  {
    hide Tiles, SizesStored, Cut;
    var b, r, free' := h.free[k], Rest(h.free[k], size), h.free[k := Rest(h.free[k], size)];
    var m1 := SplitWords(m, b, size, LinkAfter(h.free, k));
    var m' := SplitResult(m, h.free, k, size);
    SplitOthers(m, h, lo, hi, b, size, LinkAfter(h.free, k));
    RelinkOthers(m1, Take(h, k, size), lo, hi, k, r.addr);
    assert m' == Relink(m1, free', k, r.addr);
    forall j | 0 <= j < |h.free| && j != k ensures Word(m1, h.free[j].addr + 8) == Word(m, h.free[j].addr + 8) {
      assert h.free[j] in h.all;
    }
    RelinkChain(m, m1, m', head, h.free, k, r);
  }

  function SplitResult(m: Words, free: seq<Blk>, k: nat, size: int): Words
    requires k < |free|
  {
    Relink(SplitWords(m, free[k], size, LinkAfter(free, k)), free, k, Rest(free[k], size).addr)
  }

  lemma SplitMemory(m: Words, head: int, h: Blocks, lo: int, hi: int, k: nat, size: int)
    requires Sound(h, lo, hi) && Stored(m, head, h) && k < |h.free| && 0 <= size && size % 8 == 0 && Splits(h.free[k], size)
    ensures Sound(Take(h, k, size), lo, hi)
    ensures Stored(SplitResult(m, h.free, k, size), if k == 0 then Rest(h.free[k], size).addr else head, Take(h, k, size))
  {
    var b, h' := h.free[k], Take(h, k, size);
    var m1 := SplitWords(m, b, size, LinkAfter(h.free, k));
    TakeSound(h, k, size, lo, hi);
    SplitSizes(m, h, lo, hi, b, size, LinkAfter(h.free, k));
    RelinkOthers(m1, h', lo, hi, k, Rest(b, size).addr);
    assert SplitResult(m, h.free, k, size) == Relink(m1, h'.free, k, Rest(b, size).addr);
    SplitChain(m, head, h, lo, hi, k, size);
  }

  /** The words a split writes, computed from the header in memory. */
  lemma SplitIs(m: Words, head: int, h: Blocks, k: nat, size: int)
    requires Stored(m, head, h) && k < |h.free| && h.free[k] in h.all
    ensures var curr, rest := h.free[k].addr, Rest(h.free[k], size).addr;
            SplitWords(m, h.free[k], size, LinkAfter(h.free, k))
            == m[rest := Word(m, curr) - size - BLOCK_SIZE][rest + 8 := Word(m, curr + 8)][curr := size]
  {
    assert LinkStored(m, h.free, k);
  }

  lemma AppendMemory(m: Words, head: int, h: Blocks, lo: int, hi: int, size: int)
    requires Sound(h, lo, hi) && Stored(m, head, h)
    ensures Stored(m[hi := size], head, Append(h, hi, size))
  {
    var m' := m[hi := size];
    forall c | c in h.all ensures Word(m', c.addr) == Word(m, c.addr) && Word(m', c.addr + 8) == Word(m, c.addr + 8) {
      InsideHeap(h.all, lo, hi, c);
    }
    forall j | 0 <= j < |h.free| ensures LinkStored(m', h.free, j) {
      assert LinkStored(m, h.free, j);
    }
  }

  lemma GiveMemory(m: Words, head: int, h: Blocks, lo: int, hi: int, b: Blk)
    requires Sound(h, lo, hi) && Stored(m, head, h) && b in h.Live()
    ensures Stored(m[b.addr + 8 := head], b.addr, Give(h, b))
  {
    var m', free' := m[b.addr + 8 := head], [b] + h.free;
    InsideHeap(h.all, lo, hi, b);
    assert OnlyIn(m, m', b);
    OthersKept(m, m', h.all, lo, hi, b);
    forall j | 0 <= j < |free'| ensures LinkStored(m', free', j) {
      if j > 0 { assert LinkStored(m, h.free, j - 1); }
    }
  }

  ghost predicate InPayload(h: Blocks, a: int) {
    exists b :: b in h.Live() && b.addr + BLOCK_SIZE <= a < End(b)
  }

  lemma HeaderNotPayload(h: Blocks, lo: int, hi: int, c: Blk)
    requires Sound(h, lo, hi) && c in h.all
    ensures !InPayload(h, c.addr) && !InPayload(h, c.addr + 8)
  {
    InsideHeap(h.all, lo, hi, c);
    forall b | b in h.Live() ensures !(b.addr + BLOCK_SIZE <= c.addr + 8 < End(b)) && !(b.addr + BLOCK_SIZE <= c.addr < End(b)) {
      if b != c { Apart(h.all, lo, hi, b, c); }
    }
  }

  /** Whatever a program writes into its live payloads, both lists stay intact. */
  lemma PayloadMemory(m: Words, m': Words, head: int, h: Blocks, lo: int, hi: int)
    requires Sound(h, lo, hi) && Stored(m, head, h)
    requires forall a :: Word(m', a) != Word(m, a) ==> InPayload(h, a)
    ensures Stored(m', head, h)
  {
    forall c | c in h.all ensures Word(m', c.addr) == c.size {
      HeaderNotPayload(h, lo, hi, c);
    }
    forall j | 0 <= j < |h.free| ensures LinkStored(m', h.free, j) {
      assert LinkStored(m, h.free, j);
      HeaderNotPayload(h, lo, hi, h.free[j]);
    }
  }

  /** The block malloc returns for a request, from a heap ending at hi, when it does not return NULL. */
  function Served(h: Blocks, request: int, hi: int): Blk {
    var size := Align8(request);
    var k := FirstFit(h.free, size, 0);
    if k < |h.free| then Taken(h.free[k], size) else Blk(hi, size)
  }

  ghost function Allocated(h: Blocks, request: int, hi: int): Blocks
    requires forall f :: f in h.free ==> f in h.all
  {
    var size := Align8(request);
    var k := FirstFit(h.free, size, 0);
    if k < |h.free| then Take(h, k, size) else Append(h, hi, size)
  }

  // ---------------------------------------------------------------- the library

  /** What sbrk.c takes for the end of the heap, given the value of its static variable. */
  function BreakOf(heapEnd: int, start: int): int { if heapEnd == 0 then start else heapEnd }

  /** The argument of sbrk is a long: the sum of two sizes, wrapped to 64 bits and read as a signed number. */
  function Increment(size: int): int {
    var sum := (size + BLOCK_SIZE) % SIZE_LIMIT;
    if sum > LONG_MAX then sum - SIZE_LIMIT else sum
  }

  /** Growing a heap that ends at hi by a block of this size moves the end by exactly the block. */
  predicate Grown(size: int, hi: int) { Increment(size) == size + BLOCK_SIZE && hi + BLOCK_SIZE + size < SIZE_LIMIT }

  /** (void *)-1 */
  const FAILED := SIZE_LIMIT - 1

  class Library {
    const start: int  // __user_heap_start
    var heapEnd: int  // static in sbrk.c; 0 before its first call
    var freeList: int
    var mem: Words
    ghost var heap: Blocks

    /** What the library takes for the end of the heap. */
    function Break(): int
      reads this
    {
      BreakOf(heapEnd, start)
    }

    ghost predicate Valid()
      reads this
    {
      && 0 < start <= Break() < SIZE_LIMIT && 0 <= heapEnd && start % 8 == 0 && Break() % 8 == 0
      && Sound(heap, start, Break()) && Stored(mem, freeList, heap)
    }

    constructor (start: int)
      requires 0 < start < SIZE_LIMIT && start % 8 == 0
      ensures Valid() && this.start == start && Break() == start && heap == Blocks([], [])
    {
      this.start := start;
      heapEnd, freeList, mem, heap := 0, 0, map[], Blocks([], []);
    }

    /** sbrk; res is the kernel's answer. The variable moves exactly when the kernel agrees, and the old break is
        returned. */
    method Sbrk(increment: int, res: int) returns (prev: int)
      requires 0 < start && 0 <= heapEnd
      modifies this`heapEnd
      ensures if res < 0 then prev == 0xFFFF_FFFF_FFFF_FFFF && Break() == old(Break())
              else prev == old(Break()) && heapEnd == (old(Break()) + increment) % 0x1_0000_0000_0000_0000
    {
      if heapEnd == 0 {
        heapEnd := start;
      }
      var before := heapEnd;
      var newEnd := (heapEnd + increment) % SIZE_LIMIT;
      if res < 0 {
        return FAILED;
      }
      heapEnd := newEnd;
      return before;
    }

    /** The link that leads on from prev, or the list head when prev is 0. */
    method SetLink(prev: int, to: int)
      modifies this`mem, this`freeList
      ensures mem == if prev != 0 then old(mem)[prev + 8 := to] else old(mem)
      ensures freeList == if prev != 0 then old(freeList) else to
    {
      if prev != 0 { mem := mem[prev + 8 := to]; } else { freeList := to; }
    }

    /** The splitting branch of malloc, at position k of the free list; prev is the block before it, or 0. */
    method SplitBlock(curr: int, prev: int, size: int, ghost k: nat)
      requires Valid() && 0 <= size && size % 8 == 0
      requires k < |heap.free| && curr == heap.free[k].addr && prev == (if k == 0 then 0 else heap.free[k - 1].addr)
      requires Splits(heap.free[k], size) && (k > 0 ==> prev != 0)
      modifies this`freeList, this`mem, this`heap
      ensures Valid() && heap == Take(old(heap), k, size)
    {
      hide Tiles, SizesStored, FreeChain;
      ghost var m := mem;
      SplitMemory(mem, freeList, heap, start, Break(), k, size);
      SplitIs(mem, freeList, heap, k, size);
      heap := Take(heap, k, size);
      var newBlock := curr + BLOCK_SIZE + size;
      mem := mem[newBlock := Word(mem, curr) - size - BLOCK_SIZE][newBlock + 8 := Word(mem, curr + 8)][curr := size];
      SetLink(prev, newBlock);
      assert mem == SplitResult(m, old(heap.free), k, size);
    }

    /** The branch of malloc that uses a whole block. */
    method UnlinkBlock(curr: int, prev: int, ghost size: int, ghost k: nat)
      requires Valid() && 0 <= size && size % 8 == 0
      requires k < |heap.free| && curr == heap.free[k].addr && prev == (if k == 0 then 0 else heap.free[k - 1].addr)
      requires size <= heap.free[k].size && !Splits(heap.free[k], size) && (k > 0 ==> prev != 0)
      modifies this`freeList, this`mem, this`heap
      ensures Valid() && heap == Take(old(heap), k, size)
    {
      hide Tiles;
      assert LinkStored(mem, heap.free, k);
      TakeSound(heap, k, size, start, Break());
      UnlinkMemory(mem, freeList, heap, start, Break(), k, size);
      SetLink(prev, Word(mem, curr + 8));
      heap := Take(heap, k, size);
    }

    /** malloc on the first block that fits, curr, which is at position k of the free list. */
    method UseBlock(curr: int, prev: int, size: int, ghost k: nat) returns (ptr: int)
      requires Valid() && 0 <= size && size % 8 == 0
      requires k < |heap.free| && curr == heap.free[k].addr && prev == (if k == 0 then 0 else heap.free[k - 1].addr)
      requires size <= heap.free[k].size && (k > 0 ==> prev != 0)
      modifies this`freeList, this`mem, this`heap
      ensures Valid() && Break() == old(Break()) && heap == Take(old(heap), k, size) && ptr == curr + BLOCK_SIZE
    {
      InsideHeap(heap.all, start, Break(), heap.free[k]);
      if Word(mem, curr) >= (size + BLOCK_SIZE + 8) % SIZE_LIMIT {
        SplitBlock(curr, prev, size, k);
      } else {
        UnlinkBlock(curr, prev, size, k);
      }
      return curr + BLOCK_SIZE;
    }

    /** The part of malloc that asks for more heap. A header is written at the old break; when the heap has not grown by
        the whole block, that is all that happens to the library's memory. */
    method NewBlock(size: int, res: int) returns (ptr: int)
      requires Valid() && 0 <= size < SIZE_LIMIT && size % 8 == 0
      modifies this`heapEnd, this`mem, this`heap
      ensures res < 0 || Grown(size, old(Break())) ==> Valid()
      ensures if res < 0 then ptr == 0 && heap == old(heap) && Break() == old(Break())
              else ptr == (old(Break()) + BLOCK_SIZE) % SIZE_LIMIT && heapEnd == (old(Break()) + Increment(size)) % SIZE_LIMIT
      ensures res >= 0 && Grown(size, old(Break())) ==> Break() == old(Break()) + BLOCK_SIZE + size && ptr == old(Break()) + BLOCK_SIZE
      ensures res >= 0 ==> mem == old(mem)[old(Break()) := size]
      ensures res >= 0 ==> heap == if Grown(size, old(Break())) then Append(old(heap), old(Break()), size) else old(heap)
    {
      hide Sound, Stored, Append, Tiles;
      ghost var hi := Break();
      var block := Sbrk(Increment(size), res);
      if block == FAILED {
        return 0;
      }
      AppendSound(heap, size, start, hi);
      AppendMemory(mem, freeList, heap, start, hi, size);
      mem := mem[block := size];
      if Grown(size, hi) {
        heap := Append(heap, hi, size);
      }
      return (block + BLOCK_SIZE) % SIZE_LIMIT;
    }

    /** The loop of malloc: the first block of the free list that fits, and the one before it. */
    method FindFit(size: int) returns (prev: int, curr: int, ghost k: nat)
      requires Valid()
      ensures k == FirstFit(heap.free, size, 0) && (curr != 0 <==> k < |heap.free|)
      ensures k < |heap.free| ==>
                curr == heap.free[k].addr && prev == (if k == 0 then 0 else heap.free[k - 1].addr) && (k > 0 ==> prev != 0)
    {
      hide Tiles;
      prev, curr, k := 0, freeList, 0;
      while curr != 0
        invariant 0 <= k <= |heap.free| && curr == LinkAfter(heap.free, k - 1)
        invariant prev == if k == 0 then 0 else heap.free[k - 1].addr
        invariant k > 0 ==> prev != 0
        invariant FirstFit(heap.free, size, 0) == FirstFit(heap.free, size, k)
        decreases |heap.free| - k
      {
        assert heap.free[k] in heap.all;
        assert LinkStored(mem, heap.free, k);
        if Word(mem, curr) >= size {
          InsideHeap(heap.all, start, Break(), heap.free[k]);
          return;
        }
        prev := curr;
        curr := Word(mem, curr + 8);
        k := k + 1;
      }
      if k < |heap.free| { InsideHeap(heap.all, start, Break(), heap.free[k]); }
    }

    /** malloc; res is the kernel's answer, should sbrk be called. The first block of the list that fits is taken;
        without one the heap grows, by exactly one block when the size fits a long and does not run over the end of the
        address range, or NULL is returned when the kernel refuses. */
    method Malloc(request: int, res: int) returns (ptr: int)
      requires Valid() && 0 <= request < SIZE_LIMIT
      modifies this
      ensures var size := Align8(request);
              if FirstFit(old(heap).free, size, 0) < |old(heap).free| then
                Valid() && Break() == old(Break()) && heap == Allocated(old(heap), request, old(Break()))
                && ptr == Served(old(heap), request, old(Break())).addr + BLOCK_SIZE
              else if res < 0 then Valid() && ptr == 0 && heap == old(heap) && Break() == old(Break())
              else if Grown(size, old(Break())) then
                Valid() && Break() == End(Served(old(heap), request, old(Break()))) && heap == Allocated(old(heap), request, old(Break()))
                && ptr == Served(old(heap), request, old(Break())).addr + BLOCK_SIZE
              else
                ptr == (old(Break()) + BLOCK_SIZE) % SIZE_LIMIT && heapEnd == (old(Break()) + Increment(size)) % SIZE_LIMIT
                && mem == old(mem)[old(Break()) := size] && freeList == old(freeList) && heap == old(heap)
    {
      hide Sound, Stored, Take, Append, FirstFit, Grown, Increment, Align8, Break;
      AlignCovers(request);
      var size := Align8(request);
      var prev, curr;
      ghost var k;
      prev, curr, k := FindFit(size);
      if curr != 0 {
        ptr := UseBlock(curr, prev, size, k);
      } else {
        ptr := NewBlock(size, res);
      }
    }

    /** free of NULL, or of a pointer malloc returned for block b and that was not freed since. */
    method Free(ptr: int, ghost b: Blk)
      requires Valid() && (ptr != 0 ==> b in heap.Live() && ptr == b.addr + BLOCK_SIZE)
      modifies this`freeList, this`mem, this`heap
      ensures Valid() && heap == if ptr == 0 then old(heap) else Give(old(heap), b)
    {
      if ptr == 0 {
        return;
      }
      GiveSound(heap, b, start, Break());
      GiveMemory(mem, freeList, heap, start, Break(), b);
      var blk := ptr - BLOCK_SIZE;
      mem := mem[blk + 8 := freeList];
      freeList := blk;
      heap := Give(heap, b);
    }
  }

  /** What is left of the block that was found: malloc takes the first one that fits. If it is larger than the rounded
      request by 24 bytes or more, exactly the request is taken, and the rest, less a header of 16, stays in its place in the
      free list; otherwise the whole block is taken, and waste is below 24 bytes. Without a block that fits, the free list
      stays. */
  lemma MallocWastes(h: Blocks, request: int, lo: int, hi: int)
    requires Sound(h, lo, hi) && 0 <= request < SIZE_LIMIT
    ensures var b, free', size := Served(h, request, hi), Allocated(h, request, hi).free, Align8(request);
            if forall j :: 0 <= j < |h.free| ==> h.free[j].size < size then b == Blk(hi, size) && free' == h.free
            else exists k :: 0 <= k < |h.free| && (forall j :: 0 <= j < k ==> h.free[j].size < size) && FoundAt(h.free, k, size, b, free')
  {
    var size := Align8(request);
    var k := FirstFit(h.free, size, 0);
    if k < |h.free| {
      assert FoundAt(h.free, k, size, Served(h, request, hi), Allocated(h, request, hi).free);
    }
  }

  /** Block k of the free list served a request of this size with block b, and free' is left. */
  ghost predicate FoundAt(free: seq<Blk>, k: int, size: int, b: Blk, free': seq<Blk>)
    requires 0 <= k < |free|
  {
    var found := free[k];
    && found.size >= size && b.addr == found.addr && size <= b.size < size + 24
    && if found.size >= size + 24
       then b.size == size && free' == free[k := Blk(found.addr + 16 + size, found.size - size - 16)]
       else b.size == found.size && free' == free[..k] + free[k + 1..]
  }

  /** What a successful malloc means to the program: one new live block, disjoint from the payload of every block it
      holds already. It is at least as large as requested, and inside the heap, extended by what sbrk was asked for,
      exactly when rounding the request did not wrap around and, for a block at the end, the increment is positive as a
      long. */
  lemma MallocServes(h: Blocks, request: int, lo: int, hi: int)
    requires Sound(h, lo, hi) && 0 <= lo <= hi < SIZE_LIMIT && 0 <= request < SIZE_LIMIT
    ensures var b, h', size := Served(h, request, hi), Allocated(h, request, hi), Align8(request);
            var listed := FirstFit(h.free, size, 0) < |h.free|;
            var end := if listed then hi else hi + Increment(size);
            && b !in h.Live() && h'.Live() == h.Live() + {b}
            && (forall c :: c in h.Live() ==> End(c) <= b.addr || End(b) <= c.addr)
            && (lo <= b.addr && End(b) <= end && b.size >= request
                <==> request <= 0xFFFF_FFFF_FFFF_FFF8 && (listed || size + 16 <= 0x7FFF_FFFF_FFFF_FFFF))
  {
    hide Tiles;
    AlignCovers(request);
    var size := Align8(request);
    var k := FirstFit(h.free, size, 0);
    var b, h' := Served(h, request, hi), Allocated(h, request, hi);
    var top := if k < |h.free| then hi else hi + BLOCK_SIZE + size;
    if k < |h.free| {
      TakeSound(h, k, size, lo, hi);
    } else {
      AppendSound(h, size, lo, hi);
    }
    assert Sound(h', lo, top) && b in h'.Live();
    InsideHeap(h'.all, lo, top, b);
    forall c | c in h.Live() ensures End(c) <= b.addr || End(b) <= c.addr {
      assert c in h'.Live();
      Apart(h'.all, lo, top, b, c);
    }
  }

  /** A request of 2^64 - 16 bytes in any heap: sbrk is called with 0, and the block that malloc returns ends 2^64 bytes
      beyond the heap. */
  lemma HugeRequestUnbacked(h: Blocks, lo: int, hi: int)
    requires Sound(h, lo, hi) && 0 <= lo <= hi < SIZE_LIMIT
    ensures var request := 0xFFFF_FFFF_FFFF_FFF0;
            FirstFit(h.free, Align8(request), 0) == |h.free| && Increment(Align8(request)) == 0
            && End(Served(h, request, hi)) == hi + 0x1_0000_0000_0000_0000
  {
    var k := FirstFit(h.free, Align8(SIZE_LIMIT - 16), 0);
    if k < |h.free| { InsideHeap(h.all, lo, hi, h.free[k]); }
  }

  /** A request of 2^64 - 1 bytes is rounded to none: in an empty heap it gets a block without payload. */
  lemma WrappedRequestGetsNothing(hi: int)
    requires 0 < hi && hi % 8 == 0
    ensures Served(Blocks([], []), 0xFFFF_FFFF_FFFF_FFFF, hi) == Blk(hi, 0)
  {
    AlignCovers(SIZE_LIMIT - 1);
  }

  /** free puts the block first in the list, so the next request of that size gets the same block back, whole. */
  lemma FreeThenMalloc(h: Blocks, b: Blk, lo: int, hi: int)
    requires Sound(h, lo, hi) && b in h.Live() && b.size < SIZE_LIMIT - 8
    ensures Served(Give(h, b), b.size, hi) == b && Allocated(Give(h, b), b.size, hi) == h
  {
  }
}
