/** Physical memory seen as pages of 64-bit words, and the Sv39 page-table format stored in it.
    A frame is a physical page number: the frame f occupies the addresses [4096*f, 4096*f + 4096). */
module Sv39 {
  import opened Arithmetic

  const PAGE_SIZE := 4096
  const ENTRIES := 512
  /** Number of virtual pages in a 39-bit address space. */
  const VPNS := 0x800_0000
  const MAXVA := 0x80_0000_0000

  const PTE_V := 1
  const PTE_R := 2
  const PTE_W := 4
  const PTE_X := 8
  const PTE_U := 16

  /** Physical memory by word address; word k of frame f has address 512 * f + k. Absent words read as zero. */
  type Memory = map<int, int>

  function Entry(mem: Memory, f: int, k: int): int
    requires 0 <= k < ENTRIES
  {
    if 512 * f + k in mem then mem[512 * f + k] else 0
  }

  function Store(mem: Memory, f: int, k: int, v: int): (m: Memory)
    requires 0 <= k < ENTRIES
    ensures forall g, j {:trigger Entry(m, g, j)} :: 0 <= j < ENTRIES ==>
              Entry(m, g, j) == if g == f && j == k then v else Entry(mem, g, j)
  {
    mem[512 * f + k := v]
  }

  /** memset(pa, 0, n * PAGE_SIZE) over the frames [lo, hi). */
  function ZeroFrames(mem: Memory, lo: int, hi: int): (m: Memory)
    ensures forall g, j {:trigger Entry(m, g, j)} :: 0 <= j < ENTRIES ==>
              Entry(m, g, j) == if lo <= g < hi then 0 else Entry(mem, g, j)
  {
    map w | w in mem :: if lo <= w / 512 < hi then 0 else mem[w]
  }

  /** memcpy of the first n words of frame src to frame dst. */
  function CopyWords(mem: Memory, dst: int, src: int, n: int): (m: Memory)
    requires 0 <= n <= ENTRIES
    ensures forall g, j {:trigger Entry(m, g, j)} :: 0 <= j < ENTRIES ==>
              Entry(m, g, j) == if g == dst && j < n then Entry(mem, src, j) else Entry(mem, g, j)
  {
    if n == 0 then mem else Store(CopyWords(mem, dst, src, n - 1), dst, n - 1, Entry(mem, src, n - 1))
  }

  /** Frame f holds in mem' what frame f' holds in mem. */
  ghost predicate SameFrame(mem: Memory, f: int, mem': Memory, f': int) {
    forall k :: 0 <= k < ENTRIES ==> Entry(mem, f, k) == Entry(mem', f', k)
  }

  // ---------------------------------------------------------------- page-table entries

  // Bit b of a word is set when the word modulo 2^(b+1) reaches 2^b.
  predicate V(e: int) { e % 2 >= PTE_V }
  predicate R(e: int) { e % 4 >= PTE_R }
  predicate W(e: int) { e % 8 >= PTE_W }
  predicate X(e: int) { e % 16 >= PTE_X }
  predicate U(e: int) { e % 32 >= PTE_U }

  /** True when one of the three permission bits is set: e & (PTE_R | PTE_W | PTE_X). */
  predicate Perm(e: int) { R(e) || W(e) || X(e) }

  function PteFrame(e: int): int { e / 1024 }

  /** The permission bits a caller may pass to map_page. */
  datatype Perms = Perms(r: bool, w: bool, x: bool, u: bool)

  const KERNEL_RWX := Perms(true, true, true, false)
  const USER_RWX := Perms(true, true, true, true)
  const USER_RW := Perms(true, true, false, true)

  function Bits(p: Perms): int {
    (if p.r then PTE_R else 0) + (if p.w then PTE_W else 0) + (if p.x then PTE_X else 0) + (if p.u then PTE_U else 0)
  }

  function PtePerms(e: int): Perms { Perms(R(e), W(e), X(e), U(e)) }

  /** ((pa >> 12) << 10) | flags | PTE_V, for the page-aligned pa of frame f. */
  function MakePte(f: int, p: Perms): int {
    f * 1024 + Bits(p) + PTE_V
  }

  /** An entry decodes to what was encoded, and never needs more than 64 bits. */
  lemma PteRoundTrip(f: int, p: Perms)
    ensures var e := MakePte(f, p);
            V(e) && PteFrame(e) == f && PtePerms(e) == p
            && (0 <= f < 0x10_0000_0000_0000 ==> 0 <= e < 0x1_0000_0000_0000_0000)
  {
    var b := Bits(p) + PTE_V;
    LowBitsOfPte(f, b);
    BitsDecode(p);
  }

  /** The ten low bits of an entry, one weight for each flag of the Sv39 format: V is 1, R 2, W 4, X 8, U 16, and the bits
      above (G, A, D and the two left to software) are clear. */
  lemma PteBits(f: int, p: Perms)
    ensures MakePte(f, p) % 1024 == 1 + (if p.r then 2 else 0) + (if p.w then 4 else 0) + (if p.x then 8 else 0) + (if p.u then 16 else 0)
    ensures MakePte(f, p) / 1024 == f
  {
    var b := Bits(p) + PTE_V;
    assert 0 <= b < 1024;
    Low10(f, b);
  }

  lemma Low10(f: int, b: int)
    requires 0 <= b < 1024
    ensures (f * 1024 + b) % 1024 == b && (f * 1024 + b) / 1024 == f
  {
  }

  lemma BitsDecode(p: Perms)
    ensures V(Bits(p) + PTE_V) && PtePerms(Bits(p) + PTE_V) == p
  {
  }

  lemma LowBitsOfPte(f: int, b: int)
    requires 0 <= b < 32
    ensures V(f * 1024 + b) == V(b) && PtePerms(f * 1024 + b) == PtePerms(b)
  {
    LowBits1(f, b);
    LowBits2(f, b);
    LowBits3(f, b);
    LowBits4(f, b);
    LowBits5(f, b);
  }

  // ---------------------------------------------------------------- virtual page numbers

  /** PX(level, va), stated on the page number va / 4096. */
  function Px(level: int, vpn: int): (k: int)
    requires 0 <= level <= 2
    ensures 0 <= k < ENTRIES
  {
    if level == 2 then vpn / 0x4_0000 % 512 else if level == 1 then vpn / 512 % 512 else vpn % 512
  }

  /** The page-table key of an address: its page number modulo 2^27, as the three index masks see it. */
  function Key(va: int): (v: int)
    ensures 0 <= v < VPNS
  {
    va / PAGE_SIZE % VPNS
  }

  lemma IndicesOfAddress(va: int)
    requires 0 <= va
    ensures va / 0x4000_0000 % 512 == Px(2, Key(va))
    ensures va / 0x20_0000 % 512 == Px(1, Key(va))
    ensures va / 0x1000 % 512 == Px(0, Key(va))
  {
    var p := va / 4096;
    IndexOfAddress(va);
    TopIndex(p);
    MidIndex(p);
    LowIndex(p);
  }

  function Join(i: int, j: int, k: int): int { i * 0x4_0000 + j * 512 + k }

  lemma JoinIndices(v: int)
    requires 0 <= v < VPNS
    ensures v == Join(Px(2, v), Px(1, v), Px(0, v))
  {
    var q := v / 512;
    assert v / 0x4_0000 == q / 512 < 512;
  }

  lemma SplitJoin(i: int, j: int, k: int)
    requires 0 <= i < ENTRIES && 0 <= j < ENTRIES && 0 <= k < ENTRIES
    ensures var v := Join(i, j, k); 0 <= v < VPNS && Px(2, v) == i && Px(1, v) == j && Px(0, v) == k
  {
    var v := Join(i, j, k);
    assert v / 512 == i * 512 + j;
    assert v / 0x4_0000 == i;
  }

  // ---------------------------------------------------------------- table walks

  const NONE := -1

  /** The table that entry k of table t points to, or NONE when the entry is not valid. */
  function Next(mem: Memory, t: int, k: int): int
    requires 0 <= k < ENTRIES
  {
    if t != NONE && V(Entry(mem, t, k)) then PteFrame(Entry(mem, t, k)) else NONE
  }

  function MidTable(mem: Memory, root: int, v: int): int { Next(mem, root, Px(2, v)) }
  function LowTable(mem: Memory, root: int, v: int): int { Next(mem, MidTable(mem, root, v), Px(1, v)) }

  /** The table that serves page v at the given level of the tree under root, or NONE. */
  function TableAt(mem: Memory, root: int, v: int, level: int): int
    requires 0 <= level <= 2
  {
    if level == 2 then root else if level == 1 then MidTable(mem, root, v) else LowTable(mem, root, v)
  }

  /** The level-0 entry for page v, or 0 when a table on the way is missing. */
  function LeafPte(mem: Memory, root: int, v: int): int {
    var t := LowTable(mem, root, v);
    if t == NONE then 0 else Entry(mem, t, Px(0, v))
  }

  datatype Leaf = Leaf(frame: int, perms: Perms)

  /** The finite map that a page table stands for. */
  ghost function Translations(mem: Memory, root: int): map<int, Leaf>
  {
    map v | 0 <= v < VPNS && V(LeafPte(mem, root, v)) ::
      Leaf(PteFrame(LeafPte(mem, root, v)), PtePerms(LeafPte(mem, root, v)))
  }
}
