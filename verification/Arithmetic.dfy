/** Facts about division and remainder by powers of two. */
module Arithmetic {
  lemma Rem4(q: int, r: int)
    requires 0 <= r < 4
    ensures (4 * q + r) % 4 == r
  {
  }

  lemma Rem512(q: int, r: int)
    requires 0 <= r < 512
    ensures (512 * q + r) % 512 == r
  {
  }

  lemma Rem2(q: int, r: int)
    requires 0 <= r < 2
    ensures (2 * q + r) % 2 == r
  {
  }

  /** The lowest bit of a word is that of its first byte. */
  lemma LowBitOfByte(w: int)
    ensures w % 256 % 2 == w % 2
  {
    var r := w % 256 % 2;
    assert w == 2 * (128 * (w / 256) + w % 256 / 2) + r;
    Rem2(128 * (w / 256) + w % 256 / 2, r);
  }

  lemma Rem8(q: int, r: int)
    requires 0 <= r < 8
    ensures (8 * q + r) % 8 == r
  {
  }

  lemma Rem16(q: int, r: int)
    requires 0 <= r < 16
    ensures (16 * q + r) % 16 == r
  {
  }

  lemma Rem32(q: int, r: int)
    requires 0 <= r < 32
    ensures (32 * q + r) % 32 == r
  {
  }

  /** The place of a byte in its word does not depend on the page. */
  lemma PageRem8(f: int, off: int)
    ensures (f * 4096 + off) % 8 == off % 8
  {
    assert f * 4096 + off == 8 * (512 * f + off / 8) + off % 8;
    Rem8(512 * f + off / 8, off % 8);
  }

  lemma OffsetRem8(a: int)
    ensures a % 4096 % 8 == a % 8
  {
    PageRem8(a / 4096, a % 4096);
  }

  // The low bits of a sum do not depend on a multiple of 1024.
  lemma LowBits1(f: int, b: int)
    ensures (f * 1024 + b) % 2 == b % 2
  {
    assert f * 1024 + b == 2 * (512 * f + b / 2) + b % 2;
    Rem2(512 * f + b / 2, b % 2);
  }

  lemma LowBits2(f: int, b: int)
    ensures (f * 1024 + b) % 4 == b % 4
  {
    Rem4(256 * f + b / 4, b % 4);
  }

  lemma LowBits3(f: int, b: int)
    ensures (f * 1024 + b) % 8 == b % 8
  {
    assert f * 1024 + b == 8 * (128 * f + b / 8) + b % 8;
    Rem8(128 * f + b / 8, b % 8);
  }

  lemma LowBits4(f: int, b: int)
    ensures (f * 1024 + b) % 16 == b % 16
  {
    assert f * 1024 + b == 16 * (64 * f + b / 16) + b % 16;
    Rem16(64 * f + b / 16, b % 16);
  }

  lemma LowBits5(f: int, b: int)
    ensures (f * 1024 + b) % 32 == b % 32
  {
    assert f * 1024 + b == 32 * (32 * f + b / 32) + b % 32;
    Rem32(32 * f + b / 32, b % 32);
  }

  /** Masking a page number to 27 bits does not disturb the three index fields. */
  lemma TopIndex(p: int)
    ensures p % 0x800_0000 / 0x4_0000 % 512 == p / 0x4_0000 % 512
  {
    var n, s := p / 0x800_0000, p % 0x800_0000;
    assert p / 0x4_0000 == 512 * n + s / 0x4_0000;
    Rem512(n + s / 0x4_0000 / 512, s / 0x4_0000 % 512);
  }

  lemma MidIndex(p: int)
    ensures p % 0x800_0000 / 512 % 512 == p / 512 % 512
  {
    var n, s := p / 0x800_0000, p % 0x800_0000;
    assert p / 512 == 0x4_0000 * n + s / 512;
    Rem512(512 * n + s / 512 / 512, s / 512 % 512);
  }

  lemma LowIndex(p: int)
    ensures p % 0x800_0000 % 512 == p % 512
  {
  }

  lemma IndexOfAddress(va: int)
    ensures va / 0x20_0000 == va / 4096 / 512
    ensures va / 0x4000_0000 == va / 4096 / 0x4_0000
  {
  }

  const SIZE_LIMIT := 0x1_0000_0000_0000_0000

  /** (size + 7) & ~7 on a 64-bit size: the addition wraps around. */
  function Align8(size: int): int { (size + 7) % SIZE_LIMIT / 8 * 8 }

  /** The rounded size covers the request exactly when the addition does not wrap; otherwise it is zero. */
  lemma AlignCovers(size: int)
    requires 0 <= size < SIZE_LIMIT
    ensures Align8(size) % 8 == 0
    ensures Align8(size) >= size <==> size <= SIZE_LIMIT - 8
    ensures size <= SIZE_LIMIT - 8 ==> Align8(size) < size + 8
    ensures size > SIZE_LIMIT - 8 ==> Align8(size) == 0
  {
  }
}
