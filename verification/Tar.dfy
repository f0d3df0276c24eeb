/** tarfs_lookup: finding a file in the initial ram disk. */
module Tar {
  import opened Wrappers
  import opened Bytes

  const BLOCK := 512
  /** Offset and length of the octal digits of the size field of a ustar header. */
  const SIZE_FIELD := 124
  const SIZE_DIGITS := 11

  /** A file as stored: its name and its contents. */
  datatype File = File(name: seq<Byte>, data: seq<Byte>)

  function Blocks(size: nat): nat { (size + BLOCK - 1) / BLOCK }

  /** The position of the header after the one at p. */
  function Next(p: nat, size: nat): nat { p + BLOCK * (1 + Blocks(size)) }

  /** The number written in the n octal digits at position p. */
  function Octal(ar: seq<Byte>, p: nat, n: nat): int
    requires p + n <= |ar|
  {
    if n == 0 then 0 else Octal(ar, p, n - 1) * 8 + ar[p + n - 1] - '0' as int
  }

  // ---------------------------------------------------------------- where the scan goes, in 64-bit arithmetic

  const SIZE_LIMIT := 0x1_0000_0000_0000_0000

  /** What the scan adds to its pointer for a size field whose digits add up to s, negative digits included. */
  function Step(s: int): int { (1 + (s + BLOCK - 1) % SIZE_LIMIT / BLOCK) * BLOCK % SIZE_LIMIT }

  /** The same as a signed number. */
  function Move(s: int): int { if Step(s) >= SIZE_LIMIT / 2 then Step(s) - SIZE_LIMIT else Step(s) }

  function Pow8(n: nat): int { if n == 0 then 1 else 8 * Pow8(n - 1) }

  /** Eleven characters, octal digits or not, stay far from the limits of 64 bits. */
  lemma {:induction false} OctalBounds(ar: seq<Byte>, p: nat, n: nat)
    requires p + n <= |ar|
    ensures -30 * (Pow8(n) - 1) <= Octal(ar, p, n) <= 30 * (Pow8(n) - 1)
  {
    if n > 0 { OctalBounds(ar, p, n - 1); }
  }

  const FIELD_LIMIT := 0x40_0000_0000

  lemma FieldBounds(ar: seq<Byte>, p: nat)
    requires p + SIZE_DIGITS <= |ar|
    ensures -FIELD_LIMIT < Octal(ar, p, SIZE_DIGITS) < FIELD_LIMIT
  {
    OctalBounds(ar, p, SIZE_DIGITS);
    assert Pow8(4) == 4096 && Pow8(8) == 0x100_0000 && Pow8(11) == 0x2_0000_0000;
  }

  /** The scan moves forward, over header and contents, exactly when the field is at least -511; otherwise it moves back
      or stays where it is. */
  lemma ForwardIff(s: int)
    requires -FIELD_LIMIT < s < FIELD_LIMIT
    ensures Move(s) >= BLOCK <==> s >= -511
    ensures s >= -511 ==> Move(s) == Next(0, if s < 0 then 0 else s)
    ensures s < -511 ==> Move(s) == BLOCK * (1 + (s + BLOCK - 1) / BLOCK) <= 0
  {
    if s >= -511 {
    } else {
      var q := (s + BLOCK - 1) / BLOCK;
      assert (s + BLOCK - 1) % SIZE_LIMIT == s + BLOCK - 1 + SIZE_LIMIT;
      assert (s + BLOCK - 1 + SIZE_LIMIT) / BLOCK == q + SIZE_LIMIT / BLOCK;
      assert (1 + q + SIZE_LIMIT / BLOCK) * BLOCK == BLOCK * (1 + q) + SIZE_LIMIT;
    }
  }

  /** A whole header is at offset p, and it is not the end of the archive. */
  predicate OnHeader(ar: seq<Byte>, p: int) { 0 <= p && p + BLOCK <= |ar| && ar[p] != 0 }

  /** The offset after one turn on a header at p that is not the one looked for; the archive starts at address base. */
  function Turn(base: int, ar: seq<Byte>, p: int): int
    requires OnHeader(ar, p)
  {
    (base + p + Step(Octal(ar, p + SIZE_FIELD, SIZE_DIGITS))) % SIZE_LIMIT - base
  }

  /** The offset after n turns of a scan for a name that is not in the archive. */
  ghost function Offset(base: int, ar: seq<Byte>, n: nat): int {
    if n == 0 then 0
    else
      var p := Offset(base, ar, n - 1);
      if OnHeader(ar, p) then Turn(base, ar, p) else p
  }

  /** The archive lies well inside the address range. */
  ghost predicate Inside(base: int, ar: seq<Byte>) { 0 <= base && base + |ar| + 2 * FIELD_LIMIT < SIZE_LIMIT / 2 }

  /** The wrapped pointer: a move back that stays in the address range ends up below or at p, one that does not ends up
      beyond the archive. */
  lemma TurnIs(base: int, ar: seq<Byte>, p: int)
    requires Inside(base, ar) && OnHeader(ar, p)
    ensures var d := Move(Octal(ar, p + SIZE_FIELD, SIZE_DIGITS));
            Turn(base, ar, p) == if base + p + d >= 0 then p + d else p + d + 0x1_0000_0000_0000_0000
    ensures var s := Octal(ar, p + SIZE_FIELD, SIZE_DIGITS);
            Turn(base, ar, p) >= p + BLOCK <==> s >= -511 || base + p + Move(s) < 0
  {
    hide Step, Octal;
    var s := Octal(ar, p + SIZE_FIELD, SIZE_DIGITS);
    FieldBounds(ar, p + SIZE_FIELD);
    ForwardIff(s);
    MoveBounds(s);
  }

  lemma MoveBounds(s: int)
    requires -FIELD_LIMIT < s < FIELD_LIMIT
    ensures -2 * FIELD_LIMIT < Move(s) < 2 * FIELD_LIMIT
    ensures Step(s) == Move(s) + (if Move(s) < 0 then SIZE_LIMIT else 0)
  {
    ForwardIff(s);
  }

  /** A scan that meets no field below -511 ends, after at most one turn for each block of the archive; only the headers
      it stops at matter. */
  lemma {:induction false} ScanEnds(base: int, ar: seq<Byte>, n: nat)
    requires Inside(base, ar)
    requires forall m: nat :: m < n && OnHeader(ar, Offset(base, ar, m)) ==>
               Octal(ar, Offset(base, ar, m) + SIZE_FIELD, SIZE_DIGITS) >= -511
    ensures BLOCK * n > |ar| ==> !OnHeader(ar, Offset(base, ar, n))
    ensures OnHeader(ar, Offset(base, ar, n)) ==> Offset(base, ar, n) >= BLOCK * n
  {
    hide Octal;
    if n > 0 {
      ScanEnds(base, ar, n - 1);
      if OnHeader(ar, Offset(base, ar, n - 1)) {
        TurnIs(base, ar, Offset(base, ar, n - 1));
      }
    }
  }

  /** A regular file of 3072 bytes, and behind it a header whose size field has the value -4096: the scan goes back and
      forth between the two and never ends. */
  lemma {:induction false} ScanLoops(base: int, ar: seq<Byte>, n: nat)
    requires Inside(base, ar) && OnHeader(ar, 0) && OnHeader(ar, 3584)
    requires Octal(ar, SIZE_FIELD, SIZE_DIGITS) == 3072 && Octal(ar, 3584 + SIZE_FIELD, SIZE_DIGITS) == -4096
    ensures Offset(base, ar, n) == if n % 2 == 0 then 0 else 3584
    ensures OnHeader(ar, Offset(base, ar, n))
  {
    hide Octal, Turn;
    if n > 0 {
      ScanLoops(base, ar, n - 1);
      BackAndForth(base, ar);
    }
  }

  lemma BackAndForth(base: int, ar: seq<Byte>)
    requires Inside(base, ar) && OnHeader(ar, 0) && OnHeader(ar, 3584)
    requires Octal(ar, SIZE_FIELD, SIZE_DIGITS) == 3072 && Octal(ar, 3584 + SIZE_FIELD, SIZE_DIGITS) == -4096
    ensures Turn(base, ar, 0) == 3584 && Turn(base, ar, 3584) == 0
  {
    hide Octal, Turn, Step, Move;
    TurnIs(base, ar, 0);
    TurnIs(base, ar, 3584);
    ForwardIff(3072);
    ForwardIff(-4096);
  }

  /** Two size fields with the character '(' among the digits, which counts as minus eight: with the first the scan stays
      where it is, with the second it goes back by 3584 bytes. */
  lemma BadDigits(ar: seq<Byte>, p: nat)
    requires p + SIZE_DIGITS <= |ar|
    ensures ar[p..p + SIZE_DIGITS] == [48, 48, 48, 48, 48, 48, 48, 48, 40, 48, 48] ==>
              Octal(ar, p, SIZE_DIGITS) == -512 && Move(Octal(ar, p, SIZE_DIGITS)) == 0
    ensures ar[p..p + SIZE_DIGITS] == [48, 48, 48, 48, 48, 48, 48, 40, 48, 48, 48] ==>
              Octal(ar, p, SIZE_DIGITS) == -4096 && Move(Octal(ar, p, SIZE_DIGITS)) == -3584
  {
    var field := ar[p..p + SIZE_DIGITS];
    assert forall i :: p <= i < p + SIZE_DIGITS ==> ar[i] == field[i - p];
    ForwardIff(-512);
    ForwardIff(-4096);
    if field == [48, 48, 48, 48, 48, 48, 48, 48, 40, 48, 48] {
      ZeroDigits(ar, p, 8);
      assert Octal(ar, p, 9) == -8 && Octal(ar, p, 10) == -64;
    }
    if field == [48, 48, 48, 48, 48, 48, 48, 40, 48, 48, 48] {
      ZeroDigits(ar, p, 7);
      assert Octal(ar, p, 8) == -8 && Octal(ar, p, 9) == -64 && Octal(ar, p, 10) == -512;
    }
  }

  lemma {:induction false} ZeroDigits(ar: seq<Byte>, p: nat, n: nat)
    requires p + n <= |ar| && forall i :: p <= i < p + n ==> ar[i] == 48
    ensures Octal(ar, p, n) == 0
  {
    if n > 0 { ZeroDigits(ar, p, n - 1); }
  }

  /** The name at position p ends with a NUL. */
  ghost predicate NameAt(ar: seq<Byte>, p: nat, name: seq<Byte>) {
    p + |name| < |ar| && ar[p..p + |name|] == name && ar[p + |name|] == 0 && 0 !in name
  }

  /** The header at p describes file f, and the contents follow in the next blocks. */
  ghost predicate Member(ar: seq<Byte>, p: nat, f: File) {
    && p + 512 * (1 + (|f.data| + 511) / 512) <= |ar|
    && f.name != [] && NameAt(ar, p, f.name)
    && Octal(ar, p + 124, 11) == |f.data|
    && ar[p + 512..p + 512 + |f.data|] == f.data
  }

  /** From position p on, the archive holds the given files, and ends with its last byte or with a header without a
      name. */
  ghost predicate Archive(ar: seq<Byte>, p: nat, files: seq<File>)
    decreases |files|
  {
    if files == [] then p >= |ar| || ar[p] == 0
    else Member(ar, p, files[0]) && Archive(ar, p + 512 * (1 + (|files[0].data| + 511) / 512), files[1..])
  }

  /** The first file with the given name. */
  function First(files: seq<File>, name: seq<Byte>): Option<File> {
    if files == [] then None else if files[0].name == name then Some(files[0]) else First(files[1..], name)
  }

  /** File i has the name, and no earlier file has. */
  ghost predicate FirstNamed(files: seq<File>, name: seq<Byte>, i: int) {
    0 <= i < |files| && files[i].name == name && forall j :: 0 <= j < i ==> files[j].name != name
  }

  lemma {:induction false} FirstIs(files: seq<File>, name: seq<Byte>)
    ensures First(files, name).None? <==> forall f :: f in files ==> f.name != name
    ensures First(files, name).Some? ==> exists i :: FirstNamed(files, name, i) && files[i] == First(files, name).value
    decreases |files|
  {
    if files != [] {
      assert files[0] in files;
      if files[0].name == name {
        assert FirstNamed(files, name, 0);
      } else {
        FirstIs(files[1..], name);
        if First(files[1..], name).Some? {
          var i :| FirstNamed(files[1..], name, i) && files[1..][i] == First(files[1..], name).value;
          assert FirstNamed(files, name, i + 1) && files[i + 1] == files[1..][i];
        }
      }
    }
  }

  /** strcmp(ar + p, name) == 0, where a NUL-terminated name is stored at p. */
  method SameName(ar: seq<Byte>, p: nat, name: seq<Byte>, ghost stored: seq<Byte>) returns (same: bool)
    requires NameAt(ar, p, stored) && 0 !in name
    ensures same <==> stored == name
  {
    var k := 0;
    while k < |name| && ar[p + k] == name[k]
      invariant 0 <= k <= |name| && k <= |stored| && stored[..k] == name[..k]
    {
      assert ar[p + k] != 0;
      assert k < |stored| && stored[k] == ar[p..p + |stored|][k];
      assert stored[..k + 1] == stored[..k] + [stored[k]] && name[..k + 1] == name[..k] + [name[k]];
      k := k + 1;
    }
    same := k == |name| && ar[p + k] == 0;
    if k < |stored| {
      assert ar[p + k] == ar[p..p + |stored|][k] == stored[k] && stored[k] in stored;
      assert k < |name| ==> stored[k] != name[k];
    } else {
      assert stored == stored[..k] == name[..k];
    }
  }

  /** The loop that reads the size field. */
  method ParseOctal(ar: seq<Byte>, p: nat) returns (size: int)
    requires p + SIZE_DIGITS <= |ar|
    ensures size == Octal(ar, p, SIZE_DIGITS)
  {
    size := 0;
    for i := 0 to SIZE_DIGITS
      invariant size == Octal(ar, p, i)
    {
      size := size * 8 + ar[p + i] - '0' as int;
    }
  }

  /** tarfs_lookup on an archive of the given files: the position and size of the contents of the first file with
      that name, or None (NULL) exactly when no file has it. */
  method Lookup(ar: seq<Byte>, filename: seq<Byte>, ghost files: seq<File>) returns (r: Option<(nat, nat)>)
    requires Archive(ar, 0, files) && 0 !in filename
    ensures r.None? <==> forall f :: f in files ==> f.name != filename
    ensures r.Some? ==>
              var (at, size) := r.value;
              at + size <= |ar| && exists i :: FirstNamed(files, filename, i) && ar[at..at + size] == files[i].data
  {
    FirstIs(files, filename);
    var p: nat := 0;
    ghost var rest := files;
    while p < |ar|
      invariant Archive(ar, p, rest) && First(rest, filename) == First(files, filename)
      decreases |ar| - p
    {
      FirstHeader(ar, p, rest);
      if ar[p] == 0 {
        return None;
      }
      var size := ParseOctal(ar, p + SIZE_FIELD);
      var same := SameName(ar, p, filename, rest[0].name);
      if same {
        return Some((p + BLOCK, size));
      }
      p := Next(p, size);
      rest := rest[1..];
    }
    FirstHeader(ar, p, rest);
    return None;
  }

  /** A header without a name, or the last byte, ends the archive. */
  lemma FirstHeader(ar: seq<Byte>, p: nat, rest: seq<File>)
    requires Archive(ar, p, rest)
    ensures rest == [] <==> p >= |ar| || ar[p] == 0
    ensures rest != [] ==>
              var f := rest[0];
              && Next(p, |f.data|) <= |ar| && NameAt(ar, p, f.name)
              && Octal(ar, p + SIZE_FIELD, SIZE_DIGITS) == |f.data| && p + BLOCK + |f.data| <= |ar|
              && ar[p + BLOCK..p + BLOCK + |f.data|] == f.data
              && Archive(ar, Next(p, |f.data|), rest[1..])
  {
    hide Octal, NameAt;
    if rest != [] {
      HeaderThere(ar, p, rest[0].name);
      Headers(p, |rest[0].data|);
    }
  }

  lemma HeaderThere(ar: seq<Byte>, p: nat, name: seq<Byte>)
    requires NameAt(ar, p, name) && name != []
    ensures p < |ar| && ar[p] != 0
  {
    assert ar[p] == ar[p..p + |name|][0] == name[0] && name[0] in name;
  }

  lemma Headers(p: nat, size: nat)
    ensures Next(p, size) == p + 512 * (1 + (size + 511) / 512) >= p + 512 + size
  {
  }
}
