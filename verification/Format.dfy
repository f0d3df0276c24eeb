/** Number formatting and the bounded printf of the kernel. */
module Format {
  const UINT_LIMIT := 0x1_0000_0000
  const INT_MIN := -0x8000_0000
  const INT_MAX := 0x7FFF_FFFF

  // ---------------------------------------------------------------- numbers

  predicate BaseOk(base: int) { 2 <= base <= 16 }

  function DigitChar(d: int): char
    requires 0 <= d < 16
  {
    "0123456789abcdef"[d]
  }

  function DigitValue(c: char): int {
    if '0' <= c <= '9' then c as int - '0' as int else if 'a' <= c <= 'f' then c as int - 'a' as int + 10 else 0
  }

  lemma DigitRoundTrip(d: int)
    requires 0 <= d < 16
    ensures DigitValue(DigitChar(d)) == d && (DigitChar(d) == '0' <==> d == 0)
  {
  }

  /** The number that a string of digits denotes. */
  function Value(s: string, base: int): int {
    if s == "" then 0 else Value(s[..|s| - 1], base) * base + DigitValue(s[|s| - 1])
  }

  lemma Times(m: nat, a: int, b: int)
    requires a <= b
    ensures m * a <= m * b
  {
  }

  lemma Smaller(v: nat, base: int)
    requires BaseOk(base) && v >= base
    ensures 0 < v / base < v && v == v / base * base + v % base && 0 <= v % base < base
  {
  }

  /** The digits of v, most significant first. */
  function Digits(v: nat, base: int): (s: string)
    requires BaseOk(base)
    ensures |s| >= 1
    decreases v
  {
    if v < base then [DigitChar(v)] else Smaller(v, base); Digits(v / base, base) + [DigitChar(v % base)]
  }

  /** Reading the digits back gives the number, and there is no leading zero. */
  lemma {:induction false} DigitsDenote(v: nat, base: int)
    requires BaseOk(base)
    ensures Value(Digits(v, base), base) == v && (Digits(v, base)[0] == '0' <==> v == 0)
    decreases v
  {
    if v < base {
      DigitRoundTrip(v);
      assert Digits(v, base)[..0] == "";
    } else {
      Smaller(v, base);
      DigitsDenote(v / base, base);
      DigitRoundTrip(v % base);
      var s := Digits(v / base, base);
      assert (s + [DigitChar(v % base)])[..|s|] == s;
    }
  }

  function Pow(base: nat, k: nat): nat { if k == 0 then 1 else base * Pow(base, k - 1) }

  lemma Quotient(v: nat, base: int, q: int)
    requires 0 < base && v < base * q
    ensures v / base < q
  {
  }

  lemma {:induction false} DigitsFit(v: nat, base: int, k: nat)
    requires BaseOk(base) && k >= 1 && v < Pow(base, k)
    ensures |Digits(v, base)| <= k
    decreases k
  {
    assert Pow(base, 1) == base * Pow(base, 0);
    if v >= base && k > 1 {
      Smaller(v, base);
      Quotient(v, base, Pow(base, k - 1));
      DigitsFit(v / base, base, k - 1);
    }
  }

  lemma {:induction false} PowMonotone(a: nat, b: nat, k: nat)
    requires a <= b
    ensures Pow(a, k) <= Pow(b, k)
  {
    if k > 0 {
      PowMonotone(a, b, k - 1);
      Times(Pow(a, k - 1), a, b);
      Times(b, Pow(a, k - 1), Pow(b, k - 1));
    }
  }

  lemma UintFits(v: nat, base: int)
    requires BaseOk(base) && v < UINT_LIMIT
    ensures |Digits(v, base)| <= 32 && (base == 10 ==> |Digits(v, base)| <= 10)
  {
    assert Pow(2, 8) == 256;
    PowDoubles(2, 8);
    PowDoubles(2, 16);
    PowMonotone(2, base, 32);
    DigitsFit(v, base, 32);
    if base == 10 {
      DecimalFits(v);
    }
  }

  lemma DecimalFits(v: nat)
    requires v < UINT_LIMIT
    ensures |Digits(v, 10)| <= 10
  {
    assert Pow(10, 5) == 100_000;
    PowDoubles(10, 5);
    DigitsFit(v, 10, 10);
  }

  lemma PowDoubles(b: nat, k: nat)
    ensures Pow(b, 2 * k) == Pow(b, k) * Pow(b, k)
  {
    PowSum(b, k, k);
  }

  lemma {:induction false} PowSum(b: nat, j: nat, k: nat)
    ensures Pow(b, j + k) == Pow(b, j) * Pow(b, k)
    decreases j
  {
    if j > 0 {
      PowSum(b, j - 1, k);
      assert b * (Pow(b, j - 1) * Pow(b, k)) == b * Pow(b, j - 1) * Pow(b, k);
    }
  }

  /** The digits still to come when v is left over; none when v is 0. */
  function Left(v: nat, base: int): string
    requires BaseOk(base)
  {
    if v == 0 then "" else Digits(v, base)
  }

  lemma LeftStep(v: nat, base: int)
    requires BaseOk(base)
    ensures v / base >= 0 && 0 <= v % base < 16 && Digits(v, base) == Left(v / base, base) + [DigitChar(v % base)]
    ensures v > 0 ==> v / base < v
  {
    if v >= base {
      Smaller(v, base);
    } else {
      Small(v, base);
    }
  }

  lemma Small(v: nat, base: int)
    requires v < base
    ensures v / base == 0 && v % base == v
  {
  }

  /** The i characters of buf, read backwards, end the string all. */
  ghost predicate Backwards(buf: seq<char>, i: int, all: string) {
    0 <= i <= |buf| && i <= |all| && forall k :: 0 <= k < i ==> buf[k] == all[|all| - 1 - k]
  }

  /** The do-while loop: the digits are collected backwards in a buffer of 33 characters, which is never overrun. */
  method DigitsBackwards(value: nat, base: int, buf: array<char>) returns (i: int)
    requires value < UINT_LIMIT && BaseOk(base) && buf.Length == 33
    modifies buf
    ensures i == |Digits(value, base)| <= 32 && Backwards(buf[..], i, Digits(value, base))
  {
    UintFits(value, base);
    ghost var all := Digits(value, base);
    LeftStep(value, base);
    buf[0] := DigitChar(value % base);
    var v := value / base;
    i := 1;
    while v > 0
      invariant 0 <= v && 1 <= i && Backwards(buf[..], i, all)
      invariant Left(v, base) == all[..|all| - i]
      decreases v
    {
      ghost var b := buf[..];
      LeftStep(v, base);
      var d, q := v % base, v / base;
      buf[i] := DigitChar(d);
      NextDigit(b, buf[..], i, all, Left(q, base), DigitChar(d));
      v, i := q, i + 1;
    }
  }

  lemma NextDigit(b: seq<char>, b': seq<char>, i: int, all: string, left: string, c: char)
    requires Backwards(b, i, all) && i < |b| && b' == b[i := c] && all[..|all| - i] == left + [c]
    ensures Backwards(b', i + 1, all) && left == all[..|all| - i - 1]
  {
  }

  /** itoa_unsigned: the string left in str. */
  method ItoaUnsigned(value: nat, base: int) returns (s: string)
    requires value < UINT_LIMIT
    ensures s == if BaseOk(base) then Digits(value, base) else ""
  {
    if base < 2 || base > 16 {
      return "";
    }
    var buf := new char[33];
    var i := DigitsBackwards(value, base, buf);
    ghost var all := Digits(value, base);
    s := "";
    while i > 0
      invariant 0 <= i <= |all| <= 32 && s == all[..|all| - i] && Backwards(buf[..], i, all)
    {
      i := i - 1;
      s := s + [buf[i]];
    }
  }

  /** What %d prints. */
  function Signed(v: int): string
    requires INT_MIN <= v <= INT_MAX
  {
    if v < 0 then "-" + Digits(-v, 10) else Digits(v, 10)
  }

  /** (unsigned int)v */
  function Unsigned(v: int): (u: nat)
    requires INT_MIN <= v <= INT_MAX
  {
    if v < 0 then v + UINT_LIMIT else v
  }

  /** itoa_signed. Negating the smallest int is taken to wrap around. */
  method ItoaSigned(value: int, base: int) returns (s: string)
    requires INT_MIN <= value <= INT_MAX
    ensures base == 10 ==> s == Signed(value) && |s| <= 11
    ensures base != 10 ==> s == if BaseOk(base) then Digits(Unsigned(value), base) else ""
  {
    if base < 2 || base > 16 {
      return "";
    }
    if value < 0 && base == 10 {
      DecimalFits(-value);
      s := ItoaUnsigned(-value, base);
      s := "-" + s;
    } else {
      DecimalFits(Unsigned(value));
      s := ItoaUnsigned(Unsigned(value), base);
    }
  }

  // ---------------------------------------------------------------- format strings

  /** The variable arguments; a C string is the sequence of characters before its NUL. */
  datatype Arg = Str(s: string) | Null | Int(i: int) | Uint(u: int) | Ptr(p: int) | Chr(c: char)

  predicate Takes(spec: char) { spec in "sduxpc" }

  /** The argument has the type that va_arg asks for. */
  predicate Fits(spec: char, a: Arg) {
    match spec
    case 's' => a.Str? || a.Null?
    case 'd' => a.Int? && INT_MIN <= a.i <= INT_MAX
    case 'u' => a.Uint? && 0 <= a.u < UINT_LIMIT
    case 'x' => a.Uint? && 0 <= a.u < UINT_LIMIT
    case 'p' => a.Ptr? && 0 <= a.p
    case 'c' => a.Chr?
    case _ => true
  }

  /** What one directive stands for; only the low 32 bits of a pointer are printed. */
  function Piece(spec: char, a: Arg): string
    requires Fits(spec, a)
  {
    match spec
    case 's' => if a.Str? then a.s else ""
    case 'd' => Signed(a.i)
    case 'u' => Digits(a.u, 10)
    case 'x' => Digits(a.u, 16)
    case 'p' => "0x" + Digits(a.p % UINT_LIMIT, 16)
    case 'c' => [a.c]
    case '%' => "%"
    case _ => ['%', spec]
  }

  /** The text is a number in the given base: read back it gives v, it has no leading zero, and its digits are those of
      the table. */
  ghost predicate Reads(s: string, base: int, v: int) {
    Value(s, base) == v && s != "" && (s[0] == '0' ==> v == 0) && forall c :: c in s ==> c in "0123456789abcdef"
  }

  lemma {:induction false} DigitsInTable(v: nat, base: int)
    requires BaseOk(base)
    ensures forall c :: c in Digits(v, base) ==> c in "0123456789abcdef"
    decreases v
  {
    if v >= base {
      Smaller(v, base);
      DigitsInTable(v / base, base);
    }
  }

  lemma DigitsRead(v: nat, base: int)
    requires BaseOk(base)
    ensures Reads(Digits(v, base), base, v)
  {
    DigitsDenote(v, base);
    DigitsInTable(v, base);
  }

  /** What the text of each directive says: %u and %x read back as the argument in base 10 and 16, %p as the low 32 bits of
      the address behind 0x, %d as the argument with a minus sign when it is negative; %s and %c are copied, with nothing for
      a null string, %% is one sign, and an unknown directive stands for itself. */
  lemma PieceReads(spec: char, a: Arg)
    requires Fits(spec, a)
    ensures var s := Piece(spec, a);
            && (spec == 'u' ==> Reads(s, 10, a.u))
            && (spec == 'x' ==> Reads(s, 16, a.u))
            && (spec == 'p' ==> |s| > 2 && s[0] == '0' && s[1] == 'x' && Reads(s[2..], 16, a.p % 0x1_0000_0000))
            && (spec == 'd' ==> if a.i < 0 then s != "" && s[0] == '-' && Reads(s[1..], 10, -a.i) else Reads(s, 10, a.i))
            && (spec == 's' ==> s == if a.Null? then "" else a.s)
            && (spec == 'c' ==> s == [a.c])
            && (spec !in "sduxpc" ==> s == if spec == '%' then "%" else ['%', spec])
  {
    match spec
    case 'u' => DigitsRead(a.u, 10);
    case 'x' => DigitsRead(a.u, 16);
    case 'p' => DigitsRead(a.p % UINT_LIMIT, 16);
    case 'd' => DigitsRead(if a.i < 0 then -a.i else a.i, 10);
    case _ =>
  }

  /** The digits by name, and their order: the first one weighs most. */
  lemma DigitNames(d: int, base: int)
    requires 0 <= d < 16
    ensures DigitValue("0123456789abcdef"[d]) == d && Value("10", base) == base
  {
    assert "10"[..1] == "1" && "1"[..0] == "" && Value("1", base) == 1;
  }

  predicate Directive(fmt: string) { |fmt| >= 2 && fmt[0] == '%' }

  /** The argument a directive looks at, and those left for the rest. */
  function Head(spec: char, args: seq<Arg>): Arg
    requires Takes(spec) ==> |args| > 0
  {
    if Takes(spec) then args[0] else Null
  }

  function Tail(spec: char, args: seq<Arg>): seq<Arg>
    requires Takes(spec) ==> |args| > 0
  {
    if Takes(spec) then args[1..] else args
  }

  /** The caller passes an argument of the right type for every directive. */
  predicate Matches(fmt: string, args: seq<Arg>)
    decreases |fmt|
  {
    if fmt == "" then true
    else if Directive(fmt) then
      (Takes(fmt[1]) ==> |args| > 0) && Fits(fmt[1], Head(fmt[1], args)) && Matches(fmt[2..], Tail(fmt[1], args))
    else Matches(fmt[1..], args)
  }

  /** Unbounded formatting. */
  function Expand(fmt: string, args: seq<Arg>): string
    requires Matches(fmt, args)
    decreases |fmt|
  {
    if fmt == "" then ""
    else if Directive(fmt) then Piece(fmt[1], Head(fmt[1], args)) + Expand(fmt[2..], Tail(fmt[1], args))
    else [fmt[0]] + Expand(fmt[1..], args)
  }

  lemma Regroup(text: string, e: string)
    requires text != ""
    ensures text + e == [text[0]] + (text[1..] + e)
  {
  }

  /** Text without a percent sign is copied, and then the first directive is expanded. */
  lemma {:induction false} ExpandText(text: string, fmt: string, args: seq<Arg>)
    requires '%' !in text && Matches(fmt, args)
    ensures Matches(text + fmt, args) && Expand(text + fmt, args) == text + Expand(fmt, args)
    decreases |text|
  {
    if text == "" {
      assert text + fmt == fmt;
    } else {
      ExpandText(text[1..], fmt, args);
      assert (text + fmt)[0] == text[0] && text[0] in text && (text + fmt)[1..] == text[1..] + fmt;
      Regroup(text, Expand(fmt, args));
    }
  }

  /** A directive that takes an argument uses up one; %%, and a directive that is not known, none. */
  lemma ExpandDirective(spec: char, fmt: string, a: Arg, args: seq<Arg>)
    requires Fits(spec, a) && Matches(fmt, args) && (spec !in "sduxpc" ==> a == Null)
    ensures var args' := if spec in "sduxpc" then [a] + args else args;
            Matches(['%', spec] + fmt, args') && Expand(['%', spec] + fmt, args') == Piece(spec, a) + Expand(fmt, args)
  {
    var f := ['%', spec] + fmt;
    assert f[0] == '%' && f[1] == spec && f[2..] == fmt;
    assert ([a] + args)[1..] == args;
  }

  function Cut(s: string, n: nat): string {
    if |s| <= n then s else s[..n]
  }

  /** The longest prefix of at most n characters. */
  lemma CutIs(s: string, n: nat)
    ensures Cut(s, n) <= s && |Cut(s, n)| == if |s| < n then |s| else n
  {
  }

  /** The characters of buf from position at on are s, and nothing outside [at, at + |s|) differs from was. */
  ghost predicate Put(was: seq<char>, buf: seq<char>, at: int, s: string) {
    && |buf| == |was| && 0 <= at && at + |s| <= |buf| && buf[at..at + |s|] == s
    && forall k :: 0 <= k < |buf| && !(at <= k < at + |s|) ==> buf[k] == was[k]
  }

  lemma PutMore(b0: seq<char>, b1: seq<char>, b2: seq<char>, at: int, s: string, t: string)
    requires Put(b0, b1, at, s) && Put(b1, b2, at + |s|, t)
    ensures Put(b0, b2, at, s + t)
  {
  }

  /** Cutting a concatenation is cutting its parts in turn. */
  lemma CutConcat(s: string, t: string, n: nat)
    ensures Cut(s + t, n) == Cut(s, n) + Cut(t, n - |Cut(s, n)|)
  {
  }

  lemma PutCut(b0: seq<char>, b1: seq<char>, b2: seq<char>, at: int, s: string, t: string, n: nat)
    requires Put(b0, b1, at, Cut(s, n)) && Put(b1, b2, at + |Cut(s, n)|, Cut(t, n - |Cut(s, n)|))
    ensures Put(b0, b2, at, Cut(s + t, n))
  {
    CutConcat(s, t, n);
    PutMore(b0, b1, b2, at, Cut(s, n), Cut(t, n - |Cut(s, n)|));
  }

  /** One of the loops that copy a string while there is room. */
  method PutString(buf: array<char>, off: nat, size: int, i: nat, s: string) returns (j: nat)
    requires i <= size - 1 && off + size <= buf.Length
    modifies buf
    ensures var t := Cut(s, size - 1 - i); j == i + |t| <= size - 1 && Put(old(buf[..]), buf[..], off + i, t)
  {
    j := i;
    var k := 0;
    while k < |s| && j < size - 1
      invariant 0 <= k <= |s| && j == i + k <= size - 1 && Put(old(buf[..]), buf[..], off + i, s[..k])
    {
      ghost var b := buf[..];
      buf[off + j] := s[k];
      assert Put(b, buf[..], off + i + k, [s[k]]);
      PutMore(old(buf[..]), b, buf[..], off + i, s[..k], [s[k]]);
      assert s[..k + 1] == s[..k] + [s[k]];
      k, j := k + 1, j + 1;
    }
    assert s[..k] == Cut(s, size - 1 - i);
  }

  /** A character for which there is room. */
  method PutChar(buf: array<char>, off: nat, size: int, i: nat, c: char) returns (j: nat)
    requires i < size - 1 && off + size <= buf.Length
    modifies buf
    ensures j == i + 1 && Put(old(buf[..]), buf[..], off + i, [c])
  {
    buf[off + i] := c;
    j := i + 1;
  }

  /** The switch of kvnprintf: one directive, cut where the buffer ends. */
  method PutPiece(buf: array<char>, off: nat, size: int, i: nat, spec: char, a: Arg) returns (j: nat)
    requires i < size - 1 && off + size <= buf.Length && Fits(spec, a)
    modifies buf
    ensures var t := Cut(Piece(spec, a), size - 1 - i); j == i + |t| <= size - 1 && Put(old(buf[..]), buf[..], off + i, t)
  {
    match spec {
      case 's' =>
        j := PutString(buf, off, size, i, if a.Str? then a.s else "");
      case 'd' =>
        var tmp := ItoaSigned(a.i, 10);
        j := PutString(buf, off, size, i, tmp);
      case 'u' =>
        var tmp := ItoaUnsigned(a.u, 10);
        j := PutString(buf, off, size, i, tmp);
      case 'x' =>
        var tmp := ItoaUnsigned(a.u, 16);
        j := PutString(buf, off, size, i, tmp);
      case 'p' =>
        j := PutPointer(buf, off, size, i, a.p);
      case 'c' =>
        j := PutChar(buf, off, size, i, a.c);
      case '%' =>
        j := PutChar(buf, off, size, i, '%');
      case _ =>
        j := PutTwo(buf, off, size, i, '%', spec);
    }
  }

  /** The first character always has room, the second may not. */
  method PutTwo(buf: array<char>, off: nat, size: int, i: nat, c: char, d: char) returns (j: nat)
    requires i < size - 1 && off + size <= buf.Length
    modifies buf
    ensures var t := Cut([c, d], size - 1 - i); j == i + |t| <= size - 1 && Put(old(buf[..]), buf[..], off + i, t)
  {
    j := PutChar(buf, off, size, i, c);
    if j < size - 1 {
      ghost var b := buf[..];
      j := PutChar(buf, off, size, j, d);
      PutMore(old(buf[..]), b, buf[..], off + i, [c], [d]);
      assert [c] + [d] == [c, d];
    } else {
      assert Cut([c, d], 1) == [c];
    }
  }

  method PutPointer(buf: array<char>, off: nat, size: int, i: nat, p: nat) returns (j: nat)
    requires i < size - 1 && off + size <= buf.Length
    modifies buf
    ensures var t := Cut("0x" + Digits(p % UINT_LIMIT, 16), size - 1 - i);
            j == i + |t| <= size - 1 && Put(old(buf[..]), buf[..], off + i, t)
  {
    ghost var room := size - 1 - i;
    j := PutTwo(buf, off, size, i, '0', 'x');
    ghost var b := buf[..];
    assert ['0', 'x'] == "0x";
    var tmp := ItoaUnsigned(p % UINT_LIMIT, 16);
    j := PutString(buf, off, size, j, tmp);
    PutCut(old(buf[..]), b, buf[..], off + i, "0x", tmp, room);
    CutConcat("0x", tmp, room);
  }

  /** One turn of the loop of kvnprintf, for a directive or a plain character; p is what it stands for. */
  method Turn(buf: array<char>, off: nat, size: int, i: nat, f: string, a: seq<Arg>)
    returns (j: nat, f': string, a': seq<Arg>, ghost p: string)
    requires f != "" && i < size - 1 && off + size <= buf.Length && Matches(f, a)
    modifies buf
    ensures var t := Cut(p, size - 1 - i); j == i + |t| <= size - 1 && Put(old(buf[..]), buf[..], off + i, t)
    ensures |f'| < |f| && Matches(f', a') && Expand(f, a) == p + Expand(f', a')
  {
    if Directive(f) {
      var spec := f[1];
      p := Piece(spec, Head(spec, a));
      j := PutPiece(buf, off, size, i, spec, Head(spec, a));
      f', a' := f[2..], Tail(spec, a);
    } else {
      p := [f[0]];
      j := PutChar(buf, off, size, i, f[0]);
      f', a' := f[1..], a;
    }
  }

  /** The first n characters of e are in the buffer; unless it is full, rest is what is missing. */
  ghost predicate Progress(b0: seq<char>, b: seq<char>, off: nat, size: int, e: string, n: nat, rest: string) {
    n <= size - 1 && n <= |e| && Put(b0, b, off, e[..n]) && (n < size - 1 ==> e == e[..n] + rest)
  }

  /** One more piece p of the expansion e. */
  lemma NextPiece(b0: seq<char>, b: seq<char>, b': seq<char>, off: nat, size: int, e: string, i: nat, p: string, rest: string)
    requires i < size - 1 && Progress(b0, b, off, size, e, i, p + rest) && Put(b, b', off + i, Cut(p, size - 1 - i))
    ensures Progress(b0, b', off, size, e, i + |Cut(p, size - 1 - i)|, rest)
  {
    var t := Cut(p, size - 1 - i);
    PutMore(b0, b, b', off, e[..i], t);
    assert e[..i + |t|] == e[..i] + t;
    if |p| <= size - 1 - i {
      assert e == (e[..i] + p) + rest;
    }
  }

  lemma Finished(b0: seq<char>, b: seq<char>, b': seq<char>, off: nat, size: int, e: string, n: nat, rest: string)
    requires Progress(b0, b, off, size, e, n, rest) && (n == size - 1 || rest == "") && Put(b, b', off + n, ['\0'])
    ensures n == |Cut(e, size - 1)| && Put(b0, b', off, Cut(e, size - 1) + ['\0'])
  {
  }

  method Advance(buf: array<char>, off: nat, size: int, i: nat, f: string, a: seq<Arg>, ghost b0: seq<char>, ghost e: string)
    returns (j: nat, f': string, a': seq<Arg>)
    requires f != "" && i < size - 1 && off + size <= buf.Length && Matches(f, a)
    requires Progress(b0, buf[..], off, size, e, i, Expand(f, a))
    modifies buf
    ensures |f'| < |f| && Matches(f', a') && Progress(b0, buf[..], off, size, e, j, Expand(f', a'))
  {
    ghost var p;
    j, f', a', p := Turn(buf, off, size, i, f, a);
    NextPiece(b0, old(buf[..]), buf[..], off, size, e, i, p, Expand(f', a'));
  }

  /** buf[i] = '\0' */
  method Finish(buf: array<char>, off: nat, size: int, i: nat, ghost b0: seq<char>, ghost e: string, ghost rest: string)
    requires off + size <= buf.Length && Progress(b0, buf[..], off, size, e, i, rest) && (i == size - 1 || rest == "")
    modifies buf
    ensures i == |Cut(e, size - 1)| && Put(b0, buf[..], off, Cut(e, size - 1) + ['\0'])
  {
    ghost var b := buf[..];
    buf[off + i] := '\0';
    Finished(b0, b, buf[..], off, size, e, i, rest);
  }

  /** kvnprintf into the size characters of buf from off on: exactly the first size - 1 characters of the unbounded
      expansion, then NUL. The result is the number of characters before the NUL. */
  method Kvnprintf(buf: array<char>, off: nat, size: int, fmt: string, args: seq<Arg>) returns (n: nat)
    requires 1 <= size && off + size <= buf.Length && Matches(fmt, args)
    modifies buf
    ensures var e := Cut(Expand(fmt, args), size - 1); n == |e| && Put(old(buf[..]), buf[..], off, e + ['\0'])
  {
    ghost var e, b0 := Expand(fmt, args), buf[..];
    var f, a := fmt, args;
    n := 0;
    assert e == e[..0] + e;
    while f != "" && n < size - 1
      invariant Matches(f, a) && Progress(b0, buf[..], off, size, e, n, Expand(f, a))
      decreases |f|
    {
      n, f, a := Advance(buf, off, size, n, f, a, b0, e);
    }
    Finish(buf, off, size, n, b0, e, Expand(f, a));
  }

  // ---------------------------------------------------------------- log lines

  const LINE := 512

  /** buf holds the string all, cut to 511 characters, and its NUL. */
  ghost predicate Holds(buf: seq<char>, all: string) {
    var line := Cut(all, 511);
    |buf| == 512 && buf[..|line|] == line && buf[|line|] == '\0'
  }

  /** Reading back a string that was put together with its NUL. */
  lemma PutReads(b: seq<char>, b': seq<char>, at: int, s: string)
    requires Put(b, b', at, s + ['\0'])
    ensures at + |s| < |b'| == |b| && b'[at..at + |s|] == s && b'[at + |s|] == '\0' && b'[..at] == b[..at]
  {
    var t := s + ['\0'];
    assert |t| == |s| + 1;
    var w := b'[at..at + |t|];
    assert w[..|s|] == t[..|s|] == s && w[|s|] == t[|s|];
    assert b'[at..at + |s|] == w[..|s|] && b'[at + |s|] == w[|s|];
  }

  lemma Appended(b: seq<char>, b': seq<char>, all: string, e: string)
    requires Holds(b, all)
    requires var line := Cut(all, LINE - 1); Put(b, b', |line|, Cut(e, LINE - 1 - |line|) + ['\0'])
    ensures Holds(b', all + e) && |Cut(all + e, LINE - 1)| == |Cut(all, LINE - 1)| + |Cut(e, LINE - 1 - |Cut(all, LINE - 1)|)|
  {
    var line := Cut(all, LINE - 1);
    var t := Cut(e, LINE - 1 - |line|);
    CutConcat(all, e, LINE - 1);
    PutReads(b, b', |line|, t);
    assert b'[..|line| + |t|] == b'[..|line|] + b'[|line|..|line| + |t|];
  }

  /** pos += kvnprintf(buf + pos, sizeof(buf) - pos, fmt, args) */
  method Append(buf: array<char>, pos: nat, fmt: string, args: seq<Arg>, ghost all: string) returns (end: nat)
    requires Matches(fmt, args) && Holds(buf[..], all) && pos == |Cut(all, LINE - 1)|
    modifies buf
    ensures Holds(buf[..], all + Expand(fmt, args)) && end == |Cut(all + Expand(fmt, args), LINE - 1)|
  {
    var n := Kvnprintf(buf, pos, LINE - pos, fmt, args);
    Appended(old(buf[..]), buf[..], all, Expand(fmt, args));
    end := pos + n;
  }

  /** Three formatted pieces in a row, as in the log functions: the line is their concatenation, cut to 511
      characters, and the buffer is never overrun. */
  method LogLine(fmt1: string, args1: seq<Arg>, fmt2: string, args2: seq<Arg>, fmt3: string, args3: seq<Arg>)
    returns (buf: array<char>, pos: nat)
    requires Matches(fmt1, args1) && Matches(fmt2, args2) && Matches(fmt3, args3)
    ensures fresh(buf)
    ensures var all := Expand(fmt1, args1) + Expand(fmt2, args2) + Expand(fmt3, args3);
            Holds(buf[..], all) && pos == |Cut(all, LINE - 1)|
  {
    buf := new char[LINE];
    ghost var b := buf[..];
    pos := Kvnprintf(buf, 0, LINE, fmt1, args1);
    PutReads(b, buf[..], 0, Cut(Expand(fmt1, args1), LINE - 1));
    pos := Append(buf, pos, fmt2, args2, Expand(fmt1, args1));
    pos := Append(buf, pos, fmt3, args3, Expand(fmt1, args1) + Expand(fmt2, args2));
  }

  lemma LevelPrefix(level: string)
    ensures Matches("[%s] ", [Str(level)]) && Expand("[%s] ", [Str(level)]) == "[" + level + "] "
  {
    assert "[%s] "[1..] == "%s] " && "%s] "[2..] == "] " && "] "[1..] == " " && " "[1..] == "";
    assert [Str(level)][1..] == [];
    assert Expand("] ", []) == "] ";
    assert Expand("%s] ", [Str(level)]) == level + "] ";
  }

  /** virtio_emerg_log: the line it sends to the console. */
  method VirtioEmergLog(level: string, fmt: string, args: seq<Arg>) returns (buf: array<char>)
    requires Matches(fmt, args)
    ensures fresh(buf) && Holds(buf[..], "[" + level + "] " + Expand(fmt, args) + "\n")
  {
    LevelPrefix(level);
    assert "\n"[1..] == "";
    var pos;
    buf, pos := LogLine("[%s] ", [Str(level)], fmt, args, "\n", []);
  }
}
