/** Integers as text: what `strtol` and `strtoul` read, and what the conversions of the
    printf family write. */
module Integers {
  import opened Bits
  import opened FoldArith
  import opened Numerals

  const ULONG_MAX: int := 0xffff_ffff_ffff_ffff
  const LONG_MAX: int := 0x7fff_ffff_ffff_ffff
  const LONG_MIN: int := -0x8000_0000_0000_0000
  const INT_MAX: int := 0x7fff_ffff

  const ALPHABET: string := "0123456789ABCDEFGHIJKLMNOPQRSTUVWXYZ"

  predicate IsSpace(c: char) {
    c == ' ' || '\t' <= c <= '\r'
  }

  function ToUpper(c: char): char {
    if 'a' <= c <= 'z' then (c as int - 32) as char else c
  }

  /** The place of a character in the table of digits, or the table's length. */
  function Place(c: char): nat {
    if '0' <= c <= '9' then c as int - '0' as int else if 'A' <= c <= 'Z' then c as int - 'A' as int + 10 else 36
  }

  lemma {:induction false} PlaceInTable(d: nat)
    requires d < 36
    ensures |ALPHABET| == 36 && Place(ALPHABET[d]) == d
  {
  }

  /** The value of a digit: the terminator counts as 36, for the search finds it at the end
      of the table. */
  function Dtoi(c: char): nat {
    var i := Place(ToUpper(c));
    if i < 36 then i else if c == '\0' then 36 else INT_MAX
  }

  /** A C string, its terminator included. */
  function At(s: string, i: nat): char {
    if i < |s| then s[i] else '\0'
  }

  function Spaces(s: string, i: nat): (j: nat)
    requires i <= |s|
    ensures i <= j <= |s|
    decreases |s| - i
  {
    if i < |s| && IsSpace(s[i]) then Spaces(s, i + 1) else i
  }

  /** What precedes the digits: a sign, the base it settles, where the digits start. */
  datatype Header = Header(neg: bool, base: nat, start: nat)

  predicate ValidBase(base: nat) {
    base == 0 || 2 <= base <= 36
  }

  function HeaderOf(s: string, base: nat): (h: Header)
    requires ValidBase(base)
    ensures 2 <= h.base <= 36 && h.start <= |s|
  {
    var i := Spaces(s, 0);
    var j := if At(s, i) == '-' || At(s, i) == '+' then i + 1 else i;
    var x := At(s, j) == '0' && ToUpper(At(s, j + 1)) == 'X';
    var b := if base == 0 then (if x then 16 else if At(s, j) == '0' then 8 else 10) else base;
    Header(At(s, i) == '-', b, if b == 16 && x then j + 2 else j)
  }

  /** The length of the run of digits of a base. */
  function Digits(s: string, i: nat, base: nat): (n: nat)
    requires i <= |s|
    ensures i + n <= |s|
    decreases |s| - i
  {
    if i < |s| && Dtoi(s[i]) < base then 1 + Digits(s, i + 1, base) else 0
  }

  /** The value of `n` digits. */
  function Amount(s: string, i: nat, n: nat, base: nat): (v: nat)
    requires i + n <= |s|
  {
    if n == 0 then 0 else Times(Amount(s, i, n - 1, base), base) + Dtoi(s[i + n - 1])
  }

  datatype Number = Number(value: int, end: nat) | Overflow(value: int)

  function Read(s: string, h: Header): nat
    requires h.start <= |s|
  {
    Amount(s, h.start, Digits(s, h.start, h.base), h.base)
  }

  function EndOf(s: string, h: Header): nat
    requires h.start <= |s|
  {
    if Digits(s, h.start, h.base) == 0 then 0 else h.start + Digits(s, h.start, h.base)
  }

  /** The value of the longest run of digits, negated modulo the word; ULONG_MAX and a range
      error exactly when it does not fit. */
  function StrToUL(s: string, base: nat): Number
    requires ValidBase(base)
  {
    var h := HeaderOf(s, base);
    var v := Read(s, h);
    if v > ULONG_MAX then Overflow(ULONG_MAX) else Number(if h.neg then Mod(0 - v, WORD) else v, EndOf(s, h))
  }

  /** The same for signed numbers, at both ends of their range. */
  function StrToL(s: string, base: nat): Number
    requires ValidBase(base)
  {
    var h := HeaderOf(s, base);
    var v := if h.neg then 0 - Read(s, h) else Read(s, h);
    if v > LONG_MAX then Overflow(LONG_MAX) else if v < LONG_MIN then Overflow(LONG_MIN) else Number(v, EndOf(s, h))
  }

  /** More digits never make less. */
  lemma {:induction false} AmountGrows(s: string, i: nat, m: nat, n: nat, base: nat)
    requires m <= n && i + n <= |s| && base >= 1
    ensures Amount(s, i, m, base) <= Amount(s, i, n, base)
    decreases n
  {
    hide Dtoi;
    if m < n {
      AmountGrows(s, i, m, n - 1, base);
      var v := Amount(s, i, n - 1, base);
      AtLeast(v, base);
    }
  }

  lemma {:induction false} DigitsFrom(s: string, i: nat, n: nat, base: nat)
    requires i + n <= |s| && n <= Digits(s, i, base)
    ensures Digits(s, i, base) == n + Digits(s, i + n, base)
    decreases n
  {
    if n > 0 {
      DigitsFrom(s, i + 1, n - 1, base);
    }
  }

  /** Comparing with a quotient is comparing the product. */
  lemma AboveQuotient(v: nat, base: nat, max: nat)
    requires base > 0
    ensures v > Div(max, base) <==> Times(v, base) > max
  {
    if v > 0 {
      DivGalois(v, base, max);
    }
  }

  method SkipHeader(s: string, base0: nat) returns (neg: bool, base: nat, start: nat)
    requires ValidBase(base0)
    ensures Header(neg, base, start) == HeaderOf(s, base0)
  {
    var i := 0;
    while IsSpace(At(s, i))
      invariant i <= |s| && Spaces(s, i) == Spaces(s, 0)
      decreases |s| - i
    {
      i := i + 1;
    }
    neg := At(s, i) == '-';
    if At(s, i) == '-' || At(s, i) == '+' {
      i := i + 1;
    }
    base := base0;
    if base == 0 {
      if At(s, i) == '0' {
        base := if ToUpper(At(s, i + 1)) == 'X' then 16 else 8;
      } else {
        base := 10;
      }
    }
    if base == 16 && At(s, i) == '0' && ToUpper(At(s, i + 1)) == 'X' {
      i := i + 2;
    }
    start := i;
  }

  /** The first digit of the run that does not fit, where the loops give up. */
  predicate FirstTooMany(s: string, h: Header, max: nat, t: nat)
    requires h.start <= |s|
  {
    && h.start <= t < h.start + Digits(s, h.start, h.base)
    && Amount(s, h.start, t - h.start, h.base) <= max < Amount(s, h.start, t + 1 - h.start, h.base)
  }

  /** `strtoul`; `overflow` is the range error, with which the end is the digit too many. */
  method Strtoul(s: string, base0: nat) returns (value: int, end: nat, overflow: bool)
    requires ValidBase(base0)
    ensures StrToUL(s, base0) == if overflow then Overflow(value) else Number(value, end)
    ensures overflow ==> FirstTooMany(s, HeaderOf(s, base0), 0xffff_ffff_ffff_ffff, end)
  {
    hide HeaderOf, Amount, Times, Div, Mod, Dtoi;
    end := 0;
    var neg, base, start := SkipHeader(s, base0);
    ghost var h := HeaderOf(s, base0);
    var n, t := 0, start;
    NoDigits(s, start, base);
    while Dtoi(At(s, t)) < base
      invariant start <= t <= |s| && t - start <= Digits(s, start, base)
      invariant n == Amount(s, start, t - start, base) && n <= ULONG_MAX
      decreases |s| - t
    {
      NextDigit(s, start, t, base);
      AboveQuotient(n, base, ULONG_MAX);
      AmountGrows(s, start, t + 1 - start, Digits(s, start, base), base);
      if n > Div(ULONG_MAX, base) {
        return ULONG_MAX, t, true;
      }
      n := Times(n, base);
      if Dtoi(s[t]) > ULONG_MAX - n {
        return ULONG_MAX, t, true;
      }
      n := n + Dtoi(s[t]);
      t := t + 1;
    }
    LastDigit(s, start, t, base);
    if t != start {
      end := t;
    }
    value := if neg then Mod(0 - n, WORD) else n;
    overflow := false;
  }

  lemma NoDigits(s: string, i: nat, base: nat)
    requires i <= |s|
    ensures Amount(s, i, 0, base) == 0
  {
  }

  /** The loop reads one more digit of the run. */
  lemma NextDigit(s: string, start: nat, t: nat, base: nat)
    requires start <= t <= |s| && t - start <= Digits(s, start, base) && 2 <= base <= 36 && Dtoi(At(s, t)) < base
    ensures t < |s| && At(s, t) == s[t] && t + 1 - start <= Digits(s, start, base)
    ensures Amount(s, start, t + 1 - start, base) == Times(Amount(s, start, t - start, base), base) + Dtoi(s[t])
  {
    DigitsFrom(s, start, t - start, base);
    TerminatorEnds();
    assert start + (t + 1 - start) - 1 == t;
  }

  lemma TerminatorEnds()
    ensures Dtoi('\0') >= 36
  {
  }

  lemma LastDigit(s: string, start: nat, t: nat, base: nat)
    requires start <= t <= |s| && t - start <= Digits(s, start, base) && Dtoi(At(s, t)) >= base
    ensures t - start == Digits(s, start, base)
  {
    DigitsFrom(s, start, t - start, base);
  }

  /** `strtol` counts down from 0, so that LONG_MIN itself is read without overflow. */
  method Strtol(s: string, base0: nat) returns (value: int, end: nat, overflow: bool)
    requires ValidBase(base0)
    ensures StrToL(s, base0) == if overflow then Overflow(value) else Number(value, end)
    ensures overflow ==> FirstTooMany(s, HeaderOf(s, base0), 0x7fff_ffff_ffff_ffff + (if value < 0 then 1 else 0), end)
  {
    hide HeaderOf, Amount, Times, Div, Dtoi;
    end := 0;
    var neg, base, start := SkipHeader(s, base0);
    ghost var h := HeaderOf(s, base0);
    var n, t := 0, start;
    NoDigits(s, start, base);
    while Dtoi(At(s, t)) < base
      invariant start <= t <= |s| && t - start <= Digits(s, start, base)
      invariant -n == Amount(s, start, t - start, base) && LONG_MIN <= n <= 0 && (n == LONG_MIN ==> neg)
      decreases |s| - t
    {
      NextDigit(s, start, t, base);
      AboveQuotient(-n, base, -LONG_MIN);
      TimesNegated(n, base);
      AmountGrows(s, start, t + 1 - start, Digits(s, start, base), base);
      if n < 0 - Div(-LONG_MIN, base) {
        return if neg then LONG_MIN else LONG_MAX, t, true;
      }
      n := Times(n, base);
      if 0 - Dtoi(s[t]) < LONG_MIN - n {
        return if neg then LONG_MIN else LONG_MAX, t, true;
      }
      n := n - Dtoi(s[t]);
      if n == LONG_MIN && !neg {
        return LONG_MAX, t, true;
      }
      t := t + 1;
    }
    LastDigit(s, start, t, base);
    if t != start {
      end := t;
    }
    value := if neg then n else -n;
    overflow := false;
  }

  lemma TimesNegated(n: int, base: int)
    ensures Times(-n, base) == -Times(n, base)
  {
  }

  // Writing numbers

  const LOWERX: string := "0123456789abcdefx"
  const UPPERX: string := "0123456789ABCDEFX"
  const MAXPREC: nat := 50

  /** What a conversion asks for; `sign` is the terminator when there is none. */
  datatype Conv = Conv(sign: char, prec: nat, base: nat, digs: string)

  predicate ValidConv(c: Conv) {
    c.base in {8, 10, 16} && (c.digs == LOWERX || c.digs == UPPERX) && c.sign in {'\0', '-', '+', ' '}
  }

  function Zeros(n: nat): (z: string)
    ensures |z| == n && forall i :: 0 <= i < n ==> z[i] == '0'
  {
    seq(n, _ => '0')
  }

  function Filled(z: nat, d: string): (f: string)
    ensures |f| == z + |d|
  {
    Zeros(z) + d
  }

  /** The digits, with zeros before them up to the precision. */
  function Padded(u: nat, c: Conv): (p: string)
    requires ValidConv(c)
    ensures p != ""
  {
    var d := Numeral(u, c.base, c.digs);
    Filled(if |d| < c.prec then c.prec - |d| else 0, d)
  }

  /** The prefix of the alternative form. */
  function Prefix(u: nat, alt: bool, c: Conv): string
    requires ValidConv(c)
  {
    if alt && c.base == 8 && Padded(u, c)[0] != '0' then "0"
    else if alt && c.base == 16 && u != 0 then ['0', c.digs[16]]
    else ""
  }

  function Formatted(u: nat, alt: bool, c: Conv): string
    requires ValidConv(c)
  {
    (if c.sign == '\0' then "" else [c.sign]) + Prefix(u, alt, c) + Padded(u, c)
  }

  /** Puts a character before those written. */
  method Before(buf: array<char>, pos: nat, c: char) returns (p: nat)
    requires 0 < pos <= MAXPREC && buf.Length == MAXPREC + 1
    modifies buf
    ensures p == pos - 1 && buf[p..MAXPREC] == [c] + old(buf[pos..MAXPREC]) && buf[MAXPREC] == old(buf[MAXPREC])
  {
    ghost var rest := buf[pos..MAXPREC];
    p := pos - 1;
    buf[p] := c;
    assert buf[pos..MAXPREC] == rest;
  }

  /** Writes the digits of a number, the last one first. */
  method WriteDigits(u: nat, c: Conv, buf: array<char>) returns (pos: nat)
    requires ValidConv(c) && buf.Length == MAXPREC + 1 && |Numeral(u, c.base, c.digs)| <= MAXPREC
    modifies buf
    ensures pos <= MAXPREC && buf[pos..MAXPREC] == Numeral(u, c.base, c.digs) && buf[MAXPREC] == old(buf[MAXPREC])
  {
    hide Numeral, Mod, Div;
    ghost var d := Numeral(u, c.base, c.digs);
    NumeralStep(u, c.base, c.digs);
    pos := MAXPREC;
    pos := Before(buf, pos, c.digs[Mod(u, c.base)]);
    var v := Div(u, c.base);
    while v > 0
      invariant pos <= MAXPREC && buf[MAXPREC] == old(buf[MAXPREC])
      invariant d == (if v > 0 then Numeral(v, c.base, c.digs) else "") + buf[pos..MAXPREC]
      decreases v
    {
      NumeralStep(v, c.base, c.digs);
      ghost var rest, more := buf[pos..MAXPREC], if Div(v, c.base) > 0 then Numeral(Div(v, c.base), c.base, c.digs) else "";
      Join(more, [c.digs[Mod(v, c.base)]], rest);
      pos := Before(buf, pos, c.digs[Mod(v, c.base)]);
      v := Div(v, c.base);
    }
  }

  lemma Join(a: string, b: string, c: string)
    ensures a + b + c == a + (b + c) && "" + a == a
  {
  }

  /** Writes zeros up to the precision. */
  method WriteZeros(c: Conv, buf: array<char>, pos0: nat, ghost d: string) returns (pos: nat)
    requires pos0 <= MAXPREC && buf.Length == MAXPREC + 1 && c.prec <= MAXPREC && buf[pos0..MAXPREC] == d
    modifies buf
    ensures pos <= MAXPREC && buf[pos..MAXPREC] == Filled(if |d| < c.prec then c.prec - |d| else 0, d)
    ensures buf[MAXPREC] == old(buf[MAXPREC])
  {
    hide Zeros, Filled;
    pos := pos0;
    ghost var z, total := 0, if |d| < c.prec then c.prec - |d| else 0;
    NoZeros(d);
    while MAXPREC - pos < c.prec
      invariant pos == pos0 - z && 0 <= z <= total && buf[MAXPREC] == old(buf[MAXPREC])
      invariant buf[pos..MAXPREC] == Filled(z, d)
      decreases total - z
    {
      ZeroMore(z, d);
      pos := Before(buf, pos, '0');
      z := z + 1;
    }
  }

  lemma NoZeros(d: string)
    ensures Filled(0, d) == d
  {
  }

  lemma ZeroMore(z: nat, d: string)
    ensures Filled(z + 1, d) == ['0'] + Filled(z, d)
  {
    assert Zeros(z + 1) == ['0'] + Zeros(z);
  }

  lemma PaddedIs(u: nat, c: Conv)
    requires ValidConv(c)
    ensures var d := Numeral(u, c.base, c.digs); Padded(u, c) == Filled(if |d| < c.prec then c.prec - |d| else 0, d)
    ensures |Padded(u, c)| >= c.prec && |Padded(u, c)| >= |Numeral(u, c.base, c.digs)|
  {
  }

  lemma PrefixIs(u: nat, alt: bool, c: Conv)
    requires ValidConv(c)
    ensures |c.digs| == 17
    ensures Prefix(u, alt, c) == if alt && c.base == 8 && Padded(u, c)[0] != '0' then ['0']
                                 else if alt && c.base == 16 && u != 0 then ['0'] + [c.digs[16]] else []
  {
    hide Padded;
  }

  /** Writes the prefix of the alternative form. */
  method WritePrefix(u: nat, alt: bool, c: Conv, buf: array<char>, pos0: nat) returns (pos: nat)
    requires ValidConv(c) && buf.Length == MAXPREC + 1 && pos0 <= MAXPREC && buf[pos0..MAXPREC] == Padded(u, c)
    requires |Prefix(u, alt, c)| <= pos0
    modifies buf
    ensures pos <= MAXPREC && buf[pos..MAXPREC] == Prefix(u, alt, c) + Padded(u, c) && buf[MAXPREC] == old(buf[MAXPREC])
  {
    hide Padded, Prefix;
    PrefixIs(u, alt, c);
    pos := pos0;
    ghost var padded := Padded(u, c);
    assert padded[0] == buf[pos];
    if alt && c.base == 8 && buf[pos] != '0' {
      pos := Before(buf, pos, '0');
    } else if alt && c.base == 16 && u != 0 {
      Join(['0'], [c.digs[16]], padded);
      pos := Before(buf, pos, c.digs[16]);
      pos := Before(buf, pos, '0');
    } else {
      Join(padded, [], []);
    }
  }

  /** Fills the buffer backwards from its end: digits, zeros, prefix, sign. */
  method NumToStr(u: nat, alt: bool, c: Conv, buf: array<char>) returns (pos: nat)
    requires ValidConv(c) && buf.Length == MAXPREC + 1 && |Formatted(u, alt, c)| <= MAXPREC
    modifies buf
    ensures pos <= MAXPREC && buf[pos..MAXPREC] == Formatted(u, alt, c) && buf[MAXPREC] == '\0'
  {
    hide Numeral, Padded, Prefix, Zeros, Filled;
    PaddedIs(u, c);
    buf[MAXPREC] := '\0';
    pos := WriteDigits(u, c, buf);
    pos := WriteZeros(c, buf, pos, Numeral(u, c.base, c.digs));
    pos := WritePrefix(u, alt, c, buf, pos);
    if c.sign != '\0' {
      Join([c.sign], Prefix(u, alt, c), Padded(u, c));
      pos := Before(buf, pos, c.sign);
    } else {
      Join(Prefix(u, alt, c), [], []);
    }
  }

  lemma NumeralStep(u: nat, base: nat, digs: string)
    requires 2 <= base <= |digs|
    ensures Div(u, base) < u || u == Div(u, base) == 0
    ensures Mod(u, base) < |digs|
    ensures Numeral(u, base, digs) == (if Div(u, base) > 0 then Numeral(Div(u, base), base, digs) else "") + [digs[Mod(u, base)]]
  {
    DivBounds(u, base);
    DivMod(u, base);
    assert Times(0, base) == 0;
    if u < base {
      ModUnique(u, base, 0, u);
    }
  }

  // Reading back what was written

  /** Every digit of the tables is read as itself, and is neither a space nor a sign. */
  lemma DigitReads(c: Conv, d: nat)
    requires ValidConv(c) && d < 16
    ensures Dtoi(c.digs[d]) == d && (c.digs[d] == '0' <==> d == 0)
    ensures '0' <= c.digs[d] <= 'f' && ToUpper(c.digs[d]) != 'X'
  {
    var x := c.digs[d];
    if d < 10 {
      assert x as int == '0' as int + d;
    } else if c.digs == LOWERX {
      assert x as int == 'a' as int + d - 10;
    } else {
      assert x as int == 'A' as int + d - 10;
    }
  }

  /** The digits of a number, read after zeros. */
  lemma {:induction false} AmountOf(s: string, i: nat, z: nat, u: nat, c: Conv)
    requires ValidConv(c)
    requires var d := Numeral(u, c.base, c.digs); i + z + |d| <= |s| && s[i..i + z + |d|] == Filled(z, d)
    ensures var d := Numeral(u, c.base, c.digs);
            Digits(s, i, c.base) >= z + |d| && Amount(s, i, z + |d|, c.base) == u
    decreases u
  {
    hide Numeral, Digits, Amount, Dtoi, Zeros, Div, Mod, Times;
    var d, q, r := Numeral(u, c.base, c.digs), Div(u, c.base), Mod(u, c.base);
    var n := z + |d|;
    NumeralStep(u, c.base, c.digs);
    DigitReads(c, r);
    DivMod(u, c.base);
    var e := if q > 0 then Numeral(q, c.base, c.digs) else "";
    LastOf(s, i, z, e, c.digs[r]);
    if q > 0 {
      AmountOf(s, i, z, q, c);
    } else {
      AmountOfZeros(s, i, z, c);
    }
    DigitsMore(s, i, n - 1, c.base);
    AmountMore(s, i, n, c.base);
  }

  lemma LastOf(s: string, i: nat, z: nat, e: string, x: char)
    requires var n := z + |e| + 1; i + n <= |s| && s[i..i + n] == Filled(z, e + [x])
    ensures var n := z + |e| + 1; s[i..i + n - 1] == Filled(z, e) && s[i + n - 1] == x
    ensures e == "" ==> s[i..i + z] == Zeros(z)
  {
    var n := z + |e| + 1;
    assert s[i..i + n - 1] == s[i..i + n][..n - 1];
    assert s[i + n - 1] == s[i..i + n][n - 1];
  }

  lemma AmountMore(s: string, i: nat, n: nat, base: nat)
    requires n > 0 && i + n <= |s|
    ensures Amount(s, i, n, base) == Times(Amount(s, i, n - 1, base), base) + Dtoi(s[i + n - 1])
  {
  }

  lemma {:induction false} AmountOfZeros(s: string, i: nat, z: nat, c: Conv)
    requires ValidConv(c) && i + z <= |s| && s[i..i + z] == Zeros(z)
    ensures Digits(s, i, c.base) >= z && Amount(s, i, z, c.base) == 0
    decreases z
  {
    if z > 0 {
      assert s[i..i + z - 1] == Zeros(z)[..z - 1] == Zeros(z - 1);
      assert s[i + z - 1] == Zeros(z)[z - 1] == '0';
      AmountOfZeros(s, i, z - 1, c);
      DigitsMore(s, i, z - 1, c.base);
      assert Times(0, c.base) == 0 && Dtoi('0') == 0;
    }
  }

  lemma DigitsMore(s: string, i: nat, n: nat, base: nat)
    requires i + n < |s| && n <= Digits(s, i, base) && Dtoi(s[i + n]) < base
    ensures n + 1 <= Digits(s, i, base)
  {
    DigitsFrom(s, i, n, base);
  }

  /** The sign of a conversion, and the number it makes of `u`. */
  function Signed(c: Conv, u: nat): int {
    if c.sign == '-' then 0 - u else u
  }

  function Lead(c: Conv): string {
    if c.sign == '\0' then "" else [c.sign]
  }

  /** Bases for which a written number reads back: its own, or 0 if the form shows it. */
  predicate ReadsIn(u: nat, alt: bool, c: Conv, base: nat) {
    base == c.base || (base == 0 && (if c.base == 10 then |Numeral(u, 10, UPPER)| >= c.prec else alt))
  }

  predicate HexPrefix(u: nat, alt: bool, c: Conv) {
    alt && c.base == 16 && u != 0
  }

  /** What follows the sign: the prefix of hexadecimal, zeros, the digits. */
  lemma BodyForm(u: nat, alt: bool, c: Conv) returns (z: nat)
    requires ValidConv(c)
    ensures var d := Numeral(u, c.base, c.digs);
            && Formatted(u, alt, c) == Lead(c) + ((if HexPrefix(u, alt, c) then ['0', c.digs[16]] else "") + Filled(z, d))
            && (c.base == 10 ==> z == if |d| < c.prec then c.prec - |d| else 0)
            && (alt && c.base == 8 ==> z > 0 || d[0] == '0')
  {
    hide Numeral, Padded, Prefix, Zeros, Filled, Formatted, Lead;
    var d, padded := Numeral(u, c.base, c.digs), Padded(u, c);
    z := if |d| < c.prec then c.prec - |d| else 0;
    PaddedIs(u, c);
    PrefixIs(u, alt, c);
    FormattedIs(u, alt, c);
    ZeroFirst(z, d);
    if HexPrefix(u, alt, c) {
      assert ['0'] + [c.digs[16]] == ['0', c.digs[16]];
    } else if alt && c.base == 8 && padded[0] != '0' {
      ZeroMore(z, d);
      z := z + 1;
      EmptyFirst(Filled(z, d));
    } else {
      EmptyFirst(padded);
    }
  }

  lemma EmptyFirst(s: string)
    ensures "" + s == s && [] + s == s
  {
  }

  lemma FormattedIs(u: nat, alt: bool, c: Conv)
    requires ValidConv(c)
    ensures Formatted(u, alt, c) == Lead(c) + (Prefix(u, alt, c) + Padded(u, c))
  {
    hide Prefix, Padded;
    Join(Lead(c), Prefix(u, alt, c), Padded(u, c));
  }

  lemma ZeroFirst(z: nat, d: string)
    requires d != ""
    ensures Filled(z, d)[0] == if z > 0 then '0' else d[0]
  {
  }

  lemma LeadSkipped(s: string, c: Conv, body: string)
    requires ValidConv(c) && s == Lead(c) + body && body != "" && '0' <= body[0] <= 'f' && body[0] != 'X'
    ensures var i := Spaces(s, 0);
            var j := if At(s, i) == '-' || At(s, i) == '+' then i + 1 else i;
            j == |Lead(c)| && (At(s, i) == '-' <==> c.sign == '-')
  {
    if c.sign == ' ' {
      assert s[0] == ' ' && s[1] == body[0];
      assert Spaces(s, 1) == 1;
    } else {
      assert s[0] == if c.sign == '\0' then body[0] else c.sign;
      assert Spaces(s, 0) == 0;
    }
  }

  /** A numeral's characters are digits; only that of 0 starts with the digit 0. */
  lemma {:induction false} NumeralDigits(u: nat, c: Conv)
    requires ValidConv(c)
    ensures var d := Numeral(u, c.base, c.digs);
            && (forall i :: 0 <= i < |d| ==> '0' <= d[i] <= 'f' && ToUpper(d[i]) != 'X')
            && (d[0] == '0' <==> u == 0) && (u == 0 ==> d == "0")
    decreases u
  {
    hide ToUpper;
    var q, r := Div(u, c.base), Mod(u, c.base);
    NumeralStep(u, c.base, c.digs);
    DigitReads(c, r);
    DivMod(u, c.base);
    assert Times(0, c.base) == 0;
    hide Numeral, Div, Mod, Times;
    if q > 0 {
      NumeralDigits(q, c);
    }
  }

  /** Where the digits start when a written number is read, and in which base. */
  lemma HeaderReads(u: nat, alt: bool, c: Conv, base: nat, s: string, z: nat)
    requires ValidConv(c) && ReadsIn(u, alt, c, base)
    requires var d := Numeral(u, c.base, c.digs);
             && s == Lead(c) + ((if HexPrefix(u, alt, c) then ['0', c.digs[16]] else "") + Filled(z, d))
             && (c.base == 10 ==> z == if |d| < c.prec then c.prec - |d| else 0)
             && (alt && c.base == 8 ==> z > 0 || d[0] == '0')
    ensures var h, d := HeaderOf(s, base), Numeral(u, c.base, c.digs);
            && (h.neg <==> c.sign == '-') && h.start + z + |d| == |s| && s[h.start..h.start + z + |d|] == Filled(z, d)
            && (u > 0 ==> h.base == c.base)
  {
    hide Numeral, Zeros, Filled, HeaderOf, Lead;
    var d := Numeral(u, c.base, c.digs);
    NumeralDigits(u, c);
    SameDecimal(u, c);
    ZeroFirst(z, d);
    SecondDigit(z, d);
    NoZeros(d);
    var hex := HexPrefix(u, alt, c);
    var body := (if hex then ['0', c.digs[16]] else "") + Filled(z, d);
    BodyStart(hex, c, Filled(z, d));
    HeaderFrom(s, c, body, base);
    SuffixOf(Lead(c), body);
  }

  lemma BodyStart(hex: bool, c: Conv, f: string)
    requires ValidConv(c) && f != ""
    ensures var body := (if hex then ['0', c.digs[16]] else "") + f;
            if hex then body[0] == '0' && ToUpper(At(body, 1)) == 'X' && body[2..] == f else body == f
  {
  }

  lemma SuffixOf(lead: string, body: string)
    ensures (lead + body)[|lead|..] == body
    ensures |body| >= 2 ==> (lead + body)[|lead| + 2..] == body[2..]
  {
  }

  /** The header of a text whose sign and first characters are known. */
  lemma HeaderFrom(s: string, c: Conv, body: string, base: nat)
    requires ValidConv(c) && ValidBase(base) && s == Lead(c) + body && body != "" && '0' <= body[0] <= 'f' && body[0] != 'X'
    ensures var x := body[0] == '0' && ToUpper(At(body, 1)) == 'X';
            var b := if base == 0 then (if x then 16 else if body[0] == '0' then 8 else 10) else base;
            HeaderOf(s, base) == Header(c.sign == '-', b, if b == 16 && x then |Lead(c)| + 2 else |Lead(c)|)
  {
    LeadSkipped(s, c, body);
    var j := |Lead(c)|;
    assert At(s, j) == body[0] && At(s, j + 1) == At(body, 1);
    hide Spaces, Lead;
  }

  lemma SameDecimal(u: nat, c: Conv)
    requires ValidConv(c)
    ensures |Numeral(u, 10, c.digs)| == |Numeral(u, 10, UPPER)|
  {
  }

  /** No written number without the prefix has an X after its first character. */
  lemma SecondDigit(z: nat, d: string)
    requires d != "" && forall i :: 0 <= i < |d| ==> ToUpper(d[i]) != 'X'
    ensures ToUpper(At(Filled(z, d), 1)) != 'X'
  {
    var s := Filled(z, d);
    if z > 1 {
      assert s[1] == '0';
    } else if |s| > 1 {
      assert s[1] == d[1 - z];
    }
  }

  /** Parsing undoes printing: the number written is the number read, up to the last
      character. */
  lemma ReadsBack(u: nat, alt: bool, c: Conv, base: nat)
    requires ValidConv(c) && ReadsIn(u, alt, c, base)
    ensures var s := Formatted(u, alt, c);
            && Read(s, HeaderOf(s, base)) == u && EndOf(s, HeaderOf(s, base)) == |s|
            && (HeaderOf(s, base).neg <==> c.sign == '-')
  {
    hide Formatted, Numeral, Zeros, Filled, HeaderOf, Amount, Digits;
    var s := Formatted(u, alt, c);
    var z := BodyForm(u, alt, c);
    HeaderReads(u, alt, c, base, s, z);
    var h, d := HeaderOf(s, base), Numeral(u, c.base, c.digs);
    if u > 0 {
      AmountOf(s, h.start, z, u, c);
    } else {
      NumeralDigits(u, c);
      ZerosReadIn(s, h.start, z + 1, h.base, z);
    }
    EndReached(s, h.start, z + |d|, h.base);
  }

  lemma ZerosReadIn(s: string, i: nat, n: nat, base: nat, z: nat)
    requires 2 <= base <= 36 && i + n <= |s| && n == z + 1 && s[i..i + n] == Filled(z, "0")
    ensures Digits(s, i, base) >= n && Amount(s, i, n, base) == 0
  {
    assert forall k :: i <= k < i + n ==> s[k] == Filled(z, "0")[k - i] == '0';
    AllZeros(s, i, n, base);
  }

  lemma {:induction false} AllZeros(s: string, i: nat, n: nat, base: nat)
    requires 2 <= base <= 36 && i + n <= |s| && forall k :: i <= k < i + n ==> s[k] == '0'
    ensures Digits(s, i, base) >= n && Amount(s, i, n, base) == 0
    decreases n
  {
    if n > 0 {
      AllZeros(s, i, n - 1, base);
      DigitsMore(s, i, n - 1, base);
      assert Times(0, base) == 0 && Dtoi('0') == 0;
    }
  }

  lemma EndReached(s: string, i: nat, n: nat, base: nat)
    requires i + n == |s| && n <= Digits(s, i, base)
    ensures Digits(s, i, base) == n
  {
  }

  /** Unsigned numbers: written in base 8, 10 or 16, in either case, with any precision. */
  lemma {:induction false} UnsignedRoundTrip(u: nat, alt: bool, c: Conv, base: nat)
    requires ValidConv(c) && ReadsIn(u, alt, c, base) && u <= ULONG_MAX && c.sign != '-'
    ensures StrToUL(Formatted(u, alt, c), base) == Number(u, |Formatted(u, alt, c)|)
  {
    hide Formatted, HeaderOf, Read, EndOf;
    ReadsBack(u, alt, c, base);
  }

  /** Signed numbers, the least one included. */
  lemma {:induction false} SignedRoundTrip(u: nat, alt: bool, c: Conv, base: nat)
    requires ValidConv(c) && ReadsIn(u, alt, c, base) && LONG_MIN <= Signed(c, u) <= LONG_MAX
    ensures StrToL(Formatted(u, alt, c), base) == Number(Signed(c, u), |Formatted(u, alt, c)|)
  {
    hide Formatted, HeaderOf, Read, EndOf;
    ReadsBack(u, alt, c, base);
  }
}
