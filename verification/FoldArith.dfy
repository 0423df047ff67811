/** Compile-time arithmetic of the constant folder: what it accepts and what it computes
    for signed operands. */
module FoldArith {
  import opened Bits
  import opened Cc1Tree

  const WORD: nat := 0x1_0000_0000_0000_0000     // 2^64, the range of TUINT
  const TINT_MIN: int := -0x8000_0000_0000_0000

  /** A 64-bit pattern read as a TINT, and the pattern of a TINT (wrapping around). */
  function AsSigned(u: nat): int {
    if u < 0x8000_0000_0000_0000 then u else u - WORD
  }

  function Pattern(i: int): nat {
    i % WORD
  }

  function Wrap(i: int): int {
    AsSigned(Pattern(i))
  }

  /** C's division and remainder truncate towards zero. */
  function Quot(a: int, b: int): int
    requires b != 0
  {
    if a >= 0 then (if b > 0 then a / b else -(a / -b))
    else (if b > 0 then -(-a / b) else -a / -b)
  }

  function Rem(a: int, b: int): int
    requires b != 0
  {
    a - b * Quot(a, b)
  }

  /** The smallest and largest value of an integer type, as the TINTs the code reads. */
  function Limits(tp: Type): (int, int) {
    if tp.signed then
      if tp.size == 1 then (-0x80, 0x7f) else if tp.size == 2 then (-0x8000, 0x7fff)
      else if tp.size == 4 then (-0x8000_0000, 0x7fff_ffff) else (TINT_MIN, 0x7fff_ffff_ffff_ffff)
    else
      if tp.size == 1 then (0, 0xff) else if tp.size == 2 then (0, 0xffff)
      else if tp.size == 4 then (0, 0xffff_ffff) else (0, -1)
  }

  predicate AddI(l: int, r: int, tp: Type) {
    var (min, max) := Limits(tp);
    || (l < 0 && r < 0 && l >= min - r)
    || l == 0
    || r == 0
    || (l < 0 && r > 0)
    || (l > 0 && r < 0)
    || (l > 0 && r > 0 && l <= max - r)
  }

  predicate SubI(l: int, r: int, tp: Type) {
    AddI(l, Wrap(-r), tp)
  }

  predicate MulI(l: int, r: int, tp: Type) {
    var (min, max) := Limits(tp);
    || (l > -1 && l <= 1)
    || (r > -1 && r <= 1)
    || (l < 0 && r < 0 && Wrap(-r) != 0 && Wrap(-l) <= Quot(max, Wrap(-r)))
    || (l < 0 && r > 0 && l >= Quot(min, r))
    || (l > 0 && r < 0 && r >= Quot(min, l))
    || (l > 0 && r > 0 && l <= Quot(max, r))
  }

  predicate DivI(l: int, r: int, tp: Type) {
    !(r == 0 || (Pattern(l) == Pattern(-Limits(tp).0) && r == -1))
  }

  /** `1 << r` in the host's 32-bit int, whose shift counts are taken modulo 32. */
  function OneShifted(r: nat): int {
    var p := Pow2(r % 32);
    if p < 0x8000_0000 then p else p - 0x1_0000_0000
  }

  predicate LshI(l: int, r: int, tp: Type) {
    0 <= r < tp.size * 8 && MulI(l, OneShifted(r), tp)
  }

  predicate RshI(r: int, tp: Type) {
    0 <= r < tp.size * 8
  }

  predicate Fits(x: int, tp: Type) {
    Limits(tp).0 <= x <= Limits(tp).1
  }

  predicate SignedInt(tp: Type) {
    tp.signed && tp.size in {1, 2, 4, 8}
  }

  /** An addition is folded exactly when its sum fits the type. */
  lemma {:induction false} AddIExact(l: int, r: int, tp: Type)
    requires SignedInt(tp) && Fits(l, tp) && Fits(r, tp)
    ensures AddI(l, r, tp) <==> Fits(l + r, tp)
  {
  }

  /** For subtraction that fails only where r is the type's minimum: the code adds -r. */
  lemma {:induction false} SubIExact(l: int, r: int, tp: Type)
    requires SignedInt(tp) && Fits(l, tp) && Fits(r, tp)
    ensures (SubI(l, r, tp) <==> Fits(l - r, tp)) <==> !(r == Limits(tp).0 && (tp.size == 8 || l == 0))
  {
    if r != Limits(tp).0 {
      assert Wrap(-r) == -r && Fits(-r, tp);
      AddIExact(l, -r, tp);
    } else if tp.size < 8 {
      assert Wrap(-r) == -r == Limits(tp).1 + 1;
    } else {
      assert Wrap(-r) == r == TINT_MIN;
    }
  }

  /** A division is folded exactly when its quotient fits, but for one operand of the
      narrow types: there the guard compares with the wrong sign. */
  lemma {:induction false} DivIExact(l: int, r: int, tp: Type)
    requires SignedInt(tp) && Fits(l, tp) && Fits(r, tp)
    ensures (DivI(l, r, tp) <==> r != 0 && Fits(Quot(l, r), tp))
            <==> !(tp.size < 8 && l == Limits(tp).0 && r == -1)
  {
    hide Quot;
    if r != 0 {
      QuotBounds(l, r);
    }
  }

  lemma QuotBounds(a: int, b: int)
    requires b != 0
    ensures b != -1 ==> 0 - Abs(a) <= Quot(a, b) <= Abs(a) && (a < 0 && b < -1 ==> Quot(a, b) < -a)
    ensures b == -1 ==> Quot(a, b) == -a
    ensures a < 0 && b > 0 ==> Quot(a, b) <= 0
  {
    DivBounds(Abs(a), Abs(b));
  }

  function Abs(a: int): nat {
    if a < 0 then -a else a
  }

  /** A multiplication is folded exactly when its product fits, but for the minimum of an
      8-byte type times a negative operand: the code cannot negate the minimum. */
  lemma {:induction false} MulIExact(l: int, r: int, tp: Type)
    requires SignedInt(tp) && Fits(l, tp) && Fits(r, tp)
    ensures (MulI(l, r, tp) <==> Fits(l * r, tp)) <==> !(tp.size == 8 && l == TINT_MIN && r < 0)
  {
    if l != TINT_MIN && r != TINT_MIN {
      assert Wrap(-r) == -r && Wrap(-l) == -l by {
        NegationKept(l, tp);
        NegationKept(r, tp);
      }
      hide Wrap, Quot;
      MulGuardExact(l, r, Limits(tp).0, Limits(tp).1);
    } else {
      MulIMinimum(l, r, tp);
    }
  }

  lemma MulIMinimum(l: int, r: int, tp: Type)
    requires SignedInt(tp) && tp.size == 8 && Fits(l, tp) && Fits(r, tp) && (l == TINT_MIN || r == TINT_MIN)
    ensures (MulI(l, r, tp) <==> Fits(l * r, tp)) <==> !(l == TINT_MIN && r < 0)
  {
    if l == TINT_MIN && r < 0 {
      assert l * r == -TINT_MIN * -r;
    }
  }

  lemma NegationKept(x: int, tp: Type)
    requires SignedInt(tp) && Fits(x, tp) && x != TINT_MIN
    ensures Wrap(-x) == -x
  {
  }

  lemma MulGuardExact(l: int, r: int, min: int, max: int)
    requires min <= 0 <= max && min <= l <= max && min <= r <= max
    ensures (|| -1 < l <= 1
             || -1 < r <= 1
             || (l < 0 && r < 0 && -l <= Quot(max, -r))
             || (l < 0 && r > 0 && l >= Quot(min, r))
             || (l > 0 && r < 0 && r >= Quot(min, l))
             || (l > 0 && r > 0 && l <= Quot(max, r))) <==> min <= l * r <= max
  {
    hide Quot;
    if l > 0 && r > 0 {
      QuotSigns(max, l, r);
    } else if l < 0 && r < 0 {
      QuotSigns(max, -l, -r);
      assert -l * -r == l * r;
    } else if l < 0 && r > 0 {
      QuotSigns(-min, -l, r);
      QuotNegated(-min, r);
      assert -l * r == -(l * r);
    } else if l > 0 && r < 0 {
      QuotSigns(-min, -r, l);
      QuotNegated(-min, l);
      assert -r * l == -(l * r);
    }
  }

  lemma QuotSigns(c: nat, a: int, b: int)
    requires a > 0 && b > 0
    ensures (a <= Quot(c, b) <==> a * b <= c) && a * b > 0
  {
    DivGalois(a, b, c);
  }

  lemma QuotNegated(c: int, b: int)
    requires c >= 0 && b > 0
    ensures Quot(-c, b) == -Quot(c, b)
  {
  }

  lemma DivGalois(a: int, b: int, c: int)
    requires a > 0 && b > 0 && c >= 0
    ensures a <= c / b <==> a * b <= c
    ensures a * b > 0
  {
    var q := c / b;
    assert c == b * q + c % b;
    if a <= q {
      assert b * (q - a) >= 0;
      assert b * (q - a) == b * q - b * a;
    } else {
      AtLeast(b, a - q);
      assert b * (a - q) == b * a - b * q;
    }
    assert a * b == b * a;
    AtLeast(b, a);
  }
}
