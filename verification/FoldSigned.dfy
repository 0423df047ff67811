/** What the folder computes on signed constants, against the operators' mathematical results. */
module FoldSigned {
  import opened Bits
  import opened Cc1Tree
  import opened FoldArith
  import opened Fold
  import opened FoldConstants
  import opened FoldMeaning
  import opened FoldTheorem
  import opened FoldExact
  import opened Wrappers

  /** The numbers of a signed type. */
  predicate InRange(x: int, tp: Type)
    requires tp.size > 0
  {
    0 - Pow2(8 * tp.size - 1) <= x < Pow2(8 * tp.size - 1)
  }

  predicate Least(x: int, tp: Type)
    requires tp.size > 0
  {
    x == 0 - Pow2(8 * tp.size - 1)
  }

  /** A number in the 64 bits of a constant. */
  function Coded(x: int): nat {
    x % 0x1_0000_0000_0000_0000
  }

  /** `np` is the constant `x` of a signed type. */
  predicate SignedLeaf(np: Node, x: int) {
    && np.Node? && np.op == OSYM && np.nconst && np.left.Nil? && np.right.Nil?
    && np.sym.Lit? && np.sym.ty == np.tp && np.sym.u == Coded(x)
    && np.tp.kind == INT && np.tp.signed && np.tp.size in {1, 2, 4, 8} && InRange(x, np.tp)
  }

  predicate OneOperand(op: Op) {
    op in {OSNEG, OCPL, ONEG}
  }

  predicate Arithmetic(op: Op) {
    op in {OADD, OSUB, OMUL, ODIV, OMOD}
  }

  predicate Shifts(op: Op) {
    op in {OSHL, OSHR}
  }

  predicate TwoOperands(op: Op) {
    Arithmetic(op) || Shifts(op) || Compares(op) || op in {OBAND, OBOR, OBXOR, OAND, OOR}
  }

  /** An operator over the signed constants `l` and `r`, or over `l` alone.  The
      operands of a shift may differ in type, and a comparison has a type of its own. */
  predicate SignedPair(np: Node, l: int, r: int) {
    && np.Node? && SignedLeaf(np.left, l)
    && (if OneOperand(np.op) then np.right.Nil? && r == 0 else TwoOperands(np.op) && SignedLeaf(np.right, r))
    && (Arithmetic(np.op) ==> np.right.tp == np.left.tp)
    && (Arithmetic(np.op) || Shifts(np.op) || np.op == OSNEG ==> np.tp == np.left.tp)
  }

  /** `v` is the result of the operator on `l` and `r`. */
  ghost predicate ResultOf(op: Op, l: int, r: int, v: int) {
    match op
    case OADD => v == l + r
    case OSUB => v == l - r
    case OMUL => v == l * r
    case ODIV => Truncated(l, r, v, l - v * r)
    case OMOD => exists q :: Truncated(l, r, q, v)
    case OSHL => r >= 0 && v == l * Pow2(r)
    case OSHR => r >= 0 && v * Pow2(r) <= l < (v + 1) * Pow2(r)
    case OBAND => Narrow(v) && forall k: nat :: k < 64 ==> (BitOf(v, k) == 1 <==> BitOf(l, k) == 1 && BitOf(r, k) == 1)
    case OBOR => Narrow(v) && forall k: nat :: k < 64 ==> (BitOf(v, k) == 1 <==> BitOf(l, k) == 1 || BitOf(r, k) == 1)
    case OBXOR => Narrow(v) && forall k: nat :: k < 64 ==> (BitOf(v, k) == 1 <==> BitOf(l, k) != BitOf(r, k))
    case OSNEG => v == -l
    case OCPL => v == -l - 1
    case ONEG => v == if l == 0 then 1 else 0
    case OAND => v == if l != 0 && r != 0 then 1 else 0
    case OOR => v == if l != 0 || r != 0 then 1 else 0
    case OLT => v == if l < r then 1 else 0
    case OGT => v == if l > r then 1 else 0
    case OLE => v == if l <= r then 1 else 0
    case OGE => v == if l >= r then 1 else 0
    case OEQ => v == if l == r then 1 else 0
    case ONE => v == if l == r then 0 else 1
    case _ => false
  }

  /** `q` is l / r rounded towards zero and `m` what it leaves, with the sign of `l`. */
  predicate Truncated(l: int, r: int, q: int, m: int) {
    l == q * r + m && Abs(m) < Abs(r) && (m > 0 ==> l > 0) && (m < 0 ==> l < 0)
  }

  predicate Narrow(v: int) {
    -0x8000_0000_0000_0000 <= v < 0x8000_0000_0000_0000
  }

  /** Is there a result? */
  predicate Defined(op: Op, r: int) {
    (op in {ODIV, OMOD} ==> r != 0) && (Shifts(op) ==> r >= 0)
  }

  /** Is the result `v` one that the type has? */
  predicate Admissible(op: Op, r: int, v: int, tp: Type)
    requires tp.size > 0
  {
    (Shifts(op) ==> r < 8 * tp.size) && (Arithmetic(op) || op in {OSHL, OSNEG} ==> InRange(v, tp))
  }

  /** The operands that the guards misjudge. */
  predicate Misjudged(op: Op, l: int, r: int, tp: Type)
    requires tp.size in {1, 2, 4, 8}
  {
    match op
    case OSUB => Least(r, tp) && (tp.size == 8 || l == 0)
    case OMUL => tp.size == 8 && Least(l, tp) && r < 0
    case ODIV => tp.size < 8 && Least(l, tp) && r == -1
    case OMOD => tp.size == 8 && Least(l, tp) && r == -1
    case OSHL => ShiftMisjudged(l, r, tp)
    case OSNEG => Least(l, tp)
    case _ => false
  }

  /** The guard of a left shift computes 1 << r in 32 bits: the bit of the sign is taken
      for a negative factor, and counts above it for smaller ones. */
  predicate ShiftMisjudged(l: int, r: int, tp: Type)
    requires tp.size in {1, 2, 4, 8}
  {
    if r < 31 then l == 1 && r == 8 * tp.size - 1
    else if tp.size < 4 || r >= 8 * tp.size then false
    else if tp.size == 4 then l == 1 || l == -1
    else if r == 31 then l == 0x1_0000_0000 || l == -0x1_0000_0000 || Least(l, tp)
    else if r < 63 then (0 - Pow2(95 - r) <= l < Pow2(95 - r)) && !(0 - Pow2(63 - r) <= l < Pow2(63 - r))
    else (-0x1_0000_0000 < l <= 0x1_0000_0000 || Least(l, tp)) && l != 0 && l != -1
  }

  // The results

  lemma LimitsAre(tp: Type, x: int)
    requires tp.size in {1, 2, 4, 8} && tp.signed
    ensures Fits(x, tp) <==> InRange(x, tp)
    ensures x == Limits(tp).0 <==> Least(x, tp)
    ensures InRange(x, tp) ==> Narrow(x)
  {
    SmallPowers();
  }

  lemma SmallPowers()
    ensures Pow2(0) == 1 && Pow2(7) == 0x80 && Pow2(15) == 0x8000 && Pow2(31) == 0x8000_0000 && Pow2(63) == -TINT_MIN
  {
    Pow2Values();
    HalfWord();
    assert Pow2(8) == 2 * Pow2(7) && Pow2(16) == 2 * Pow2(15) && Pow2(32) == 2 * Pow2(31);
  }

  /** A number is read back from its 64 bits. */
  lemma Decoded(x: int)
    requires Narrow(x)
    ensures AsSigned(Coded(x)) == x && Coded(x) == Pattern(x) < WORD
  {
  }

  lemma QuotTruncated(l: int, r: int)
    requires r != 0
    ensures Truncated(l, r, Quot(l, r), Rem(l, r)) && l - Quot(l, r) * r == Rem(l, r)
  {
    hide Quot, Div, Mod, Times;
    var a, b := Abs(l), Abs(r);
    DivMod(a, b);
    QuotIs(l, r);
    SignedProduct(Div(a, b), r);
    assert r * Quot(l, r) == Quot(l, r) * r;
  }

  lemma SignedProduct(q: nat, r: int)
    ensures Times(q, Abs(r)) == if r > 0 then q * r else -(q * r)
    ensures (0 - q) * r == -(q * r)
  {
  }

  lemma QuotIs(l: int, r: int)
    requires r != 0
    ensures Quot(l, r) == if (l >= 0) == (r > 0) then Div(Abs(l), Abs(r)) else 0 - Div(Abs(l), Abs(r))
  {
  }

  lemma FloorBounds(l: int, p: nat)
    requires p > 0
    ensures Floor(l, p) * p <= l < (Floor(l, p) + 1) * p
  {
    var q := l / p;
    assert l == p * q + l % p;
    assert (q + 1) * p == q * p + p && q * p == p * q;
  }

  /** Adding a multiple of 2^64 changes no bit of a word. */
  lemma BitOfWord(x: int, q: int, k: nat)
    requires k < 64
    ensures BitOf(x + WORD * q, k) == BitOf(x, k)
  {
    var p, h := Pow2(k), Pow2(63 - k);
    WordParts(k);
    hide Pow2;
    var d, m := x / p, x % p;
    assert x + WORD * q == p * (d + 2 * (h * q)) + m by {
      assert x == p * d + m;
      assert (p * (2 * h)) * q == p * (2 * (h * q));
      assert p * (d + 2 * (h * q)) == p * d + p * (2 * (h * q));
    }
    ModUnique(x + WORD * q, p, d + 2 * (h * q), m);
    ModPlus(d, 2, h * q);
  }

  lemma WordParts(k: nat)
    requires k < 64
    ensures WORD == Pow2(k) * (2 * Pow2(63 - k))
  {
    Pow2Values();
    Pow2Add(k, 64 - k);
    assert Pow2(64 - k) == 2 * Pow2(63 - k);
  }

  lemma CodedBits(x: int, k: nat)
    requires k < 64
    ensures BitOf(Pattern(x), k) == BitOf(x, k) && (x >= 0 ==> BitOf(AsSigned(x), k) == BitOf(x, k))
  {
    BitOfWord(x, -(x / WORD), k);
    BitOfWord(x, -1, k);
  }

  function Bitwise(op: Op, a: nat, b: nat): nat {
    if op == OBAND then BitAnd(a, b) else if op == OBOR then BitOr(a, b) else BitXor(a, b)
  }

  lemma BitwiseSized(op: Op, a: nat, b: nat)
    requires a < WORD && b < WORD
    ensures Bitwise(op, a, b) < WORD
  {
    hide BitAnd, BitOr, BitXor, Pow2;
    Pow2Values();
    BitsBounded(a, b, 64);
  }

  lemma BitwiseForm(op: Op, l: int, r: int, v: int)
    requires op in {OBAND, OBOR, OBXOR}
    ensures SignedOp(op, l, r) == Some(Bitwise(op, Pattern(l), Pattern(r)))
    ensures Narrow(v) && (forall k: nat :: k < 64 ==> BitwiseBit(op, l, r, v, k)) ==> ResultOf(op, l, r, v)
  {
    hide BitAnd, BitOr, BitXor, BitOf, Pattern;
    if forall k: nat :: k < 64 ==> BitwiseBit(op, l, r, v, k) {
      forall k: nat | k < 64
        ensures op == OBAND ==> (BitOf(v, k) == 1 <==> BitOf(l, k) == 1 && BitOf(r, k) == 1)
        ensures op == OBOR ==> (BitOf(v, k) == 1 <==> BitOf(l, k) == 1 || BitOf(r, k) == 1)
        ensures op == OBXOR ==> (BitOf(v, k) == 1 <==> BitOf(l, k) != BitOf(r, k))
      {
        assert BitwiseBit(op, l, r, v, k);
      }
    }
  }

  predicate BitwiseBit(op: Op, l: int, r: int, v: int, k: nat) {
    BitOf(v, k) == 1 <==>
      if op == OBAND then BitOf(l, k) == 1 && BitOf(r, k) == 1
      else if op == OBOR then BitOf(l, k) == 1 || BitOf(r, k) == 1
      else BitOf(l, k) != BitOf(r, k)
  }

  lemma BitwiseAt(op: Op, l: int, r: int, k: nat)
    requires k < 64
    ensures BitwiseBit(op, l, r, AsSigned(Bitwise(op, Pattern(l), Pattern(r))), k)
  {
    hide BitAnd, BitOr, BitXor, BitOf, Pattern, AsSigned;
    CodedBits(Bitwise(op, Pattern(l), Pattern(r)), k);
    CodedBits(l, k);
    CodedBits(r, k);
    WordBits(Pattern(l), Pattern(r), k);
  }

  /** A bitwise operator on the words of two numbers, read as a number. */
  lemma BitwiseResult(op: Op, l: int, r: int) returns (v: int)
    requires op in {OBAND, OBOR, OBXOR}
    ensures ResultOf(op, l, r, v) && SignedOp(op, l, r).Some? && Pattern(SignedOp(op, l, r).value) == Coded(v)
  {
    hide Bitwise, ResultOf, SignedOp, BitwiseBit;
    var w := Bitwise(op, Pattern(l), Pattern(r));
    v := AsSigned(w);
    BitwiseSized(op, Pattern(l), Pattern(r));
    forall k: nat | k < 64 ensures BitwiseBit(op, l, r, v, k) {
      BitwiseAt(op, l, r, k);
    }
    BitwiseForm(op, l, r, v);
  }

  lemma ShiftResult(op: Op, l: int, r: int) returns (v: int)
    requires Shifts(op) && r >= 0
    ensures ResultOf(op, l, r, v)
    ensures r < 64 ==> SignedOp(op, l, r).Some? && SignedOp(op, l, r).value == v
  {
    v := if op == OSHL then Times(l, Pow2(r)) else Floor(l, Pow2(r));
    FloorBounds(l, Pow2(r));
  }

  lemma SimpleResult(op: Op, l: int, r: int) returns (v: int)
    requires OneOperand(op) || TwoOperands(op)
    requires op !in {OBAND, OBOR, OBXOR} && !Shifts(op) && Defined(op, r)
    ensures ResultOf(op, l, r, v) && SignedOp(op, l, r).Some? && SignedOp(op, l, r).value == v
  {
    hide Quot, Rem, BitAnd, BitOr, BitXor, Pow2, Pattern, Floor, BitOf, Truncated;
    v := SignedOp(op, l, r).value;
    if op in {ODIV, OMOD} {
      QuotTruncated(l, r);
    }
  }

  // The guards

  /** What the guard of a left shift accepts. */
  lemma {:induction false} LshIExact(l: int, r: int, tp: Type)
    requires SignedInt(tp) && InRange(l, tp)
    ensures LshI(l, r, tp) <==>
              && 0 <= r < 8 * tp.size
              && (if r < 31 then InRange(l * Pow2(r), tp) || (l == 1 && r == 8 * tp.size - 1)
                  else if r == 31 || r == 63 then InRange(-l * 0x8000_0000, tp) || (tp.size == 8 && Least(l, tp))
                  else InRange(l * Pow2(r - 32), tp))
  {
    if 0 <= r < 8 * tp.size {
      hide Pow2, MulI, Limits, InRange, Least, OneShifted;
      if r == 31 || r == 63 {
        SignShift(l, r, tp);
      } else if r == 8 * tp.size - 1 {
        TopShift(l, r, tp);
      } else {
        PlainShift(l, r, tp);
      }
    }
  }

  lemma SignShift(l: int, r: int, tp: Type)
    requires SignedInt(tp) && InRange(l, tp) && r in {31, 63} && r < 8 * tp.size
    ensures MulI(l, OneShifted(r), tp) <==> InRange(-l * 0x8000_0000, tp) || (tp.size == 8 && Least(l, tp))
  {
    hide MulI, Quot, Limits, InRange, Least, Pow2;
    SmallPowers();
    assert OneShifted(r) == -0x8000_0000;
    LimitsAre(tp, l);
    LimitsAre(tp, -0x8000_0000);
    LimitsAre(tp, l * -0x8000_0000);
    WideHasSign(tp);
    MulIExact(l, -0x8000_0000, tp);
    assert l * -0x8000_0000 == -l * 0x8000_0000;
  }

  lemma WideHasSign(tp: Type)
    requires SignedInt(tp) && tp.size >= 4
    ensures Fits(-0x8000_0000, tp) && (tp.size == 8 ==> Limits(tp).0 == TINT_MIN)
  {
  }

  lemma TopShift(l: int, r: int, tp: Type)
    requires SignedInt(tp) && InRange(l, tp) && r in {7, 15} && r == 8 * tp.size - 1
    ensures MulI(l, OneShifted(r), tp) <==> InRange(l * Pow2(r), tp) || l == 1
  {
    SmallPowers();
    hide Pow2;
    if r == 7 {
      assert Quot(-0x80, 0x80) == -1 && Quot(0x7f, 0x80) == 0;
    } else {
      assert Quot(-0x8000, 0x8000) == -1 && Quot(0x7fff, 0x8000) == 0;
    }
  }

  lemma PlainShift(l: int, r: int, tp: Type)
    requires SignedInt(tp) && InRange(l, tp) && 0 <= r < 8 * tp.size - 1 && r != 31
    ensures MulI(l, OneShifted(r), tp) <==> InRange(l * Pow2(if r < 31 then r else r - 32), tp)
  {
    hide MulI, Limits, InRange, Pow2, Quot;
    var k := if r < 31 then r else r - 32;
    assert r % 32 == k;
    var p := Pow2(k);
    SmallPowers();
    PowerBelow(k, 31);
    PowerBelow(k, 8 * tp.size - 1);
    RangeHas(p, tp);
    LimitsAre(tp, l);
    LimitsAre(tp, p);
    LimitsAre(tp, l * p);
    MulIExact(l, p, tp);
  }

  lemma RangeHas(p: nat, tp: Type)
    requires tp.size > 0 && 2 * p <= Pow2(8 * tp.size - 1)
    ensures InRange(p, tp)
  {
  }

  lemma {:induction false} PowerBelow(k: nat, n: nat)
    requires k < n
    ensures 2 * Pow2(k) <= Pow2(n)
    decreases n
  {
    if k + 1 < n {
      PowerBelow(k, n - 1);
    }
  }

  lemma ScaledRange(l: int, k: nat, tp: Type)
    requires tp.size == 8 && k < 64
    ensures InRange(l * Pow2(k), tp) <==> 0 - Pow2(63 - k) <= l < Pow2(63 - k)
  {
    Pow2Add(k, 63 - k);
    ScaledBounds(l, Pow2(k), Pow2(63 - k));
  }

  lemma ScaledBounds(l: int, p: nat, h: nat)
    requires p > 0
    ensures 0 - p * h <= l * p < p * h <==> 0 - h <= l < h
  {
    if l >= h {
      assert p * (l - h) >= 0;
    } else {
      AtLeast(p, h - l);
      if l >= 0 - h {
        assert p * (l + h) >= 0;
      } else {
        AtLeast(p, 0 - h - l);
      }
    }
    assert p * (l - h) == l * p - p * h && p * (l + h) == l * p + p * h;
    assert p * (h - l) == p * h - l * p && p * (0 - h - l) == 0 - p * h - l * p;
  }

  /** The guard of a left shift is wrong exactly for these operands. */
  lemma {:induction false} ShiftExact(l: int, r: int, tp: Type)
    requires SignedInt(tp) && InRange(l, tp)
    ensures (LshI(l, r, tp) <==> 0 <= r < 8 * tp.size && InRange(l * Pow2(r), tp)) <==> !ShiftMisjudged(l, r, tp)
  {
    hide LshI, Pow2;
    LshIExact(l, r, tp);
    SmallPowers();
    if 0 <= r < 8 * tp.size {
      if r >= 31 && tp.size == 8 {
        ScaledRange(l, r, tp);
        if r != 31 && r != 63 {
          ScaledRange(l, r - 32, tp);
          PowerBelow(63 - r, 95 - r);
        }
      }
    }
  }

  /** What the folder computes is the operator's result. */
  lemma Computed(op: Op, l: int, r: int) returns (v: int)
    requires (OneOperand(op) || TwoOperands(op)) && Defined(op, r)
    ensures ResultOf(op, l, r, v)
    ensures (Shifts(op) ==> r < 64) ==> SignedOp(op, l, r).Some? && Pattern(SignedOp(op, l, r).value) == Coded(v)
    ensures op == ODIV ==> v == Quot(l, r)
  {
    hide ResultOf;
    if op in {OBAND, OBOR, OBXOR} {
      v := BitwiseResult(op, l, r);
    } else if Shifts(op) {
      v := ShiftResult(op, l, r);
    } else {
      v := SimpleResult(op, l, r);
    }
  }

  /** The guards fold exactly the results that the type has, but for the operands above. */
  lemma GuardExact(op: Op, l: int, r: int, v: int, tp: Type)
    requires (OneOperand(op) || TwoOperands(op)) && SignedInt(tp) && InRange(l, tp) && (Arithmetic(op) ==> InRange(r, tp))
    requires Defined(op, r) ==> ResultOf(op, l, r, v) && (op == ODIV ==> v == Quot(l, r))
    ensures (Valid(op, tp, l, r) <==> Defined(op, r) && Admissible(op, r, v, tp)) <==> !Misjudged(op, l, r, tp)
  {
    hide Valid, ResultOf, Misjudged, Admissible, InRange;
    if op in {OADD, OSUB, OMUL} {
      SumGuard(op, l, r, v, tp);
    } else if op in {ODIV, OMOD} {
      QuotGuard(op, l, r, v, tp);
    } else if op in {OSHL, OSHR} {
      ShiftGuard(op, l, r, v, tp);
    } else {
      NoGuard(op, l, r, v, tp);
    }
  }

  lemma SumGuard(op: Op, l: int, r: int, v: int, tp: Type)
    requires op in {OADD, OSUB, OMUL} && SignedInt(tp) && InRange(l, tp) && InRange(r, tp) && ResultOf(op, l, r, v)
    ensures (Valid(op, tp, l, r) <==> Admissible(op, r, v, tp)) <==> !Misjudged(op, l, r, tp)
  {
    hide Limits, MulI, AddI, SubI, Quot, Pow2, Fits, InRange, Least, BitOf;
    LimitsAre(tp, l);
    LimitsAre(tp, r);
    LimitsAre(tp, v);
    MinimumOfWord(tp);
    if op == OADD {
      AddIExact(l, r, tp);
    } else if op == OSUB {
      SubIExact(l, r, tp);
    } else {
      MulIExact(l, r, tp);
    }
  }

  lemma MinimumOfWord(tp: Type)
    requires SignedInt(tp)
    ensures tp.size == 8 ==> Limits(tp).0 == TINT_MIN
  {
  }

  lemma QuotGuard(op: Op, l: int, r: int, v: int, tp: Type)
    requires op in {ODIV, OMOD} && SignedInt(tp) && InRange(l, tp) && InRange(r, tp)
    requires r != 0 ==> ResultOf(op, l, r, v) && (op == ODIV ==> v == Quot(l, r))
    ensures (Valid(op, tp, l, r) <==> r != 0 && Admissible(op, r, v, tp)) <==> !Misjudged(op, l, r, tp)
  {
    hide Limits, Quot, Pow2, DivI, Fits, InRange, Least, BitOf;
    LimitsAre(tp, l);
    LimitsAre(tp, r);
    LimitsAre(tp, v);
    if op == ODIV {
      DivIExact(l, r, tp);
    } else {
      DivIMeans(l, r, tp);
      if r != 0 {
        RestInRange(l, r, v, tp);
      }
    }
  }

  lemma DivIMeans(l: int, r: int, tp: Type)
    requires SignedInt(tp) && Fits(l, tp)
    ensures DivI(l, r, tp) <==> r != 0 && !(tp.size == 8 && l == Limits(tp).0 && r == -1)
  {
  }

  lemma RestInRange(l: int, r: int, v: int, tp: Type)
    requires SignedInt(tp) && InRange(r, tp) && r != 0 && ResultOf(OMOD, l, r, v)
    ensures InRange(v, tp)
  {
    hide Pow2, BitOf;
  }

  lemma ShiftGuard(op: Op, l: int, r: int, v: int, tp: Type)
    requires op in {OSHL, OSHR} && SignedInt(tp) && InRange(l, tp)
    requires r >= 0 ==> ResultOf(op, l, r, v)
    ensures (Valid(op, tp, l, r) <==> r >= 0 && Admissible(op, r, v, tp)) <==> !Misjudged(op, l, r, tp)
  {
    hide LshI, Pow2, InRange, ShiftMisjudged, BitOf;
    ShiftExact(l, r, tp);
  }

  lemma NoGuard(op: Op, l: int, r: int, v: int, tp: Type)
    requires OneOperand(op) || Compares(op) || op in {OBAND, OBOR, OBXOR, OAND, OOR}
    requires SignedInt(tp) && InRange(l, tp) && ResultOf(op, l, r, v)
    ensures (Valid(op, tp, l, r) <==> Admissible(op, r, v, tp)) <==> !Misjudged(op, l, r, tp)
  {
    hide Pow2, BitOf, Limits;
  }

  lemma FoldIntForm(op: Op, tp: Type, l: int, r: int)
    ensures Valid(op, tp, l, r) && SignedOp(op, l, r).Some? ==>
              FoldInt(op, tp, l, r) == Some(Pattern(SignedOp(op, l, r).value))
    ensures !Valid(op, tp, l, r) ==> FoldInt(op, tp, l, r) == None
  {
    hide Valid, SignedOp, Pattern;
  }

  lemma ValidDefined(op: Op, tp: Type, l: int, r: int)
    requires Valid(op, tp, l, r) && tp.size <= 8
    ensures Defined(op, r) && (Shifts(op) ==> r < 64)
  {
    hide AddI, SubI, MulI, OneShifted, Limits, Pattern;
  }

  lemma NoDivision(op: Op, tp: Type, l: int)
    requires op in {ODIV, OMOD}
    ensures !Valid(op, tp, l, 0)
  {
  }

  /** The folder of signed constants gives a constant exactly if the guard lets it, and then
      the operator's result. */
  lemma FoldIntResult(op: Op, tp: Type, l: int, r: int) returns (v: int)
    requires (OneOperand(op) || TwoOperands(op)) && SignedInt(tp) && InRange(l, tp) && (Arithmetic(op) ==> InRange(r, tp))
    ensures Defined(op, r) ==> ResultOf(op, l, r, v)
    ensures (Valid(op, tp, l, r) <==> Defined(op, r) && Admissible(op, r, v, tp)) <==> !Misjudged(op, l, r, tp)
    ensures FoldInt(op, tp, l, r) == if Valid(op, tp, l, r) then Some(Coded(v)) else None
  {
    hide Valid, SignedOp, ResultOf, Misjudged, Admissible, InRange, Pattern, FoldInt, Quot;
    v := 0;
    if Defined(op, r) {
      v := Computed(op, l, r);
    }
    GuardExact(op, l, r, v, tp);
    FoldIntForm(op, tp, l, r);
    if Valid(op, tp, l, r) {
      ValidDefined(op, tp, l, r);
    }
  }

  // The nodes

  /** Only the guarded operators look at the type. */
  lemma FoldIntType(op: Op, tp: Type, other: Type, l: int, r: int)
    requires Arithmetic(op) || Shifts(op) ==> tp == other
    ensures FoldInt(op, tp, l, r) == FoldInt(op, other, l, r)
  {
    hide SignedOp, Pattern, AddI, SubI, MulI, DivI, LshI, RshI;
  }

  lemma SignedLeafRead(np: Node, x: int)
    requires SignedLeaf(np, x)
    ensures SignedInt(np.tp) && AsSigned(np.sym.u) == x && (CmpNode(np, 0) <==> x == 0)
  {
    LimitsAre(np.tp, x);
    Decoded(x);
    CutAtWord(np.sym.u);
    CutAtWord(0);
    hide BitAnd;
  }

  lemma LeavesOf(np: Node, l: int, r: int)
    requires SignedPair(np, l, r)
    ensures LeafPair(np)
  {
  }

  /** What the folder makes of the node. */
  lemma FoldedPair(np: Node, l: int, r: int)
    requires SignedPair(np, l, r)
    ensures if np.op in {ODIV, OMOD} && r == 0 then Folded(np) == np
            else Folded(np) == match FoldInt(np.op, np.tp, l, r)
                               case Some(u) => ConstNode(Lit(u, np.tp, true))
                               case None => np.(nconst := false)
  {
    hide FoldInt, FoldUInt, CmpNode, AsSigned, InRange, Coded;
    SignedLeafRead(np.left, l);
    if !OneOperand(np.op) {
      SignedLeafRead(np.right, r);
    }
    SmallSigned(0);
  }

  /** An operator over constants. */
  predicate LeafPair(np: Node) {
    && np.Node? && ConstantLeafNode(np.left)
    && (if OneOperand(np.op) then np.right.Nil? else TwoOperands(np.op) && ConstantLeafNode(np.right))
  }

  predicate ConstantLeafNode(np: Node) {
    np.Node? && np.op == OSYM && np.nconst && np.left.Nil? && np.right.Nil? && np.sym.Lit?
  }

  /** When it folds, that is all that happens to the node. */
  lemma PairTurn(np: Node)
    requires LeafPair(np) && Folded(np).op == OSYM
    ensures Simplify(np) == Folded(np)
  {
    hide Folded, Simplify, CmpNode, Power2Node;
    LeafStays(np.left);
    if OneOperand(np.op) {
      NilSimplified();
    } else {
      LeafStays(np.right);
    }
    FoldedShrinks(np);
    PairStep(np);
    OneTurn(np);
  }

  lemma PairStep(np: Node)
    requires LeafPair(np) && Folded(np).op == OSYM
    ensures Step(np) == Folded(np) && Step(Folded(np)) == Folded(np)
  {
    hide Folded, CmpNode, Power2Node;
    if !OneOperand(np.op) {
      assert Commuted(np) == np && Associated(np) == np;
    }
  }

  /** An operator over signed constants becomes a constant exactly if it has a result that
      the type has, but for the operands above; the constant is the result. */
  lemma {:induction false} SignedFolds(np: Node, l: int, r: int) returns (v: int)
    requires SignedPair(np, l, r)
    ensures Defined(np.op, r) ==> ResultOf(np.op, l, r, v)
    ensures var c := Folded(np);
            && ((c.op == OSYM <==> Defined(np.op, r) && Admissible(np.op, r, v, np.left.tp)) <==> !Misjudged(np.op, l, r, np.left.tp))
            && (if c.op == OSYM then Defined(np.op, r) && c == ConstNode(Lit(Coded(v), np.tp, true)) && Simplify(np) == c
                else c == np || c == np.(nconst := false))
  {
    hide FoldInt, ResultOf, Misjudged, Admissible, Valid, Pow2, Folded, Simplify, InRange, Coded;
    var op, tp := np.op, np.left.tp;
    SignedLeafRead(np.left, l);
    v := FoldIntResult(op, tp, l, r);
    FoldIntType(op, tp, np.tp, l, r);
    FoldedPair(np, l, r);
    if op in {ODIV, OMOD} && r == 0 {
      NoDivision(op, tp, l);
    }
    if Folded(np).op == OSYM {
      ValidDefined(op, tp, l, r);
      LeavesOf(np, l, r);
      PairTurn(np);
    }
  }
}
