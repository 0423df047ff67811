/** The folder's constants: comparisons with them, and arithmetic on them, agree with the
    meaning of the tree. */
module FoldConstants {
  import opened Bits
  import opened Cc1Tree
  import opened FoldArith
  import opened Fold
  import opened Wrappers
  import opened FoldMeaning

  lemma OnesMask(u: nat, tp: Type)
    ensures BitAnd(u, Ones(tp.size)) == Mod(u, Range(tp))
  {
    BitAndOnes(u, 8 * tp.size);
  }

  /** Cutting a 64-bit result to the type is all that matters of it. */
  lemma CutWord(x: int, tp: Type)
    requires tp.size in {1, 2, 4, 8}
    ensures BitAnd(Mod(x, WORD), Ones(tp.size)) == Mod(x, Range(tp))
  {
    RangePositive(tp);
    var k: nat :| k > 0 && WORD == Range(tp) * k;
    ModMod(x, Range(tp), k);
    OnesMask(Mod(x, WORD), tp);
  }

  lemma SmallMod(x: int, m: nat)
    requires 0 <= x < m
    ensures Mod(x, m) == x
  {
    ModUnique(x, m, 0, x);
  }

  lemma CutSmall(u: nat, tp: Type)
    requires u < Range(tp)
    ensures BitAnd(u, Ones(tp.size)) == u
  {
    OnesMask(u, tp);
    SmallMod(u, Range(tp));
  }

  /** What `cmpnode` finds of a constant of the model. */
  lemma {:induction false} CmpNodeMeans(np: Node)
    requires Constant(np) && np.tp.kind == INT && np.tp.size in {1, 2, 4, 8}
    ensures CmpNode(np, 0) <==> np.sym.u == 0
    ensures CmpNode(np, 1) <==> np.sym.u == 1
    ensures CmpNode(np, WORD - 1) <==> np.sym.u == Range(np.tp) - 1
  {
    var u, tp := np.sym.u, np.tp;
    RangePositive(tp);
    CutAtWord(u);
    CutAtWord(0);
    CutAtWord(1);
    CutSmall(u, tp);
    AllOnes(tp);
    hide BitAnd, Ones, Range;
  }

  lemma CutAtWord(u: nat)
    requires u < WORD
    ensures BitAnd(u, WORD - 1) == u
  {
    Pow2Values();
    BitAndOnes(u, 64);
    SmallMod(u, WORD);
  }

  lemma AllOnes(tp: Type)
    requires tp.size in {1, 2, 4, 8}
    ensures BitAnd(WORD - 1, Ones(tp.size)) == Range(tp) - 1
  {
    RangePositive(tp);
    CutWord(-1, tp);
    ModUnique(-1, WORD, -1, WORD - 1);
    ModUnique(-1, Range(tp), -1, Range(tp) - 1);
  }

  /** Folding unsigned constants computes what the operator means. */
  lemma {:induction false} FoldUIntMeans(op: Op, tp: Type, a: nat, b: nat)
    requires Unsigned(tp) && a < Range(tp) && b < Range(tp) && (Computes(op) || Compares(op))
    requires BinaryMeaning(op, Width(tp), a, b).Some?
    ensures FoldUInt(op, tp, a, b) == BinaryMeaning(op, Width(tp), a, b)
  {
    if Computes(op) {
      ComputedCut(op, tp, a, b);
    } else {
      hide BitAnd, BitOr, BitXor, Mod, Pow2, Div;
    }
  }

  lemma ComputedCut(op: Op, tp: Type, a: nat, b: nat)
    requires Unsigned(tp) && a < Range(tp) && b < Range(tp) && Computes(op)
    requires BinaryMeaning(op, Width(tp), a, b).Some?
    ensures UnsignedOp(op, a, b).Some?
    ensures Some(BitAnd(UnsignedOp(op, a, b).value, Ones(tp.size))) == BinaryMeaning(op, Width(tp), a, b)
  {
    if op in {OADD, OSUB, OMUL, OSHL} {
      WrappedCut(op, tp, a, b);
    } else {
      ExactCut(op, tp, a, b);
    }
  }

  lemma WrappedCut(op: Op, tp: Type, a: nat, b: nat)
    requires Unsigned(tp) && op in {OADD, OSUB, OMUL, OSHL}
    requires BinaryMeaning(op, Width(tp), a, b).Some?
    ensures UnsignedOp(op, a, b).Some?
    ensures Some(BitAnd(UnsignedOp(op, a, b).value, Ones(tp.size))) == BinaryMeaning(op, Width(tp), a, b)
  {
    RangeWidth(tp);
    hide BitAnd, BitOr, BitXor, Mod, Pow2, Div, Range, Ones, Times;
    CutWord(a + b, tp);
    CutWord(a - b, tp);
    CutWord(Times(a, b), tp);
    CutWord(Times(a, Pow2(b)), tp);
  }

  lemma ExactCut(op: Op, tp: Type, a: nat, b: nat)
    requires Unsigned(tp) && a < Range(tp) && b < Range(tp) && op in {ODIV, OMOD, OSHR, OBAND, OBXOR, OBOR}
    requires BinaryMeaning(op, Width(tp), a, b).Some?
    ensures UnsignedOp(op, a, b) == BinaryMeaning(op, Width(tp), a, b)
    ensures Some(BitAnd(UnsignedOp(op, a, b).value, Ones(tp.size))) == BinaryMeaning(op, Width(tp), a, b)
  {
    RangeWidth(tp);
    ComputedInRange(op, Width(tp), a, b);
    CutSmall(BinaryMeaning(op, Width(tp), a, b).value, tp);
    SameOutcome(op, tp, a, b);
    hide UnsignedOp, BinaryMeaning, BitAnd, Ones, Range;
  }

  lemma SameOutcome(op: Op, tp: Type, a: nat, b: nat)
    requires Unsigned(tp) && op in {ODIV, OMOD, OSHR, OBAND, OBXOR, OBOR}
    requires BinaryMeaning(op, Width(tp), a, b).Some?
    ensures UnsignedOp(op, a, b) == BinaryMeaning(op, Width(tp), a, b)
  {
    hide BitAnd, BitOr, BitXor, Mod, Pow2, Div, Times;
  }

  /** Folding never leaves the type. */
  lemma FoldUIntInRange(op: Op, tp: Type, a: nat, b: nat)
    requires Unsigned(tp) && FoldUInt(op, tp, a, b).Some?
    ensures FoldUInt(op, tp, a, b).value < Range(tp)
    ensures Compares(op) ==> FoldUInt(op, tp, a, b).value <= 1
  {
    RangePositive(tp);
    ComparisonsFoldApart(op, a, b);
    hide BitAnd, Ones, Range, Mod, UnsignedOp, TruthOp;
    if UnsignedOp(op, a, b).Some? {
      OnesMask(UnsignedOp(op, a, b).value, tp);
    } else {
      TruthOpBit(op, a, b);
    }
  }

  lemma ComparisonsFoldApart(op: Op, a: nat, b: nat)
    ensures Compares(op) ==> UnsignedOp(op, a, b).None?
  {
    hide BitAnd, BitOr, BitXor, Mod, Pow2, Div;
  }

  lemma TruthOpBit(op: Op, a: int, b: int)
    ensures TruthOp(op, a, b).Some? ==> TruthOp(op, a, b).value <= 1
  {
  }

  /** Conditions, whose operands are 0 or 1, are folded as signed numbers. */
  lemma FoldIntCompares(op: Op, tp: Type, a: nat, b: nat)
    requires a <= 1 && b <= 1 && Compares(op)
    ensures FoldInt(op, tp, AsSigned(a), AsSigned(b)) == BinaryMeaning(op, Width(tp), a, b)
  {
    hide FoldInt, BitAnd, BitOr, BitXor, Pow2, Times, Div, Mod;
    SignedTruth(op, tp, a, b);
    SmallSigned(a);
    SmallSigned(b);
    TruthOpBit(op, a, b);
    SmallPattern(TruthOp(op, a, b).value);
  }

  /** Comparisons and logic of signed numbers are folded to their truth value. */
  lemma SignedTruth(op: Op, tp: Type, l: int, r: int)
    requires Compares(op) || op in {OAND, OOR}
    ensures TruthOp(op, l, r).Some? && FoldInt(op, tp, l, r) == Some(Pattern(TruthOp(op, l, r).value))
  {
    hide Quot, Rem, BitAnd, BitOr, BitXor, Pow2, Limits, Times, Floor, Pattern, AddI, SubI, MulI, DivI, LshI, RshI;
  }

  lemma SmallSigned(a: nat)
    requires a <= 1
    ensures AsSigned(a) == a
  {
  }

  lemma SmallPattern(a: nat)
    requires a <= 1
    ensures Pattern(a) == a
  {
  }

  lemma FoldIntLogic(op: Op, tp: Type, a: nat, b: nat)
    requires a <= 1 && b <= 1 && op in {OAND, OOR, ONEG}
    ensures FoldInt(op, tp, AsSigned(a), AsSigned(b))
            == Some(Bool(if op == OAND then a != 0 && b != 0 else if op == OOR then a != 0 || b != 0 else a == 0))
  {
    hide Quot, Rem, BitAnd, BitOr, BitXor, Pow2, Limits, Times, Floor;
  }

  lemma FoldUnaryMeans(op: Op, tp: Type, a: nat)
    requires Unsigned(tp) && a < Range(tp) && op in {OSNEG, OCPL}
    ensures FoldUInt(op, tp, a, 0) == Some(UnaryMeaning(op, Range(tp), a))
  {
    if op == OSNEG {
      CutWord(0 - a, tp);
    } else {
      CutWord(-1 - a, tp);
    }
  }
}
