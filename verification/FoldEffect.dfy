/** What the folder achieves: constants of unsigned types are computed, and what an operator
    does not need is gone after a turn of the loop. */
module FoldEffect {
  import opened Bits
  import opened Cc1Tree
  import opened FoldArith
  import opened Fold
  import opened FoldConstants
  import opened FoldMeaning
  import opened FoldForms
  import opened FoldTheorem
  import opened FoldExact
  import opened FoldSigned
  import opened Wrappers

  /** `np` is the constant `x` of an unsigned type, an enumeration or a pointer. */
  predicate UnsignedLeaf(np: Node, x: nat) {
    && np.Node? && np.op == OSYM && np.nconst && np.left.Nil? && np.right.Nil?
    && np.sym.Lit? && np.sym.ty == np.tp && np.sym.u == x
    && (np.tp.kind == PTR || (np.tp.kind in {INT, ENUM} && !np.tp.signed)) && np.tp.size in {1, 2, 4, 8} && x < Pow2(8 * np.tp.size)
  }

  predicate UnsignedPair(np: Node, l: nat, r: nat) {
    && np.Node? && UnsignedLeaf(np.left, l) && np.tp.size in {1, 2, 4, 8}
    && (if OneOperand(np.op) then np.right.Nil? && r == 0 else TwoOperands(np.op) && UnsignedLeaf(np.right, r))
  }

  // Constants

  /** Unsigned arithmetic is the other one modulo 2^64. */
  lemma SameWord(op: Op, l: nat, r: nat)
    requires (OneOperand(op) || TwoOperands(op)) && l < WORD && r < WORD && Defined(op, r)
    ensures SignedOp(op, l, r).Some?
    ensures Compares(op) || op in {OAND, OOR} ==>
              UnsignedOp(op, l, r) == None && TruthOp(op, l, r) == Some(SignedOp(op, l, r).value) && SignedOp(op, l, r).value in {0, 1}
    ensures !Compares(op) && op !in {OAND, OOR} ==> UnsignedOp(op, l, r) == Some(Mod(SignedOp(op, l, r).value, WORD))
  {
    hide SignedOp, UnsignedOp, TruthOp;
    if op in {OBAND, OBOR, OBXOR} {
      BitwiseWord(op, l, r);
    } else if op == ODIV || op == OMOD {
      DivisionWord(op, l, r);
    } else if op == OSHR || op == OSHL {
      ShiftWord(op, l, r);
    } else if Compares(op) || op in {OAND, OOR} {
      TruthWord(op, l, r);
    } else {
      SumWord(op, l, r);
    }
  }

  lemma TruthWord(op: Op, l: nat, r: nat)
    requires Compares(op) || op in {OAND, OOR}
    ensures SignedOp(op, l, r).Some? && UnsignedOp(op, l, r) == None
    ensures TruthOp(op, l, r) == Some(SignedOp(op, l, r).value) && SignedOp(op, l, r).value in {0, 1}
  {
    hide Pow2, Mod, Times, Floor, Div, BitAnd, BitOr, BitXor, Pattern, Quot, Rem;
  }

  lemma SumWord(op: Op, l: nat, r: nat)
    requires OneOperand(op) || op in {OADD, OSUB, OMUL}
    ensures SignedOp(op, l, r).Some? && UnsignedOp(op, l, r) == Some(Mod(SignedOp(op, l, r).value, WORD))
  {
    hide Pow2, Mod, Times, Floor, Div, BitAnd, BitOr, BitXor, Pattern, Quot, Rem;
    if op == ONEG {
      SmallMod(Bool(l == 0), WORD);
    }
  }

  lemma ShiftWord(op: Op, l: nat, r: nat)
    requires Shifts(op) && l < WORD
    ensures SignedOp(op, l, r).Some? && UnsignedOp(op, l, r) == Some(Mod(SignedOp(op, l, r).value, WORD))
  {
    hide Pow2, Times, BitAnd, BitOr, BitXor, Pattern, Quot, Rem;
    DivBounds(l, Pow2(r % 64));
    SmallMod(l / Pow2(r % 64), WORD);
    hide Mod;
  }

  lemma BitwiseWord(op: Op, l: nat, r: nat)
    requires op in {OBAND, OBOR, OBXOR} && l < WORD && r < WORD
    ensures SignedOp(op, l, r).Some? && UnsignedOp(op, l, r) == Some(Mod(SignedOp(op, l, r).value, WORD))
  {
    hide BitAnd, BitOr, BitXor, Pow2;
    SmallMod(l, WORD);
    SmallMod(r, WORD);
    BitwiseSized(op, l, r);
    SmallMod(Bitwise(op, l, r), WORD);
  }

  lemma DivisionWord(op: Op, l: nat, r: nat)
    requires op in {ODIV, OMOD} && l < WORD && 0 < r < WORD
    ensures SignedOp(op, l, r).Some? && UnsignedOp(op, l, r) == Some(Mod(SignedOp(op, l, r).value, WORD))
  {
    DivBounds(l, r);
    assert l == r * (l / r) + l % r;
    SmallMod(l / r, WORD);
    SmallMod(l % r, WORD);
  }

  lemma FoldUIntResult(op: Op, tp: Type, l: nat, r: nat) returns (v: int)
    requires (OneOperand(op) || TwoOperands(op)) && l < WORD && r < WORD && tp.size in {1, 2, 4, 8}
    ensures Defined(op, r) ==> ResultOf(op, l, r, v)
    ensures Defined(op, r) && (Shifts(op) ==> r < 64) ==> FoldUInt(op, tp, l, r) == Some(Mod(v, Range(tp))) && Range(tp) > 0
  {
    hide SignedOp, UnsignedOp, TruthOp, ResultOf, BitAnd, Ones, Pattern, Range, Pow2, Quot;
    v := 0;
    if Defined(op, r) {
      v := Computed(op, l, r);
      SameWord(op, l, r);
      RangePositive(tp);
      if Shifts(op) ==> r < 64 {
        PatternMod(SignedOp(op, l, r).value, v);
        CutWord(v, tp);
        if Compares(op) || op in {OAND, OOR} {
          TruthIs(op, l, r, v, tp);
        }
      }
    }
  }

  lemma PatternMod(x: int, v: int)
    requires Pattern(x) == Coded(v)
    ensures Mod(x, WORD) == Mod(v, WORD)
  {
  }

  lemma TruthIs(op: Op, l: int, r: int, v: int, tp: Type)
    requires (Compares(op) || op in {OAND, OOR}) && ResultOf(op, l, r, v) && Range(tp) > 1
    ensures TruthOp(op, l, r) == Some(Mod(v, Range(tp)))
  {
    SmallMod(v, Range(tp));
    hide Range, BitOf;
  }

  lemma FoldedUnsigned(np: Node, l: nat, r: nat)
    requires UnsignedPair(np, l, r)
    ensures l < WORD && r < WORD
    ensures if np.op in {ODIV, OMOD} && r == 0 then Folded(np) in {np, np.(nconst := false)}
            else Folded(np) == match FoldUInt(np.op, np.tp, l, r)
                               case Some(u) => ConstNode(Lit(u, np.tp, true))
                               case None => np.(nconst := false)
  {
    hide FoldInt, FoldUInt, CmpNode, Pow2;
    UnsignedLeafRead(np.left, l);
    if !OneOperand(np.op) {
      UnsignedLeafRead(np.right, r);
      NoQuotient(np.op, np.tp, l);
    }
  }

  lemma NoQuotient(op: Op, tp: Type, l: nat)
    ensures op in {ODIV, OMOD} ==> FoldUInt(op, tp, l, 0) == None
  {
  }

  lemma UnsignedLeafRead(np: Node, x: nat)
    requires UnsignedLeaf(np, x)
    ensures x < WORD && (CmpNode(np, 0) <==> x == 0 && np.tp.kind != ENUM)
  {
    RangePositive(np.tp);
    CutAtWord(np.sym.u);
    CutAtWord(0);
    hide BitAnd;
  }

  /** An operator over unsigned constants becomes the constant that is its result in the
      width of its type, if it has one. */
  lemma {:induction false} UnsignedFolds(np: Node, l: nat, r: nat) returns (v: int)
    requires UnsignedPair(np, l, r)
    ensures Defined(np.op, r) ==> ResultOf(np.op, l, r, v)
    ensures Pow2(8 * np.tp.size) > 0
    ensures Defined(np.op, r) && (Shifts(np.op) ==> r < 64) ==>
              Simplify(np) == ConstNode(Lit(v % Pow2(8 * np.tp.size), np.tp, true))
  {
    hide FoldUInt, ResultOf, Folded, Simplify, Pow2;
    FoldedUnsigned(np, l, r);
    v := FoldUIntResult(np.op, np.tp, l, r);
    if Defined(np.op, r) && (Shifts(np.op) ==> r < 64) {
      PairTurn(np);
    }
  }

  /** A cast of a constant is computed, whatever the two integer types are. */
  lemma {:induction false} CastFolds(np: Node) returns (u: nat)
    requires np.Node? && np.op == OCAST && np.right.Nil? && np.tp.kind in {INT, ENUM, PTR} && np.tp.size in {1, 2, 4, 8}
    requires ConstantLeafNode(np.left) && np.left.tp.kind in {INT, ENUM, PTR}
    ensures Simplify(np) == ConstNode(Lit(u, np.tp, true)) && Pow2(8 * np.tp.size) > 0
    ensures !np.tp.signed ==> u == np.left.sym.u % Pow2(8 * np.tp.size)
    ensures np.tp.signed ==> u == if np.tp.size == 8 then np.left.sym.u else CastPattern(np.tp, np.left.sym.u)
  {
    hide Simplify, CastPattern, Pow2, Step;
    u := CastPattern(np.tp, np.left.sym.u);
    CastIs(np.tp, np.left.sym.u);
    LeafStays(np.left);
    NilSimplified();
    CastStep(np);
    OneTurn(np);
  }

  lemma CastIs(tp: Type, u: nat)
    requires tp.size in {1, 2, 4, 8}
    ensures !tp.signed ==> CastPattern(tp, u) == u % Pow2(8 * tp.size)
    ensures tp.signed && tp.size == 8 ==> CastPattern(tp, u) == u
  {
    hide BitAnd, BitOr, Pow2, Div;
    OnesMask(u, tp);
  }

  lemma CastStep(np: Node)
    requires np.Node? && np.op == OCAST && np.right.Nil? && np.tp.kind in {INT, ENUM, PTR}
    requires ConstantLeafNode(np.left) && np.left.tp.kind in {INT, ENUM, PTR}
    ensures Step(np) == ConstNode(Lit(CastPattern(np.tp, np.left.sym.u), np.tp, true)) && Step(Step(np)) == Step(np)
  {
    hide CastPattern, FoldConst, CmpNode;
  }

  // Constants on the right

  /** A constant that changes no value of the type is gone. */
  lemma {:induction false} NeutralGone(np: Node)
    requires Ok(np) && Computes(np.op) && Constant(np.right) && !np.left.nconst && np.left.op != np.op
    requires forall a: nat :: a < Range(np.tp) ==> BinaryMeaning(np.op, Width(np.tp), a, np.right.sym.u) == Some(a)
    ensures Step(np) == Reduced(np.left)
  {
    hide BinaryMeaning, Range, Ok, Reduced, CmpNode, Constant, Step;
    OkBinary(np);
    ConstantBelowRange(np.right);
    ConstantLeaf(np.right);
    NeutralIs(np.op, np.tp, np.right.sym.u);
    CmpNodeMeans(np.right);
    NeutralStep(np);
  }

  lemma NeutralStep(np: Node)
    requires np.Node? && Computes(np.op) && np.right.Node? && np.right.nconst && np.left.Node? && !np.left.nconst && np.left.op != np.op
    requires if np.op == OBAND then CmpNode(np.right, WORD - 1)
             else if np.op in {OMUL, ODIV} then CmpNode(np.right, 1) && !CmpNode(np.right, 0)
             else np.op != OMOD && CmpNode(np.right, 0)
    ensures Step(np) == Reduced(np.left)
  {
    hide CmpNode, Reduced, FoldConst;
    assert Commuted(np) == np && Associated(np) == np && Folded(np) == np;
    hide Commuted, Associated, Folded;
  }

  predicate Neutral(op: Op, tp: Type, c: nat) {
    forall a: nat :: a < Range(tp) ==> BinaryMeaning(op, Width(tp), a, c) == Some(a)
  }

  /** Which constants change nothing. */
  lemma NeutralIs(op: Op, tp: Type, c: nat)
    requires Unsigned(tp) && c < Range(tp) && Computes(op) && Neutral(op, tp, c)
    ensures op != OMOD
    ensures if op in {OMUL, ODIV} then c == 1 else if op == OBAND then c == Range(tp) - 1 else c == 0
  {
    hide BitAnd, BitOr, BitXor, Pow2, Mod, Times, Div, Range;
    RangePositive(tp);
    var m, w := Range(tp), Width(tp);
    assert BinaryMeaning(op, w, 0, c) == Some(0) && BinaryMeaning(op, w, 1, c) == Some(1)
        && BinaryMeaning(op, w, m - 1, c) == Some(m - 1) && BinaryMeaning(op, w, c, c) == Some(c);
    hide BinaryMeaning;
    if op in {OADD, OSUB, OMUL} {
      NeutralSum(op, tp, c);
    } else if op in {ODIV, OMOD} {
      NeutralQuotient(op, w, c);
    } else if op in {OSHL, OSHR} {
      NeutralShift(op, tp, c);
    } else {
      NeutralBits(op, tp, c);
    }
  }

  lemma NeutralSum(op: Op, tp: Type, c: nat)
    requires op in {OADD, OSUB, OMUL} && 1 < Range(tp) && c < Range(tp)
    requires BinaryMeaning(op, Width(tp), 0, c) == Some(0) && BinaryMeaning(op, Width(tp), 1, c) == Some(1)
    ensures c == if op == OMUL then 1 else 0
  {
    RangeWidth(tp);
    hide Range, Pow2;
    SmallMod(c, Range(tp));
    if op == OSUB && c > 0 {
      ModUnique(0 - c, Range(tp), -1, Range(tp) - c);
    }
  }

  lemma NeutralQuotient(op: Op, w: nat, c: nat)
    requires op in {ODIV, OMOD} && BinaryMeaning(op, w, 1, c) == Some(1) && BinaryMeaning(op, w, c, c) == Some(c)
    ensures op == ODIV && c == 1
  {
  }

  lemma NeutralShift(op: Op, tp: Type, c: nat)
    requires op in {OSHL, OSHR} && BinaryMeaning(op, Width(tp), 1, c) == Some(1)
    ensures c == 0
  {
    if c > 0 {
      ShiftChangesOne(op, tp, c);
    }
  }

  lemma ShiftChangesOne(op: Op, tp: Type, c: nat)
    requires op in {OSHL, OSHR} && c > 0
    ensures BinaryMeaning(op, Width(tp), 1, c) != Some(1)
  {
    if c < Width(tp) {
      PowerBelow(c, Width(tp));
      SmallMod(Pow2(c), Pow2(Width(tp)));
    }
    assert Pow2(0) == 1;
    PowerBelow(0, c);
    hide Pow2;
  }

  lemma NeutralBits(op: Op, tp: Type, c: nat)
    requires op in {OBAND, OBXOR, OBOR} && c < Range(tp) && Range(tp) > 0
    requires BinaryMeaning(op, Width(tp), 0, c) == Some(0) && BinaryMeaning(op, Width(tp), Range(tp) - 1, c) == Some(Range(tp) - 1)
    ensures c == if op == OBAND then Range(tp) - 1 else 0
  {
    BitAndCommutes(Range(tp) - 1, c);
    BitAndOnes(c, 8 * tp.size);
    SmallMod(c, Range(tp));
  }

  /** A product with 0 is only evaluated for its effects. */
  lemma {:induction false} ZeroProduct(np: Node)
    requires Ok(np) && np.op == OMUL && Constant(np.right) && np.right.sym.u == 0 && !np.left.nconst && np.left.op != OMUL
    ensures Step(np) == np.(op := OCOMMA)
  {
    hide Ok, CmpNode, Step;
    OkBinary(np);
    CmpNodeMeans(np.right);
    ProductStep(np);
  }

  lemma ProductStep(np: Node)
    requires np.Node? && np.op == OMUL && np.left.Node? && !np.left.nconst && np.left.op != OMUL && np.right.Node? && np.right.nconst
    requires CmpNode(np.right, 0)
    ensures Step(np) == np.(op := OCOMMA)
  {
    hide CmpNode, FoldConst;
    assert Commuted(np) == np && Associated(np) == np && Folded(np) == np;
    hide Commuted, Associated, Folded;
  }

  // Constants on the left, and two of them

  predicate Commutes(op: Op, tp: Type) {
    forall a: nat, b: nat :: a < Range(tp) && b < Range(tp) ==> BinaryMeaning(op, Width(tp), a, b) == BinaryMeaning(op, Width(tp), b, a)
  }

  /** A constant on the left of an operator that commutes moves to the right. */
  lemma {:induction false} ConstantMoves(np: Node)
    requires Ok(np) && (Computes(np.op) || Compares(np.op)) && Constant(np.left) && !np.right.nconst && Commutes(np.op, np.tp)
    ensures Commuted(np) == np.(left := np.right, right := np.left)
  {
    hide Ok, Commutes;
    OkBinary(np);
    OkTyped(np);
    CommutesIs(np.op, np.tp);
  }

  lemma CommutesIs(op: Op, tp: Type)
    requires (Computes(op) || Compares(op)) && tp.size in {1, 2, 4, 8} && Commutes(op, tp)
    ensures op in {OADD, OMUL, OBAND, OBXOR, OBOR, OEQ, ONE}
  {
    hide BitAnd, BitOr, BitXor, Range, Mod, Div, Times;
    RangePositive(tp);
    var w := Width(tp);
    assert BinaryMeaning(op, w, 0, 1) == BinaryMeaning(op, w, 1, 0);
    hide Commutes;
    if op == OSUB {
      ModUnique(-1, Range(tp), -1, Range(tp) - 1);
      SmallMod(1, Range(tp));
      MinusOne(tp);
    } else if op in {OSHL, OSHR} {
      ShiftsDiffer(op, tp);
    }
  }

  lemma MinusOne(tp: Type)
    requires Range(tp) > 2
    ensures BinaryMeaning(OSUB, Width(tp), 0, 1) != BinaryMeaning(OSUB, Width(tp), 1, 0)
  {
    ModUnique(-1, Range(tp), -1, Range(tp) - 1);
    SmallMod(1, Range(tp));
  }

  lemma ShiftsDiffer(op: Op, tp: Type)
    requires op in {OSHL, OSHR} && Range(tp) > 2 && tp.size > 0
    ensures BinaryMeaning(op, Width(tp), 0, 1) != BinaryMeaning(op, Width(tp), 1, 0)
  {
    SmallMod(1, Range(tp));
    SmallMod(0, Range(tp));
    assert Pow2(0) == 1 && Pow2(1) == 2;
  }

  /** Of two constants of such an operator only one is left. */
  lemma {:induction false} ConstantsJoin(np: Node)
    requires Ok(np) && Computes(np.op) && Commutes(np.op, np.tp) && Constant(np.right) && np.right.sym.constant
    requires np.left.op == np.op && Constant(np.left.right) && np.left.right.sym.constant && np.left.left.Node?
    ensures Unsigned(np.tp) && BinaryMeaning(np.op, Width(np.tp), np.left.right.sym.u, np.right.sym.u).Some?
    ensures var c := BinaryMeaning(np.op, Width(np.tp), np.left.right.sym.u, np.right.sym.u).value;
            Associated(np) == np.(left := np.left.left, right := ConstNode(Lit(c, np.tp, true)))
  {
    hide Ok, Commutes, BinaryMeaning, Folded, FoldUInt;
    OkBinary(np);
    OkTyped(np);
    OkBinary(np.left);
    CommutesIs(np.op, np.tp);
    ConstantLeaf(np.right);
    ConstantLeaf(np.left.right);
    ConstantBelowRange(np.right);
    ConstantBelowRange(np.left.right);
    var a, b := np.left.right.sym.u, np.right.sym.u;
    AlwaysMeans(np.op, Width(np.tp), b, a);
    FoldUIntMeans(np.op, np.tp, b, a);
    SameEither(np.op, np.tp, a, b);
    JoinedFolds(np);
  }

  lemma SameEither(op: Op, tp: Type, a: nat, b: nat)
    requires Commutes(op, tp) && a < Range(tp) && b < Range(tp)
    ensures BinaryMeaning(op, Width(tp), a, b) == BinaryMeaning(op, Width(tp), b, a)
  {
  }

  lemma AlwaysMeans(op: Op, bits: nat, a: nat, b: nat)
    requires op in {OADD, OMUL, OBAND, OBXOR, OBOR}
    ensures BinaryMeaning(op, bits, a, b).Some?
  {
  }

  lemma JoinedFolds(np: Node)
    requires np.Node? && np.op in {OADD, OMUL, OBAND, OBXOR, OBOR} && np.left.Node? && np.left.op == np.op
    requires ConstantLeafNode(np.right) && ConstantLeafNode(np.left.right) && np.left.right.sym.constant
    requires Unsigned(np.tp) && np.left.tp == np.right.tp == np.left.right.tp == np.tp
    requires FoldUInt(np.op, np.tp, np.right.sym.u, np.left.right.sym.u).Some?
    ensures Associated(np) ==
            np.(left := np.left.left,
                right := ConstNode(Lit(FoldUInt(np.op, np.tp, np.right.sym.u, np.left.right.sym.u).value, np.tp, true)))
  {
    hide FoldUInt, FoldInt, CmpNode;
  }

  // Logic, and what cancels

  /** `&&` and `||` with a constant operand leave one operand, or both for the effects of
      the first. */
  lemma {:induction false} LogicDecided(np: Node)
    requires Ok(np) && np.op in {OAND, OOR}
    ensures Constant(np.left) && !np.right.nconst ==>
              Step(np) == Reduced(if (np.op == OAND) == (np.left.sym.u == 1) then np.right else np.left)
    ensures Constant(np.right) && !np.left.nconst ==>
              Step(np) == if (np.op == OAND) == (np.right.sym.u == 1) then Reduced(np.left) else np.(op := OCOMMA)
  {
    hide Ok, CmpNode, Step, Constant, Reduced;
    OkLogic(np);
    if Constant(np.left) && !np.right.nconst {
      TruthMeans(np.left);
      LeftLogic(np);
    }
    if Constant(np.right) && !np.left.nconst {
      TruthMeans(np.right);
      RightLogic(np);
    }
  }

  lemma TruthMeans(np: Node)
    requires Ok(np) && Signed(np.tp) && Constant(np)
    ensures np.nconst && np.sym.u <= 1 && (CmpNode(np, 0) <==> np.sym.u == 0) && (CmpNode(np, 1) <==> np.sym.u == 1)
  {
    hide Ok, CmpNode;
    ConstantLeaf(np);
    TruthConstant(np);
    CmpNodeMeans(np);
  }

  lemma TruthConstant(np: Node)
    requires Ok(np) && Signed(np.tp) && np.op == OSYM
    ensures Constant(np) && np.sym.u <= 1
  {
    OkTyped(np);
    OkLeaf(np);
  }

  lemma LeftLogic(np: Node)
    requires np.Node? && np.op in {OAND, OOR} && np.left.Node? && np.left.nconst && np.right.Node? && !np.right.nconst
    requires CmpNode(np.left, 0) != CmpNode(np.left, 1)
    ensures Step(np) == Reduced(if (np.op == OAND) == CmpNode(np.left, 1) then np.right else np.left)
  {
    hide CmpNode, FoldConst, Reduced;
    NotConstant(np.right, 0);
    NotConstant(np.right, 1);
    assert Commuted(np) == np && Associated(np) == np && Folded(np) == np;
    hide Commuted, Associated, Folded;
  }

  lemma RightLogic(np: Node)
    requires np.Node? && np.op in {OAND, OOR} && np.left.Node? && !np.left.nconst && np.right.Node? && np.right.nconst
    requires CmpNode(np.right, 0) != CmpNode(np.right, 1)
    ensures Step(np) == if (np.op == OAND) == CmpNode(np.right, 1) then Reduced(np.left) else np.(op := OCOMMA)
  {
    hide CmpNode, FoldConst;
    NotConstant(np.left, 0);
    NotConstant(np.left, 1);
    assert Commuted(np) == np && Associated(np) == np && Folded(np) == np;
    hide Commuted, Associated, Folded;
  }

  lemma NotConstant(np: Node, val: nat)
    requires np.Node? && !np.nconst
    ensures !CmpNode(np, val)
  {
    hide BitAnd;
  }

  /** Two negations or complements are none, nor are `&` and `*` that undo each other. */
  lemma {:induction false} DoubleGone(np: Node)
    requires np.Node? && np.left.Node?
    requires || (np.op in {OSNEG, OCPL, ONEG} && np.left.op == np.op)
             || (np.op == OADDR && np.left.op == OPTR)
             || (np.op == OPTR && np.left.op == OADDR && np.left.left.Node? && np.left.left.tp == np.tp)
    ensures FoldUnary(np) == np.left.left
    ensures Step(np) == if np.left.left.Node? then Folded(np.left.left) else Nil
  {
    hide Folded;
  }

  /** A constant condition selects its branch. */
  lemma {:induction false} BranchSelected(np: Node)
    requires Ok(np) && np.op == OASK && Constant(np.left)
    ensures np.right.Node?
    ensures Step(np) == if np.left.sym.u == 0 then np.right.right else np.right.left
  {
    hide Ok, CmpNode;
    OkAsk(np);
    OkTyped(np.left);
    ConstantLeaf(np.left);
    CmpNodeMeans(np.left);
  }
}
