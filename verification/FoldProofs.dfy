/** Each arm of the simplifier keeps types, meaning and side effects. */
module FoldProofs {
  import opened Bits
  import opened Cc1Tree
  import opened FoldArith
  import opened Fold
  import opened Wrappers
  import opened FoldMeaning
  import opened FoldForms
  import opened FoldConstants

  /** `b` can stand where `a` stood. */
  predicate Keeps(a: Node, b: Node)
    requires a.Node?
  {
    Ok(b) && b.tp == a.tp && (Truth(a) ==> Truth(b))
  }

  /** Wherever `a` has a meaning, `b` has the same value and the same effects in the same
      order. */
  predicate Means(a: Node, b: Node, env: World, t: seq<Event>) {
    Eval(a, env, t).Val? ==> Eval(b, env, t) == Eval(a, env, t)
  }

  lemma LiteralOk(u: nat, tp: Type)
    requires (Unsigned(tp) && u < Range(tp)) || (Signed(tp) && u <= 1)
    ensures var c := ConstNode(Lit(u, tp, true)); Ok(c) && Constant(c) && (u <= 1 ==> Truth(c))
  {
    RangePositive(tp);
  }

  lemma ConstantChild(np: Node)
    requires Ok(np) && np.nconst
    ensures Constant(np) && (Signed(np.tp) ==> np.sym.u <= 1)
  {
  }

  /** The constants under a node that gets folded, as numbers. */
  function First(np: Node): nat
    requires np.Node? && Constant(np.left)
  {
    np.left.sym.u
  }

  function Second(np: Node): nat
    requires np.Node? && (np.right.Nil? || Constant(np.right))
  {
    if np.right.Node? then np.right.sym.u else 0
  }

  predicate OverConstants(np: Node) {
    np.Node? && np.op != OSYM && Constant(np.left) && (np.right.Nil? || Constant(np.right))
  }

  function Outcome(np: Node): Option<nat>
    requires OverConstants(np)
  {
    if np.left.tp.signed then FoldInt(np.op, np.tp, AsSigned(First(np)), AsSigned(Second(np)))
    else FoldUInt(np.op, np.tp, First(np), Second(np))
  }

  /** A node of the model is folded over constants only, to the outcome of its operator. */
  lemma FoldedIs(np: Node)
    requires Ok(np) && np.op != OSYM
    ensures Folded(np) == np
            || (OverConstants(np) && Outcome(np).Some? && Folded(np) == ConstNode(Lit(Outcome(np).value, np.tp, true)))
  {
    hide FoldUInt, FoldInt, CmpNode;
    if Folded(np) != np {
      OperandsOk(np);
      hide Ok;
      ConstantChild(np.left);
      if np.right.Node? {
        ConstantChild(np.right);
      }
    }
  }

  /** The operands of a node that may be folded. */
  lemma OperandsOk(np: Node)
    requires Ok(np) && np.op != OSYM && np.left.Node? && np.left.nconst && (np.right.Node? ==> np.right.nconst)
    ensures Ok(np.left) && (np.right.Node? ==> Ok(np.right)) && !np.nconst
    ensures np.op in {OSNEG, OCPL, ONEG, OCAST} <==> np.right.Nil?
    ensures Computes(np.op) || Compares(np.op) || np.op in {OSNEG, OCPL, ONEG, OCAST, OAND, OOR, OCOMMA}
  {
  }

  lemma OperandTypes(np: Node)
    requires Ok(np)
    ensures Computes(np.op) || Compares(np.op) || np.op in {OSNEG, OCPL, ONEG, OAND, OOR} ==> np.left.Node? && np.left.tp == np.tp
    ensures Computes(np.op) || Compares(np.op) || np.op in {OAND, OOR} ==> np.right.Node? && np.right.tp == np.tp
    ensures Computes(np.op) || np.op in {OSNEG, OCPL} ==> Unsigned(np.tp)
    ensures np.op in {OAND, OOR, ONEG} ==> Signed(np.tp)
    ensures Unsigned(np.tp) || Signed(np.tp)
  {
  }

  /** The value of a node over constants. */
  lemma EvalOverConstants(np: Node, env: World, t: seq<Event>)
    requires OverConstants(np)
    ensures np.op in {OSNEG, OCPL, ONEG} ==> Eval(np, env, t) == Val(UnaryMeaning(np.op, Range(np.tp), First(np)), t)
    ensures (Computes(np.op) || Compares(np.op)) && np.right.Node? ==>
              Eval(np, env, t) == match BinaryMeaning(np.op, Width(np.tp), First(np), Second(np))
                                  case None => Undef
                                  case Some(v) => Val(v, t)
  {
    hide BinaryMeaning, UnaryMeaning, Range, Ok;
    assert Eval(np.left, env, t) == Val(First(np), t);
    assert np.right.Node? ==> Eval(np.right, env, t) == Val(Second(np), t);
  }

  lemma LogicOverConstants(np: Node, env: World, t: seq<Event>)
    requires OverConstants(np) && np.op in {OAND, OOR} && np.right.Node?
    ensures Eval(np, env, t) == Val(Bool(if np.op == OAND then First(np) != 0 && Second(np) != 0
                                         else First(np) != 0 || Second(np) != 0), t)
  {
    hide BinaryMeaning, UnaryMeaning, Range, Ok;
    assert Eval(np.left, env, t) == Val(First(np), t);
    assert Eval(np.right, env, t) == Val(Second(np), t);
  }

  /** The outcome of folding is in range, and it is what the node means. */
  lemma OutcomeMeans(np: Node, env: World, t: seq<Event>)
    requires Ok(np) && OverConstants(np) && Outcome(np).Some?
    ensures np.op !in {OCAST, OCOMMA}
    ensures Unsigned(np.tp) ==> Outcome(np).value < Range(np.tp)
    ensures Signed(np.tp) || Compares(np.op) ==> Outcome(np).value <= 1
    ensures Eval(np, env, t).Val? ==> Eval(np, env, t) == Val(Outcome(np).value, t)
  {
    OperandsOk(np);
    OperandTypes(np);
    ConstantChild(np.left);
    if np.right.Node? {
      ConstantChild(np.right);
    }
    RangePositive(np.tp);
    CommaNotFolded(np.op, np.tp, First(np), Second(np));
    hide FoldUInt, FoldInt, Ok, Eval, BinaryMeaning, UnaryMeaning, Range;
    var op, tp, a, b := np.op, np.tp, First(np), Second(np);
    if op in {OSNEG, OCPL} {
      EvalOverConstants(np, env, t);
      FoldUnaryMeans(op, tp, a);
      UnaryInRange(op, Range(tp), a);
    } else if op == ONEG {
      EvalOverConstants(np, env, t);
      FoldIntLogic(op, tp, a, b);
      NegationMeans(Range(tp), a);
    } else if op in {OAND, OOR} {
      LogicOverConstants(np, env, t);
      FoldIntLogic(op, tp, a, b);
    } else if tp.signed {
      EvalOverConstants(np, env, t);
      FoldIntCompares(op, tp, a, b);
      TruthInRange(op, Width(tp), a, b);
    } else {
      EvalOverConstants(np, env, t);
      FoldUIntInRange(op, tp, a, b);
      if BinaryMeaning(op, Width(tp), a, b).Some? {
        FoldUIntMeans(op, tp, a, b);
      }
    }
  }

  lemma NegationMeans(w: nat, a: nat)
    requires w > 0
    ensures UnaryMeaning(ONEG, w, a) == Bool(a == 0)
  {
  }

  lemma IntegerType(np: Node)
    requires Ok(np)
    ensures np.tp.kind == INT
  {
    hide Truth, Constant, Variable, OkColon, OkArgs;
  }

  lemma LeftOperand(np: Node)
    requires Ok(np)
    ensures Ok(np.left) || np.left.Nil? || !np.left.nconst
  {
    hide Truth, Unsigned, Signed, OkColon, OkArgs;
  }

  /** No tree of the model makes the fold abort. */
  lemma {:induction false} NeverAborts(np: Node)
    requires Ok(np)
    ensures !FoldAborts(np)
  {
    hide CmpNode, Ok;
    LeftOperand(np);
    if Ok(np.left) {
      IntegerType(np.left);
    }
  }

  /** Folding a node over constants. */
  lemma {:induction false} FoldedKeeps(np: Node, env: World, t: seq<Event>)
    requires Ok(np) && np.op != OSYM
    ensures Keeps(np, Folded(np)) && Means(np, Folded(np), env, t)
    ensures Folded(np) == np || Constant(Folded(np))
  {
    FoldedIs(np);
    if Folded(np) != np {
      OutcomeMeans(np, env, t);
      OperandsOk(np);
      OperandTypes(np);
      LiteralOk(Outcome(np).value, np.tp);
      if Truth(np) {
        TruthForm(np);
      }
    }
    hide Folded, Outcome, Ok, Truth;
  }

  lemma TruthForm(np: Node)
    requires Ok(np) && OverConstants(np) && Truth(np) && np.op !in {OCAST, OCOMMA}
    ensures Signed(np.tp) || Compares(np.op)
  {
    OperandsOk(np);
    OperandTypes(np);
  }

  /** Moving a constant operand to the right. */
  lemma {:induction false} CommutedKeeps(np: Node, env: World, t: seq<Event>)
    requires Ok(np) && !ConstantFirst(np)
    ensures Keeps(np, Commuted(np)) && Means(np, Commuted(np), env, t)
    ensures Commuted(np) == np || Commuted(np) == np.(left := np.right, right := np.left)
    ensures Commuted(np) != np ==> np.op in {OEQ, ONE, OADD, OMUL, OBAND, OBXOR, OBOR}
  {
    hide Ok, Truth, Eval, BinaryMeaning, Width, Given, Constant;
    if Commuted(np) != np {
      var sw := np.(left := np.right, right := np.left);
      OkBinary(np);
      OkBinary(sw);
      EvalBinary(np, env, t);
      EvalBinary(sw, env, t);
      ConstantChild(np.left);
      ConstantEval(np.left, env, t);
      var b := Eval(np.right, env, t);
      if b.Val? {
        ConstantEval(np.left, env, b.t);
        OperatorCommutes(np.op, Width(np.tp), np.left.sym.u, b.v);
      }
    }
  }

  lemma OperatorCommutes(op: Op, bits: nat, a: nat, b: nat)
    requires op in {OEQ, ONE, OADD, OMUL, OBAND, OBXOR, OBOR}
    ensures BinaryMeaning(op, bits, a, b) == BinaryMeaning(op, bits, b, a)
  {
    BitAndCommutes(a, b);
    BitOrCommutes(a, b);
    BitXorCommutes(a, b);
    assert Times(a, b) == Times(b, a);
    hide BitAnd, BitOr, BitXor, Mod, Pow2, Times, Div;
  }

  /** (x op c) op y becomes x op (y op c). */
  predicate Regroups(np: Node) {
    && np.Node? && np.op in {OADD, OMUL, OBAND, OBXOR, OBOR}
    && np.left.Node? && np.op == np.left.op && np.left.right.Node? && np.left.right.op == OSYM
    && np.left.right.sym.Lit? && np.left.right.sym.constant
  }

  function Regrouped(np: Node): (g: Node)
    requires Regroups(np)
    ensures g.Node? && g.right.Node?
  {
    np.(left := np.left.left, right := np.left.(left := np.right))
  }

  function RightFolded(g: Node): (f: Node)
    requires g.Node? && g.right.Node?
    ensures f.Node?
  {
    g.(right := Folded(g.right))
  }

  lemma RegroupedOk(np: Node)
    requires Ok(np) && Regroups(np)
    ensures Constant(np.left.right) && Unsigned(np.tp) && np.left.tp == np.tp
    ensures Keeps(np, Regrouped(np)) && Ok(Regrouped(np).right) && Regrouped(np).right.tp == np.tp
  {
    OkBinary(np);
    OkBinary(np.left);
    OkBinary(Regrouped(np));
    OkBinary(Regrouped(np).right);
    assert Ok(np.left.right);
    LiteralLeaf(np.left.right);
    hide Ok, Truth;
  }

  lemma LiteralLeaf(np: Node)
    requires Ok(np) && np.op == OSYM && np.sym.Lit?
    ensures Constant(np)
  {
  }

  lemma RegroupedMeans(np: Node, env: World, t: seq<Event>)
    requires Ok(np) && Regroups(np)
    ensures Means(np, Regrouped(np), env, t)
  {
    hide Ok, Truth, Eval, BinaryMeaning, Keeps, Width, Constant;
    RegroupedOk(np);
    var op, c, bits, k, g := np.op, np.left.right, Width(np.tp), np.left.right.sym.u, Regrouped(np);
    EvalBinary(np, env, t);
    EvalBinary(np.left, env, t);
    EvalBinary(g, env, t);
    var a := Eval(np.left.left, env, t);
    if a.Val? {
      ConstantEval(c, env, a.t);
      EvalBinary(g.right, env, a.t);
      var b := Eval(np.right, env, a.t);
      if b.Val? {
        ConstantEval(c, env, b.t);
        OperatorAssociates(op, bits, a.v, b.v, k);
      } else {
        AlwaysDefined(op, bits, a.v, k);
      }
    }
  }

  lemma AlwaysDefined(op: Op, bits: nat, a: nat, b: nat)
    requires op in {OADD, OMUL, OBAND, OBXOR, OBOR}
    ensures BinaryMeaning(op, bits, a, b).Some?
  {
  }

  lemma OperatorAssociates(op: Op, bits: nat, a: nat, b: nat, c: nat)
    requires op in {OADD, OMUL, OBAND, OBXOR, OBOR}
    ensures AssociatesAt(op, bits, a, b, c)
  {
    if op in {OADD, OMUL} {
      SumAssociates(a, b, c, Pow2(bits));
      ProductAssociates(a, b, c, Pow2(bits));
      hide BitAnd, BitOr, BitXor, Mod, Pow2, Times, Div;
    } else {
      BitsAssociate(op, bits, a, b, c);
    }
  }

  lemma BitsAssociate(op: Op, bits: nat, a: nat, b: nat, c: nat)
    requires op in {OBAND, OBXOR, OBOR}
    ensures AssociatesAt(op, bits, a, b, c)
  {
    BitAndAssociates(a, c, b);
    BitOrAssociates(a, c, b);
    BitXorAssociates(a, c, b);
    BitAndCommutes(c, b);
    BitOrCommutes(c, b);
    BitXorCommutes(c, b);
    hide BitAnd, BitOr, BitXor, Mod, Pow2, Times, Div;
  }

  predicate AssociatesAt(op: Op, bits: nat, a: nat, b: nat, c: nat) {
    var ac, bc := BinaryMeaning(op, bits, a, c), BinaryMeaning(op, bits, b, c);
    && ac.Some? && bc.Some?
    && BinaryMeaning(op, bits, ac.value, b) == BinaryMeaning(op, bits, a, bc.value)
  }

  lemma ModSums(x: int, y: int, m: nat)
    requires m > 0
    ensures Mod(Mod(x, m) + y, m) == Mod(x + y, m) && Mod(x + Mod(y, m), m) == Mod(x + y, m)
  {
    ModAdd(x, y, m);
  }

  lemma SumAssociates(a: nat, b: nat, c: nat, w: nat)
    requires w > 0
    ensures Mod(Mod(a + c, w) + b, w) == Mod(a + Mod(b + c, w), w)
  {
    hide Mod;
    ModSums(a + c, b, w);
    ModSums(a, b + c, w);
    assert a + c + b == a + (b + c);
  }

  lemma ProductAssociates(a: nat, b: nat, c: nat, w: nat)
    requires w > 0
    ensures Mod(Times(Mod(Times(a, c), w), b), w) == Mod(Times(a, Mod(Times(b, c), w)), w)
  {
    ModMul(a * c, b, w);
    ModMul(a, b * c, w);
    assert a * c * b == a * (b * c);
  }

  /** Putting something as good in the place of the right operand. */
  lemma RightReplaced(np: Node, y: Node, env: World, t: seq<Event>)
    requires Ok(np) && np.op in {OADD, OMUL, OBAND, OBXOR, OBOR} && np.right.Node? && Keeps(np.right, y)
    requires var a := Eval(np.left, env, t); a.Val? ==> Means(np.right, y, env, a.t)
    ensures Keeps(np, np.(right := y)) && Means(np, np.(right := y), env, t)
  {
    hide Ok, BinaryMeaning, Truth, Eval, Width, Given;
    OkBinary(np);
    OkBinary(np.(right := y));
    EvalBinary(np, env, t);
    EvalBinary(np.(right := y), env, t);
  }

  /** Regrouping (x op c) op y as x op (y op c). */
  lemma {:induction false} AssociatedKeeps(np: Node, env: World, t: seq<Event>)
    requires Ok(np)
    ensures Keeps(np, Associated(np)) && Means(np, Associated(np), env, t) && Associated(np).op == np.op
    ensures Associated(np) == np
            || (Regroups(np) && Associated(np) == RightFolded(Regrouped(np))
                && (Associated(np).right == Regrouped(np).right || Constant(Associated(np).right)))
  {
    if Regroups(np) {
      var g := Regrouped(np);
      RegroupedOk(np);
      RegroupedMeans(np, env, t);
      hide Ok, Truth, Folded, Eval;
      FoldedKeeps(g.right, env, if Eval(g.left, env, t).Val? then Eval(g.left, env, t).t else t);
      RightReplaced(g, Folded(g.right), env, t);
    } else {
      hide Ok, Truth, Folded, Eval;
    }
  }

  /** What `cmpnode` finds of any node of the model. */
  lemma CmpOk(np: Node)
    requires Ok(np)
    ensures forall v :: CmpNode(np, v) ==> Constant(np)
    ensures CmpNode(np, 0) <==> Constant(np) && np.sym.u == 0
    ensures CmpNode(np, 1) <==> Constant(np) && np.sym.u == 1
    ensures CmpNode(np, WORD - 1) <==> Constant(np) && np.sym.u == Range(np.tp) - 1
    ensures Unsigned(np.tp) || Signed(np.tp)
  {
    hide Range;
    if np.nconst {
      ConstantChild(np);
      CmpNodeMeans(np);
    }
  }

  lemma {:induction false} IdentityLogic(np: Node, env: World, t: seq<Event>)
    requires Ok(np) && np.op in {OAND, OOR}
    ensures Keeps(np, Identity(np)) && Means(np, Identity(np), env, t)
  {
    hide Ok, Eval, Truth, CmpNode, Identity, Range;
    var l, r, c := np.left, np.right, np.(op := OCOMMA);
    OkLogic(np);
    OkTyped(l);
    OkTyped(r);
    OkComma(c);
    CmpOk(l);
    CmpOk(r);
    EvalLogic(np, env, t);
    EvalComma(c, env, t);
    LogicArms(np);
    var a := Eval(l, env, t);
    if Constant(l) {
      ConstantEval(l, env, t);
    }
    if a.Val? {
      EvalInRange(l, env, t);
      if Constant(r) {
        ConstantEval(r, env, a.t);
      }
      if Eval(r, env, a.t).Val? {
        EvalInRange(r, env, a.t);
      }
    }
  }

  /** The arms for `&&` and `||`. */
  lemma LogicArms(np: Node)
    requires np.Node? && np.op in {OAND, OOR} && np.right.Node?
    ensures var l0, l1, r0, r1 := CmpNode(np.left, 0), CmpNode(np.left, 1), CmpNode(np.right, 0), CmpNode(np.right, 1);
            Identity(np) ==
              if np.op == OOR then (if l1 || r0 then np.left else if l0 then np.right else if r1 then np.(op := OCOMMA) else np)
              else (if l0 || r1 then np.left else if l1 then np.right else if r0 then np.(op := OCOMMA) else np)
  {
    hide CmpNode;
  }

  /** The arms for arithmetic. */
  lemma ArithmeticArms(np: Node)
    requires np.Node? && Binary(np.op) && np.right.Node?
    ensures var l0, r0, r1 := CmpNode(np.left, 0), CmpNode(np.right, 0), CmpNode(np.right, 1);
            Identity(np) ==
              if np.op in {OSHL, OSHR} then (if r0 || l0 then np.left else np)
              else if np.op in {OBXOR, OADD, OBOR, OSUB} then (if r0 then np.left else np)
              else if np.op == OMUL then (if r0 then np.(op := OCOMMA) else if r1 then np.left else np)
              else if np.op == ODIV then (if r1 then np.left else np)
              else if np.op == OBAND then (if CmpNode(np.right, WORD - 1) then np.left else np)
              else if np.op == OMOD then (if r1 then np.(op := OCOMMA) else np)
              else np
  {
    hide CmpNode;
  }

  lemma {:induction false} IdentityArithmetic(np: Node, env: World, t: seq<Event>)
    requires Ok(np) && Binary(np.op)
    requires np.op == OMOD ==> !CmpNode(np.right, 1)
    requires np.op in {OSHL, OSHR} && CmpNode(np.left, 0) ==> Quiet(np.right)
    ensures Keeps(np, Identity(np)) && Means(np, Identity(np), env, t)
  {
    hide Ok, Eval, Truth, CmpNode, Identity, Range, BinaryMeaning, Quiet, Constant;
    var l, r, c := np.left, np.right, np.(op := OCOMMA);
    OkBinary(np);
    OkComma(c);
    CmpOk(l);
    CmpOk(r);
    ArithmeticArms(np);
    if Identity(np) == l {
      IdentityLeft(np, env, t);
    } else if Identity(np) == c {
      MulByZero(np, env, t);
    }
  }

  lemma IdentityLeft(np: Node, env: World, t: seq<Event>)
    requires Ok(np) && Binary(np.op) && Identity(np) == np.left
    requires np.op in {OSHL, OSHR} && CmpNode(np.left, 0) ==> Quiet(np.right)
    ensures Means(np, np.left, env, t)
  {
    hide Ok, Eval, Truth, CmpNode, Identity, Range, BinaryMeaning, Quiet, Width, Pow2;
    var l, r := np.left, np.right;
    OkBinary(np);
    CmpOk(l);
    CmpOk(r);
    EvalBinary(np, env, t);
    ArithmeticArms(np);
    LeftSmaller(np);
    RangeWidth(np.tp);
    var a := Eval(l, env, t);
    if a.Val? {
      EvalInRange(l, env, t);
      var b := Eval(r, env, a.t);
      if b.Val? {
        if Constant(l) {
          ConstantEval(l, env, t);
        }
        if Constant(r) {
          ConstantEval(r, env, a.t);
        }
        if Quiet(r) {
          QuietEval(r, env, a.t);
        }
        UnitsOfOperators(np.op, Width(np.tp), a.v, b.v);
      }
    }
  }

  lemma LeftSmaller(np: Node)
    requires np.Node?
    ensures np.left != np && (np.left.Node? ==> np.left != np.(op := OCOMMA))
  {
    assert np.left < np;
  }

  lemma MulByZero(np: Node, env: World, t: seq<Event>)
    requires Ok(np) && np.op == OMUL && CmpNode(np.right, 0)
    ensures Means(np, np.(op := OCOMMA), env, t)
  {
    hide Ok, Eval, Truth, CmpNode, Range, BinaryMeaning, Width, Pow2;
    OkBinary(np);
    CmpOk(np.right);
    EvalBinary(np, env, t);
    EvalComma(np.(op := OCOMMA), env, t);
    RangeWidth(np.tp);
    var a := Eval(np.left, env, t);
    if a.Val? {
      EvalInRange(np.left, env, t);
      ConstantEval(np.right, env, a.t);
      UnitsOfOperators(np.op, Width(np.tp), a.v, 0);
    }
  }

  /** Neutral and absorbing operands. */
  lemma UnitsOfOperators(op: Op, bits: nat, a: nat, b: nat)
    requires Binary(op) && a < Pow2(bits)
    ensures b == 0 && op in {OSHL, OSHR, OBXOR, OADD, OBOR, OSUB} && bits > 0 ==> BinaryMeaning(op, bits, a, b) == Some(a)
    ensures a == 0 && op in {OSHL, OSHR} && BinaryMeaning(op, bits, a, b).Some? ==> BinaryMeaning(op, bits, a, b) == Some(0)
    ensures b == 0 && op == OMUL ==> BinaryMeaning(op, bits, a, b) == Some(0)
    ensures b == 1 && op in {OMUL, ODIV} ==> BinaryMeaning(op, bits, a, b) == Some(a)
    ensures b == Pow2(bits) - 1 && op == OBAND ==> BinaryMeaning(op, bits, a, b) == Some(a)
  {
    SmallMod(a, Pow2(bits));
    SmallMod(0, Pow2(bits));
    BitAndOnes(a, bits);
    UnitsOfArithmetic(a, b);
    hide BitAnd, Mod, Times, Div, Pow2;
  }

  lemma UnitsOfArithmetic(a: nat, b: nat)
    ensures Times(a, 0) == 0 && Times(0, b) == 0 && Times(a, 1) == a && Div(a, 1) == a
    ensures Pow2(0) == 1 && (b > 0 ==> Div(0, b) == 0) && Div(0, Pow2(b)) == 0 && Times(0, Pow2(b)) == 0
    ensures BitXor(a, 0) == a && BitOr(a, 0) == a
  {
    DivBounds(a, 1);
    DivBounds(0, Pow2(b));
    if b > 0 {
      DivBounds(0, b);
    }
  }

  /** x % 2^n becomes x & 2^n - 1. */
  lemma {:induction false} ReducedKeeps(np: Node, env: World, t: seq<Event>)
    requires Ok(np)
    ensures Keeps(np, Reduced(np)) && Means(np, Reduced(np), env, t)
    ensures Reduced(np) != np ==> np.op == OMOD && Reduced(np) == Masked(np) && Constant(np.right) && Constant(Reduced(np).right)
  {
    if Reduced(np) != np {
      ReducedForm(np);
      var k := PowerNode(np.right);
      hide Reduced, Ok, Power2Node, Truth, Eval;
      MaskedKeeps(np, k);
      MaskedMeans(np, k, env, t);
    }
  }

  function Masked(np: Node): Node
    requires np.Node? && np.right.Node? && np.right.sym.Lit?
  {
    np.(op := OBAND, right := LessOne(np.right))
  }

  function LessOne(r: Node): Node
    requires r.Node? && r.sym.Lit?
  {
    r.(sym := r.sym.(u := (r.sym.u - 1) % WORD))
  }

  lemma ReducedForm(np: Node)
    requires Ok(np) && Reduced(np) != np
    ensures np.op == OMOD && Power2Node(np.right) && Constant(np.right) && Unsigned(np.right.tp) && Reduced(np) == Masked(np)
  {
    hide PopCount, Pow2;
    OkBinary(np);
    ConstantChild(np.right);
  }

  lemma PowerNode(r: Node) returns (k: nat)
    requires Power2Node(r)
    ensures r.sym.u == Pow2(k)
  {
    k := Exponent(r.sym.u);
  }

  lemma MaskedKeeps(np: Node, k: nat)
    requires Ok(np) && np.op == OMOD && Constant(np.right) && np.right.sym.u == Pow2(k)
    ensures Keeps(np, Masked(np)) && Constant(Masked(np).right) && Masked(np).right.sym.u == Pow2(k) - 1
  {
    hide Ok, Truth, Pow2, Range, Constant, Eval;
    OkBinary(np);
    OkBinary(Masked(np));
    LessOneOk(np.right);
  }

  lemma MaskedMeans(np: Node, k: nat, env: World, t: seq<Event>)
    requires np.Node? && np.right.Node? && np.right.sym.Lit?
    requires Ok(np) && np.op == OMOD && Constant(np.right) && np.right.sym.u == Pow2(k)
    ensures Means(np, Masked(np), env, t)
  {
    hide Keeps, LessOne, Ok, Truth, Pow2, Range, Eval, BinaryMeaning, Constant, Width, Given;
    MaskedKeeps(np, k);
    var m := Masked(np);
    EvalBinary(np, env, t);
    EvalBinary(m, env, t);
    var a := Eval(np.left, env, t);
    if a.Val? {
      ConstantEval(np.right, env, a.t);
      ConstantEval(m.right, env, a.t);
      MaskMeans(Width(np.tp), a.v, k);
    }
  }

  lemma MaskMeans(bits: nat, a: nat, k: nat)
    ensures BinaryMeaning(OMOD, bits, a, Pow2(k)) == BinaryMeaning(OBAND, bits, a, Pow2(k) - 1)
  {
    BitAndOnes(a, k);
    hide BitAnd, Pow2;
  }

  lemma LessOneOk(r: Node)
    requires Constant(r) && Ok(r) && r.sym.u >= 1 && Unsigned(r.tp)
    ensures var r' := r.(sym := r.sym.(u := (r.sym.u - 1) % WORD));
            Constant(r') && Ok(r') && r'.sym.u == r.sym.u - 1
  {
    RangePositive(r.tp);
    hide Range;
    ModUnique(r.sym.u - 1, WORD, 0, r.sym.u - 1);
  }

  /** Double negations and complements cancel; casts of constants are computed. */
  lemma {:induction false} FoldUnaryKeeps(np: Node, env: World, t: seq<Event>)
    requires Ok(np) && np.op in {OSNEG, OCPL, ONEG, OCAST}
    ensures Keeps(np, FoldUnary(np)) && Means(np, FoldUnary(np), env, t)
    ensures FoldUnary(np) == np || FoldUnary(np) == np.left.left || Constant(FoldUnary(np))
  {
    hide Ok, Eval, Truth, Range, UnaryMeaning, CastPattern;
    OkUnary(np);
    EvalUnary(np, env, t);
    var l, w := np.left, Range(np.tp);
    if np.op == OCAST {
      if FoldUnary(np) != np {
        ConstantChild(l);
        ConstantEval(l, env, t);
        if Truth(l) {
          TruthConstant(l);
        }
        CastMeans(np.tp, l.sym.u);
        LiteralOk(CastPattern(np.tp, l.sym.u), np.tp);
        ConstantEval(FoldUnary(np), env, t);
      }
    } else if l.op == np.op {
      OkUnary(l);
      OkTyped(l.left);
      EvalUnary(l, env, t);
      if Eval(l.left, env, t).Val? {
        EvalInRange(l.left, env, t);
        RangePositive(np.tp);
        DoubleNegation(np.op, w, Eval(l.left, env, t).v);
      }
    }
  }

  lemma TruthConstant(np: Node)
    requires Constant(np) && Truth(np)
    ensures np.sym.u <= 1
  {
  }

  lemma CastMeans(tp: Type, u: nat)
    requires Unsigned(tp) || (Signed(tp) && u <= 1)
    ensures CastPattern(tp, u) == UnaryMeaning(OCAST, Range(tp), u)
    ensures CastPattern(tp, u) < Range(tp) && (u <= 1 ==> CastPattern(tp, u) <= 1)
  {
    RangePositive(tp);
    OnesMask(u, tp);
    if u <= 1 {
      SmallMod(u, Range(tp));
    }
    if tp.signed {
      SignBitClear(u, 8 * tp.size - 1);
    }
    hide BitAnd, Mod, Pow2, BitOr, Range, Ones;
  }

  lemma SignBitClear(u: nat, n: nat)
    requires u <= 1 && n >= 1
    ensures Div(u, Pow2(n)) == 0
  {
    assert Pow2(n) == 2 * Pow2(n - 1);
    DivBounds(u, Pow2(n));
  }

  lemma DoubleNegation(op: Op, w: nat, a: nat)
    requires w > 1 && a < w && op in {OSNEG, OCPL, ONEG} && (op == ONEG ==> a <= 1)
    ensures UnaryMeaning(op, w, UnaryMeaning(op, w, a)) == a
  {
    NegateTwice(w, a);
    ComplementTwice(w, a);
    hide Mod;
  }

  lemma NegateTwice(w: nat, a: nat)
    requires w > 1 && a < w
    ensures Mod(0 - Mod(0 - a, w), w) == a
  {
    if a == 0 {
      ModUnique(0, w, 0, 0);
    } else {
      ModUnique(0 - a, w, -1, w - a);
      ModUnique(a - w, w, -1, a);
    }
  }

  lemma ComplementTwice(w: nat, a: nat)
    requires w > 1 && a < w
    ensures Mod(-1 - Mod(-1 - a, w), w) == a
  {
    ModUnique(-1 - a, w, -1, w - 1 - a);
    ModUnique(-1 - (w - 1 - a), w, -1, a);
  }

  /** A conditional with a constant condition is the branch it selects. */
  lemma {:induction false} FoldTernaryKeeps(np: Node, env: World, t: seq<Event>)
    requires Ok(np) && np.op == OASK
    ensures Keeps(np, FoldTernary(np)) && Means(np, FoldTernary(np), env, t)
    ensures FoldTernary(np) == np || (np.right.Node? && FoldTernary(np) in {np.right.left, np.right.right})
  {
    hide Eval, Truth, Ok, CmpNode;
    OkAsk(np);
    EvalAsk(np, env, t);
    if np.left.nconst {
      ConstantChild(np.left);
      ConstantEval(np.left, env, t);
      CmpOk(np.left);
    }
  }

  lemma CommaNotFolded(op: Op, tp: Type, a: nat, b: nat)
    ensures op in {OCOMMA, OCAST} ==>
              FoldUInt(op, tp, a, b).None? && FoldInt(op, tp, AsSigned(a), AsSigned(b)).None?
  {
    hide Quot, Rem, BitAnd, BitOr, BitXor, Pow2, Limits, Times, Floor, Mod, Div;
  }
}
