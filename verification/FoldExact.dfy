/** Exactly when one turn of the simplifier's loop keeps the value and the effects of a
    node, and what the failing arms need to fail. */
module FoldExact {
  import opened Bits
  import opened Cc1Tree
  import opened FoldArith
  import opened Fold
  import opened FoldMeaning
  import opened FoldForms
  import opened FoldConstants
  import opened FoldProofs
  import opened FoldTheorem

  /** What the three failing arms need of the run: the operands of a swapped comparison
      differ; x % 1 is never kept; the dropped shift count had no effects. */
  predicate Faithful(np: Node, env: World, t: seq<Event>)
    requires Ok(np)
  {
    if ConstantFirst(np) then
      Eval(np.right, env, t).Val? && np.left.sym.Lit? ==> Eval(np.right, env, t).v != np.left.sym.u
    else if ModOne(np) then false
    else if ZeroShift(np) then After(np.right, env, t) == t
    else true
  }

  /** A comparison with the constant first, after a turn. */
  lemma SwapTurn(np: Node)
    requires ConstantFirst(np)
    ensures Step(np) == np.(op := NegOp(np.op), left := np.right, right := np.left)
  {
    hide CmpNode, FoldConst;
    var c := np.(op := NegOp(np.op), left := np.right, right := np.left);
    assert Commuted(np) == c && Associated(c) == c && Folded(c) == c && Identity(c) == c && Reduced(c) == c;
    hide Commuted, Associated, Folded, Identity, Reduced;
  }

  lemma ModOneTurn(np: Node)
    requires ModOne(np)
    ensures Step(np) == np.(op := OCOMMA)
  {
    hide CmpNode, FoldConst, Power2Node;
    ModOneNotZero(np.right);
    assert Commuted(np) == np && Associated(np) == np && Folded(np) == np && Identity(np) == np.(op := OCOMMA);
    hide Commuted, Associated, Folded, Identity;
  }

  /** `cmpnode` with 1 implies a constant node. */
  lemma ModOneNotZero(np: Node)
    requires CmpNode(np, 1)
    ensures np.Node? && np.nconst
  {
  }

  lemma ZeroShiftTurn(np: Node)
    requires ZeroShift(np) && np.right.Node? && !np.right.nconst && np.left.op == OSYM
    ensures Step(np) == np.left
  {
    hide CmpNode, FoldConst;
    assert Commuted(np) == np && Associated(np) == np && Folded(np) == np && Identity(np) == np.left && Reduced(np.left) == np.left;
    hide Commuted, Associated, Folded, Identity, Reduced;
  }

  /** One turn at a node keeps its value and its effects if and only if no failing arm
      fires, or the run happens to suit it. */
  lemma {:induction false} StepExact(np: Node, env: World, t: seq<Event>)
    requires Ok(np) && Eval(np, env, t).Val?
    ensures Eval(Step(np), env, t) == Eval(np, env, t) <==> Faithful(np, env, t)
  {
    hide Ok, Eval, Truth, Step, CmpNode, Quiet, ConstantFirst, Constant;
    if ConstantFirst(np) {
      SwapExact(np, env, t);
    } else if ModOne(np) {
      ModOneExact(np, env, t);
    } else if ZeroShift(np) {
      ZeroShiftExact(np, env, t);
    } else {
      StepKeeps(np, env, t);
    }
  }

  /** The arm for comparisons negates the operator where it should mirror it. */
  lemma {:induction false} SwapExact(np: Node, env: World, t: seq<Event>)
    requires Ok(np) && ConstantFirst(np) && Eval(np, env, t).Val?
    ensures Eval(np.right, env, t).Val? && Constant(np.left)
    ensures Eval(Step(np), env, t) == Eval(np, env, t) <==> Eval(np.right, env, t).v != np.left.sym.u
  {
    hide Ok, Eval, Truth, Step, Width, Constant;
    SwapTurn(np);
    var c := Step(np);
    OkBinary(np);
    OkBinary(c);
    EvalBinary(np, env, t);
    EvalBinary(c, env, t);
    ConstantChild(np.left);
    ConstantEval(np.left, env, t);
    ConstantEval(np.left, env, After(np.right, env, t));
  }

  lemma {:induction false} ModOneExact(np: Node, env: World, t: seq<Event>)
    requires Ok(np) && ModOne(np) && Eval(np, env, t).Val?
    ensures Eval(np, env, t).v == 0 && Eval(Step(np), env, t) == Val(1, Eval(np, env, t).t)
  {
    hide Ok, Eval, Truth, Step, Width, CmpNode, Constant;
    ModOneTurn(np);
    OkBinary(np);
    CmpOk(np.right);
    EvalBinary(np, env, t);
    EvalComma(Step(np), env, t);
    ConstantEval(np.right, env, After(np.left, env, t));
  }

  lemma {:induction false} ZeroShiftExact(np: Node, env: World, t: seq<Event>)
    requires Ok(np) && ZeroShift(np) && Eval(np, env, t).Val? && !ConstantFirst(np) && !ModOne(np)
    ensures Eval(Step(np), env, t) == Eval(np, env, t) <==> After(np.right, env, t) == t
  {
    hide Ok, Eval, Truth, Step, Width, CmpNode, Constant, Quiet, ConstantFirst, BinaryMeaning, Pow2;
    OkBinary(np);
    CmpOk(np.left);
    if np.right.nconst {
      ConstantChild(np.right);
      ConstantEval(np.right, env, t);
      ConstantQuiet(np.right);
      StepKeeps(np, env, t);
    } else {
      ZeroShiftTurn(np);
      EvalBinary(np, env, t);
      ConstantEval(np.left, env, t);
      UnitsOfOperators(np.op, Width(np.tp), 0, Eval(np.right, env, t).v);
    }
  }

  lemma ConstantQuiet(np: Node)
    requires Constant(np)
    ensures Quiet(np)
  {
  }

  /** A node whose turn is the last one. */
  lemma OneTurn(np: Node)
    requires np.Node? && Simplify(np.left) == np.left && Simplify(np.right) == np.right
    requires Step(np).Node? && Step(np).op != np.op && Step(Step(np)) == Step(np)
    ensures Simplify(np) == Step(np)
  {
    hide Step;
    assert np.(left := Simplify(np.left), right := Simplify(np.right)) == np;
    RepeatStays(Step(np));
  }

  lemma RepeatStays(np: Node)
    requires np.Node? && Step(np) == np
    ensures Repeat(np) == np
  {
    hide Step;
  }

  /** A node that the turn leaves as it is. */
  lemma NoTurn(np: Node)
    requires np.Node? && Simplify(np.left) == np.left && Simplify(np.right) == np.right && Step(np) == np
    ensures Simplify(np) == np
  {
    hide Step;
    assert np.(left := Simplify(np.left), right := Simplify(np.right)) == np;
  }

  lemma LeafStays(np: Node)
    requires np.Node? && np.op == OSYM && np.left.Nil? && np.right.Nil?
    ensures Simplify(np) == np
  {
    hide Simplify;
    NilSimplified();
    NoTurn(np);
  }

  /** An operator over a variable and a constant on its right that no arm touches. */
  lemma PairStays(np: Node)
    requires np.Node? && (Compares(np.op) || np.op == OCOMMA)
    requires np.left.Node? && !np.left.nconst && np.right.Node? && np.right.nconst
    ensures Step(np) == np
  {
    hide CmpNode, FoldConst, Power2Node;
    assert Commuted(np) == np && Associated(np) == np && Folded(np) == np && Identity(np) == np && Reduced(np) == np;
    hide Commuted, Associated, Folded, Identity, Reduced;
  }

  lemma SwapSimplified(np: Node)
    requires Ok(np) && ConstantFirst(np) && Variable(np.right)
    ensures Simplify(np) == Step(np)
  {
    hide Ok, Truth, Step, Constant, Simplify;
    OkBinary(np);
    ConstantChild(np.left);
    ConstantLeaf(np.left);
    LeafStays(np.left);
    LeafStays(np.right);
    SwapTurn(np);
    PairStays(Step(np));
    OneTurn(np);
  }

  lemma ConstantLeaf(np: Node)
    requires Constant(np)
    ensures np.op == OSYM && np.nconst && np.left.Nil? && np.right.Nil?
  {
  }

  lemma ModOneSimplified(np: Node)
    requires Ok(np) && ModOne(np) && Variable(np.left)
    ensures Simplify(np) == Step(np)
  {
    hide Ok, Truth, Step, Constant, Simplify, CmpNode;
    OkBinary(np);
    CmpOk(np.right);
    ConstantLeaf(np.right);
    LeafStays(np.left);
    LeafStays(np.right);
    ModOneTurn(np);
    PairStays(Step(np));
    OneTurn(np);
  }

  /** Every comparison of a variable with a constant on its left is broken by the turn in
      some run: when the variable holds the constant. */
  lemma {:induction false} SwapFails(np: Node, t: seq<Event>)
    requires Ok(np) && ConstantFirst(np) && Variable(np.right)
    ensures exists env: World ::
              Eval(np, env, t).Val? && Eval(Simplify(np), env, t).Val? && Eval(Simplify(np), env, t) != Eval(np, env, t)
  {
    hide Ok, Truth, Step, Constant, Eval, Width, Range, Simplify;
    SwapSimplified(np);
    OkBinary(np);
    ConstantChild(np.left);
    var u := np.left.sym.u;
    var env: World := (_, _) => u;
    ConstantBelowRange(np.left);
    VariableEval(np.right, env, t);
    SmallMod(u, Range(np.right.tp));
    EvalBinary(np, env, t);
    ConstantEval(np.left, env, t);
    SwapExact(np, env, t);
    SwapTurn(np);
    EvalBinary(Step(np), env, t);
  }

  /** x % 1 of a variable is broken by the turn in every run. */
  lemma {:induction false} ModOneFails(np: Node, env: World, t: seq<Event>)
    requires Ok(np) && ModOne(np) && Variable(np.left)
    ensures Eval(np, env, t).Val? && Eval(Simplify(np), env, t) != Eval(np, env, t)
  {
    hide Ok, Truth, Step, CmpNode, Constant, Eval, Width, Range, BinaryMeaning, Simplify;
    ModOneSimplified(np);
    OkBinary(np);
    CmpOk(np.right);
    VariableEval(np.left, env, t);
    EvalBinary(np, env, t);
    ConstantEval(np.right, env, After(np.left, env, t));
    ModByOne(Width(np.tp), Eval(np.left, env, t).v);
    ModOneExact(np, env, t);
  }

  lemma ModByOne(w: nat, a: nat)
    ensures BinaryMeaning(OMOD, w, a, 1).Some?
  {
  }

  /** 0 << (v = 0): the turn drops the assignment. */
  function ShiftByAssignment(tp: Type, v: Sym): Node {
    var zero := ConstNode(Lit(0, tp, true));
    NewNode(OSHL, tp, zero, NewNode(OASSIGN, tp, Node(OSYM, false, tp, v, Nil, Nil), zero))
  }

  lemma ShiftByAssignmentOk(tp: Type, v: Sym)
    requires Unsigned(tp) && v.Var?
    ensures var np := ShiftByAssignment(tp, v); Ok(np) && ZeroShift(np) && !ConstantFirst(np) && !ModOne(np)
  {
    hide BitAnd, Pow2, Ones, Range;
    var np := ShiftByAssignment(tp, v);
    RangePositive(tp);
    assert Constant(np.left) && Variable(np.right.left);
    assert Ok(np.left);
    assert Ok(np.right);
  }

  lemma ShiftByAssignmentMeans(tp: Type, v: Sym, env: World, t: seq<Event>)
    requires Unsigned(tp) && v.Var?
    ensures var np := ShiftByAssignment(tp, v);
            && Eval(np.right, env, t) == Val(0, t + [Stored(v.id, 0)]) && After(np.right, env, t) == t + [Stored(v.id, 0)]
            && Eval(np, env, t).Val?
  {
    hide BitAnd, Pow2, Range, BinaryMeaning;
    var np := ShiftByAssignment(tp, v);
    assert Eval(np.right.right, env, t) == Val(0, t);
    assert Eval(np.left, env, t) == Val(0, t);
    ShiftDefined(Width(tp));
  }

  lemma ShiftDefined(w: nat)
    requires w > 0
    ensures BinaryMeaning(OSHL, w, 0, 0).Some?
  {
  }

  lemma ZeroShiftSimplified(tp: Type, v: Sym)
    requires Unsigned(tp) && v.Var?
    ensures var np := ShiftByAssignment(tp, v); Simplify(np) == Step(np)
  {
    hide Ok, Truth, Simplify, DefaultTurn, ZeroShift;
    var np := ShiftByAssignment(tp, v);
    ShiftByAssignmentOk(tp, v);
    LeafStays(np.left);
    LeafStays(np.right.left);
    LeafStays(np.right.right);
    NoTurn(np.right);
    ZeroShiftTurn(np);
    OneTurn(np);
  }

  lemma {:induction false} ZeroShiftFails(tp: Type, v: Sym, env: World, t: seq<Event>)
    requires Unsigned(tp) && v.Var?
    ensures var np := ShiftByAssignment(tp, v);
            Ok(np) && Eval(np, env, t).Val? && Eval(Simplify(np), env, t) != Eval(np, env, t)
  {
    hide Step, Ok, Eval, ZeroShift, ConstantFirst, ModOne, Simplify;
    var np := ShiftByAssignment(tp, v);
    ZeroShiftSimplified(tp, v);
    ShiftByAssignmentOk(tp, v);
    ShiftByAssignmentMeans(tp, v, env, t);
    assert |t + [Stored(v.id, 0)]| != |t|;
    ZeroShiftExact(np, env, t);
  }

  lemma ConstantBelowRange(np: Node)
    requires Constant(np)
    ensures np.sym.u < Range(np.tp)
  {
  }

  /** For signed operands x & 2^n - 1 is x % 2^n exactly when x is not negative or the
      remainder is 0: C's remainder takes the sign of x. */
  lemma {:induction false} SignedRemainderExact(x: int, k: nat)
    requires TINT_MIN <= x < -TINT_MIN && k < 63
    ensures BitAnd(Pattern(x), Pow2(k) - 1) == Pattern(Rem(x, Pow2(k))) <==> x >= 0 || Mod(x, Pow2(k)) == 0
  {
    var m := Pow2(k);
    BitAndOnes(Pattern(x), k);
    WordMultiple(k);
    ModMod(x, m, Pow2(64 - k));
    assert m * Pow2(64 - k) == WORD;
    assert BitAnd(Pattern(x), m - 1) == Mod(x, m);
    Pow2Smaller(k);
    hide BitAnd, Pow2;
    if x >= 0 {
      RemOfNatural(x, m);
      SmallMod(Mod(x, m), WORD);
    } else {
      RemOfNegative(x, m);
      if Mod(x, m) != 0 {
        ModUnique(Rem(x, m), WORD, -1, WORD + Rem(x, m));
      } else {
        SmallMod(0, WORD);
      }
    }
  }

  /** The arm on a node of a signed type: the mask it leaves is right for a value of the
      left operand exactly under that condition. */
  lemma {:induction false} ReducedSignedExact(np: Node, x: int)
    requires np.Node? && np.op == OMOD && Power2Node(np.right) && np.right.sym.u < -TINT_MIN && TINT_MIN <= x < -TINT_MIN
    ensures var r, c := Reduced(np), np.right.sym.u;
            && r.op == OBAND && r.left == np.left && r.tp == np.tp && r.right.sym.Lit? && c > 0
            && (BitAnd(Pattern(x), r.right.sym.u) == Pattern(Rem(x, c)) <==> x >= 0 || Mod(x, c) == 0)
  {
    hide BitAnd, Pow2, PopCount, Pattern, Rem, Mod;
    var c := np.right.sym.u;
    var k := Exponent(c);
    HalfWord();
    Pow2Below(k, 63);
    SmallMod(c - 1, WORD);
    SignedRemainderExact(x, k);
  }

  lemma HalfWord()
    ensures Pow2(63) == -TINT_MIN
  {
    Pow2Values();
    assert Pow2(64) == 2 * Pow2(63);
  }

  lemma {:induction false} Pow2Below(k: nat, n: nat)
    requires Pow2(k) < Pow2(n)
    ensures k < n
  {
    if k > 0 && n > 0 {
      Pow2Below(k - 1, n - 1);
    }
  }

  lemma WordMultiple(k: nat)
    requires k < 63
    ensures Pow2(k) * Pow2(64 - k) == WORD && Pow2(64 - k) > 0
  {
    Pow2Values();
    Pow2Add(k, 64 - k);
    hide Pow2;
  }

  lemma {:induction false} Pow2Smaller(k: nat)
    requires k < 63
    ensures 2 * Pow2(k) < WORD
    decreases 63 - k
  {
    if k == 62 {
      Pow2Values();
      assert Pow2(64) == 2 * Pow2(63) && Pow2(63) == 2 * Pow2(62);
    } else {
      Pow2Smaller(k + 1);
    }
  }

  lemma RemOfNatural(x: nat, m: nat)
    requires m > 0
    ensures Rem(x, m) == Mod(x, m)
  {
  }

  lemma RemOfNegative(x: int, m: nat)
    requires m > 0 && x < 0
    ensures Mod(x, m) == 0 ==> Rem(x, m) == 0
    ensures Mod(x, m) != 0 ==> Rem(x, m) == Mod(x, m) - m
  {
    var q, r := x / m, x % m;
    assert x == m * q + r;
    assert m * -q == -(m * q);
    if r == 0 {
      ModUnique(-x, m, -q, 0);
    } else {
      assert m * (-q - 1) == -(m * q) - m;
      ModUnique(-x, m, -q - 1, m - r);
    }
  }

  /** A constant read in a narrow signed type: its low bits, with their sign extended. */
  function Narrowed(tp: Type, u: nat): int
    requires tp.size > 0
  {
    var low := Mod(u, Range(tp));
    if low < Pow2(8 * tp.size - 1) then low else low - Range(tp)
  }

  /** A cast to a narrow signed type is right exactly when the sign bit is set or there is
      nothing above the type: the bits above stay when the sign bit is clear. */
  lemma {:induction false} NarrowingExact(tp: Type, u: nat)
    requires SignedInt(tp) && tp.size < 8 && u < WORD
    ensures CastPattern(tp, u) == Pattern(Narrowed(tp, u))
            <==> u < Range(tp) || Mod(u, Range(tp)) >= Pow2(8 * tp.size - 1)
  {
    hide CastPattern, Narrowed, Range, Pow2, Pattern, Mod;
    RangeParts(tp);
    CastNarrows(tp, u);
    NarrowedPattern(tp, u);
    RemainderOfLarge(u, Range(tp));
    if u < Range(tp) {
      SmallMod(u, Range(tp));
    }
  }

  lemma RemainderOfLarge(u: nat, r: nat)
    requires r > 0
    ensures Mod(u, r) < r
  {
  }

  lemma CastNarrows(tp: Type, u: nat)
    requires SignedInt(tp) && tp.size < 8 && u < WORD && Range(tp) > 0
    ensures CastPattern(tp, u) == if Mod(u, Range(tp)) >= Pow2(8 * tp.size - 1) then WORD - Range(tp) + Mod(u, Range(tp)) else u
  {
    hide CastPattern, BitOr, Range, Pow2, Div, Mod;
    var w := 8 * tp.size;
    RangeParts(tp);
    SignBit(u, Pow2(w - 1));
    OrHigh(u, w, 64);
    CastForm(tp, u);
    SmallMod(WORD - Range(tp), WORD);
  }

  lemma CastForm(tp: Type, u: nat)
    requires SignedInt(tp) && tp.size < 8
    ensures CastPattern(tp, u) == if Div(u, Pow2(8 * tp.size - 1)) % 2 == 1 then BitOr(u, Mod(WORD - Range(tp), WORD)) else u
  {
    hide BitOr, Pow2, Div;
  }

  lemma NarrowedPattern(tp: Type, u: nat)
    requires SignedInt(tp) && tp.size < 8 && u < WORD && Range(tp) > 0
    ensures Pattern(Narrowed(tp, u)) ==
            if Mod(u, Range(tp)) >= Pow2(8 * tp.size - 1) then WORD - Range(tp) + Mod(u, Range(tp)) else Mod(u, Range(tp))
  {
    hide Pow2, Range;
    RangeParts(tp);
    var low: int, r := Mod(u, Range(tp)), Range(tp);
    if low >= Pow2(8 * tp.size - 1) {
      ModUnique(low - r, WORD, -1, WORD + low - r);
    } else {
      SmallMod(low, WORD);
    }
  }

  lemma RangeParts(tp: Type)
    requires SignedInt(tp) && tp.size < 8
    ensures Range(tp) == 2 * Pow2(8 * tp.size - 1) == Pow2(8 * tp.size) && Range(tp) < WORD == Pow2(64)
  {
    Pow2Values();
    RangePositive(tp);
  }

  /** The highest bit of the low part. */
  lemma SignBit(u: nat, h: nat)
    requires h > 0
    ensures Div(u, h) % 2 == 1 <==> Mod(u, 2 * h) >= h
  {
    var q, r := u / h, u % h;
    var k, odd := q / 2, q % 2;
    assert u == h * q + r;
    DoubledQuotient(h, k, odd);
    ModUnique(u, 2 * h, k, h * odd + r);
  }

  lemma DoubledQuotient(h: nat, k: nat, odd: nat)
    requires odd <= 1
    ensures h * (2 * k + odd) == 2 * h * k + h * odd && h * odd == (if odd == 0 then 0 else h)
  {
  }

  /** Setting the bits from w up to n. */
  lemma {:induction false} OrHigh(u: nat, w: nat, n: nat)
    requires w <= n && u < Pow2(n)
    ensures Pow2(w) <= Pow2(n) && BitOr(u, Pow2(n) - Pow2(w)) == Pow2(n) - Pow2(w) + Mod(u, Pow2(w))
  {
    if w == n {
      SmallMod(u, Pow2(n));
      BitOrCommutes(u, 0);
    } else if w == 0 {
      OrOnes(u, n);
      ModUnique(u, 1, u, 0);
    } else {
      OrHigh(u / 2, w - 1, n - 1);
      OrHighStep(u, Pow2(n - 1), Pow2(w - 1));
    }
  }

  lemma ModHalves(x: nat, p: nat)
    requires p > 0
    ensures Mod(x, 2 * p) == x % 2 + 2 * Mod(x / 2, p)
  {
    ModHalf(x, p);
  }

  lemma OrHighStep(u: nat, p: nat, q: nat)
    requires p >= q > 0 && BitOr(u / 2, p - q) == p - q + Mod(u / 2, q)
    ensures BitOr(u, 2 * p - 2 * q) == 2 * p - 2 * q + Mod(u, 2 * q)
  {
    hide BitOr, Mod;
    BitOrStep(u, 2 * p - 2 * q);
    ModHalves(u, q);
    assert (2 * p - 2 * q) / 2 == p - q && (2 * p - 2 * q) % 2 == 0;
    Halves(BitOr(u, 2 * p - 2 * q), 2 * p - 2 * q + (u % 2 + 2 * Mod(u / 2, q)));
  }

  lemma {:induction false} OrOnes(u: nat, n: nat)
    requires u < Pow2(n)
    ensures BitOr(u, Pow2(n) - 1) == Pow2(n) - 1
  {
    if n > 0 {
      OrOnes(u / 2, n - 1);
      var p := Pow2(n - 1);
      BitOrStep(u, 2 * p - 1);
      hide BitOr;
      assert (2 * p - 1) / 2 == p - 1;
      Halves(BitOr(u, 2 * p - 1), 2 * p - 1);
    } else {
      BitOrCommutes(u, 0);
    }
  }
}
