/** What `Ok`, `Truth` and `Eval` say at each form of node. */
module FoldForms {
  import opened Bits
  import opened Cc1Tree
  import opened Fold
  import opened Wrappers
  import opened FoldMeaning

  predicate Binary(op: Op) {
    Computes(op) || Compares(op)
  }

  predicate Unary(op: Op) {
    op in {OSNEG, OCPL, ONEG, OCAST}
  }

  function Given(v: Option<nat>, t: seq<Event>): Result {
    match v case None => Undef case Some(x) => Val(x, t)
  }

  lemma OkTyped(np: Node)
    requires Ok(np)
    ensures Unsigned(np.tp) || (Signed(np.tp) && Truth(np))
    ensures np.nconst ==> Constant(np)
  {
  }

  lemma OkLeaf(np: Node)
    requires np.Node? && np.op == OSYM
    ensures Ok(np) ==> np.left.Nil? && np.right.Nil? && (Constant(np) || (Variable(np) && Unsigned(np.tp) && !Truth(np)))
    ensures Ok(np) && Truth(np) ==> Constant(np) && np.sym.u <= 1
  {
  }

  lemma ConstantEval(np: Node, env: World, t: seq<Event>)
    requires Constant(np)
    ensures Eval(np, env, t) == Val(np.sym.u, t)
    ensures Truth(np) <==> np.sym.u <= 1
  {
  }

  lemma VariableEval(np: Node, env: World, t: seq<Event>)
    requires Variable(np)
    ensures Eval(np, env, t) == Val(env(t, np.sym.id) % Range(np.tp), t)
  {
    hide Range;
  }

  lemma OkUnary(np: Node)
    requires np.Node? && Unary(np.op)
    ensures Ok(np) <==>
              && !np.nconst && np.sym == NoSym && np.right.Nil? && Ok(np.left)
              && (if np.op == OCAST then Unsigned(np.tp) || (Signed(np.tp) && Truth(np.left))
                  else np.left.tp == np.tp && (if np.op == ONEG then Signed(np.tp) else Unsigned(np.tp)))
    ensures Truth(np) <==> np.op == ONEG || (np.op == OCAST && Truth(np.left))
  {
    hide Constant, Variable, Unsigned, Signed, OkColon, OkArgs;
  }

  lemma EvalUnary(np: Node, env: World, t: seq<Event>)
    requires np.Node? && Unary(np.op)
    ensures Eval(np, env, t) ==
            match Eval(np.left, env, t) case Undef => Undef case Val(a, t1) => Val(UnaryMeaning(np.op, Range(np.tp), a), t1)
  {
    hide BinaryMeaning, Ok, Truth, Range, Width, UnaryMeaning;
    assert !Assigns(np.op);
  }

  lemma OkBinary(np: Node)
    requires np.Node? && Binary(np.op)
    ensures Ok(np) <==>
              && (Unsigned(np.tp) || (Signed(np.tp) && Compares(np.op))) && !np.nconst && np.sym == NoSym
              && Ok(np.left) && Ok(np.right) && np.left.tp == np.tp && np.right.tp == np.tp
    ensures Truth(np) <==> Compares(np.op)
  {
    hide Constant, Variable, Unsigned, Signed, OkColon, OkArgs;
  }

  lemma EvalBinary(np: Node, env: World, t: seq<Event>)
    requires np.Node? && Binary(np.op)
    ensures Eval(np, env, t) ==
            match Eval(np.left, env, t)
            case Undef => Undef
            case Val(a, t1) =>
              match Eval(np.right, env, t1)
              case Undef => Undef
              case Val(b, t2) => Given(BinaryMeaning(np.op, Width(np.tp), a, b), t2)
  {
    hide BinaryMeaning, Ok, Truth, Range, Width, UnaryMeaning;
    assert !Assigns(np.op) && np.op !in {OSYM, OCALL, OCALLE, OSNEG, OCPL, ONEG, OCAST, OASK, OAND, OOR, OCOMMA};
  }

  lemma OkLogic(np: Node)
    requires np.Node? && np.op in {OAND, OOR}
    ensures Ok(np) <==>
              && Signed(np.tp) && !np.nconst && np.sym == NoSym
              && Ok(np.left) && Ok(np.right) && np.left.tp == np.tp && np.right.tp == np.tp
    ensures Truth(np)
  {
    hide Constant, Variable, Unsigned, Signed, OkColon, OkArgs;
  }

  lemma EvalLogic(np: Node, env: World, t: seq<Event>)
    requires np.Node? && np.op in {OAND, OOR}
    ensures Eval(np, env, t) ==
            match Eval(np.left, env, t)
            case Undef => Undef
            case Val(a, t1) =>
              if np.op == OAND && a == 0 then Val(0, t1)
              else if np.op == OOR && a != 0 then Val(1, t1)
              else match Eval(np.right, env, t1) case Undef => Undef case Val(b, t2) => Val(Bool(b != 0), t2)
  {
    hide BinaryMeaning, Ok, Truth, Range, Width, UnaryMeaning;
    assert !Assigns(np.op) && np.op !in {OSYM, OCALL, OCALLE, OSNEG, OCPL, ONEG, OCAST, OASK, OCOMMA};
  }

  lemma OkComma(np: Node)
    requires np.Node? && np.op == OCOMMA
    ensures Ok(np) <==> && !np.nconst && np.sym == NoSym && Ok(np.left) && Ok(np.right) && np.right.tp == np.tp
    ensures Truth(np) <==> Truth(np.right)
  {
    hide Ok, Truth;
    CommaUnfolds(np);
    if Ok(np.right) {
      OkTyped(np.right);
    }
  }

  lemma CommaUnfolds(np: Node)
    requires np.Node? && np.op == OCOMMA
    ensures Ok(np) <==>
              && (Unsigned(np.tp) || (Signed(np.tp) && Truth(np))) && !np.nconst && np.sym == NoSym
              && Ok(np.left) && Ok(np.right) && np.right.tp == np.tp
    ensures Truth(np) <==> Truth(np.right)
  {
    hide Constant, Variable, Unsigned, Signed, OkColon, OkArgs;
  }

  lemma EvalComma(np: Node, env: World, t: seq<Event>)
    requires np.Node? && np.op == OCOMMA
    ensures Eval(np, env, t) == match Eval(np.left, env, t) case Undef => Undef case Val(a, t1) => Eval(np.right, env, t1)
  {
    hide BinaryMeaning, Ok, Truth, Range, Width, UnaryMeaning;
  }

  lemma OkAsk(np: Node)
    requires np.Node? && np.op == OASK
    ensures Ok(np) <==> && !np.nconst && np.sym == NoSym && Ok(np.left) && Truth(np.left) && OkColon(np.right, np.tp)
    ensures Truth(np) <==> np.right.Node? && Truth(np.right.left) && Truth(np.right.right)
  {
    hide Ok, Truth;
    AskUnfolds(np);
    var r := np.right;
    if OkColon(r, np.tp) {
      OkTyped(r.left);
      OkTyped(r.right);
    }
  }

  lemma AskUnfolds(np: Node)
    requires np.Node? && np.op == OASK
    ensures Ok(np) <==>
              && (Unsigned(np.tp) || (Signed(np.tp) && Truth(np))) && !np.nconst && np.sym == NoSym
              && Ok(np.left) && Truth(np.left) && OkColon(np.right, np.tp)
    ensures Truth(np) <==> np.right.Node? && Truth(np.right.left) && Truth(np.right.right)
  {
    hide Constant, Variable, Unsigned, Signed, OkColon, OkArgs;
  }

  lemma EvalAsk(np: Node, env: World, t: seq<Event>)
    requires np.Node? && np.op == OASK && np.right.Node? && np.right.op == OCOLON
    ensures Eval(np, env, t) ==
            match Eval(np.left, env, t)
            case Undef => Undef
            case Val(a, t1) => if a != 0 then Eval(np.right.left, env, t1) else Eval(np.right.right, env, t1)
  {
    hide BinaryMeaning, Ok, Truth, Range, Width, UnaryMeaning;
  }

  lemma OkAssign(np: Node)
    requires np.Node? && Assigns(np.op)
    ensures Ok(np) <==>
              && !np.nconst && np.sym == NoSym && Unsigned(np.tp) && Variable(np.left) && Ok(np.right) && np.right.tp == np.tp
    ensures !Truth(np)
  {
    hide Constant, Variable, Unsigned, Signed, OkColon, OkArgs;
    assert !Computes(np.op) && !Compares(np.op);
  }

  lemma EvalAssign(np: Node, env: World, t: seq<Event>)
    requires np.Node? && Assigns(np.op) && Variable(np.left)
    ensures Eval(np, env, t) ==
            match Eval(np.right, env, t)
            case Undef => Undef
            case Val(v, t1) =>
              var id := np.left.sym.id;
              if np.op == OASSIGN then Val(v, t1 + [Stored(id, v)])
              else var t2 := t1 + [Updated(np.op, id, v)]; Val(env(t2, id) % Range(np.tp), t2)
  {
    hide BinaryMeaning, Ok, Truth, Range, Width, UnaryMeaning;
  }

  lemma OkCall(np: Node)
    requires np.Node? && np.op in {OCALL, OCALLE}
    ensures Ok(np) <==> && !np.nconst && np.sym == NoSym && Unsigned(np.tp) && Variable(np.left) && OkArgs(np.right)
    ensures !Truth(np)
  {
    hide Constant, Variable, Unsigned, Signed, OkColon, OkArgs;
  }

  lemma EvalCall(np: Node, env: World, t: seq<Event>)
    requires np.Node? && np.op in {OCALL, OCALLE} && Variable(np.left)
    ensures Eval(np, env, t) ==
            match EvalArgs(np.right, env, t)
            case UndefArgs => Undef
            case Vals(vs, t1) =>
              var t2 := t1 + [Called(np.left.sym.id, vs)];
              Val(env(t2, np.left.sym.id) % Range(np.tp), t2)
  {
    hide BinaryMeaning, Ok, Truth, Range, Width, UnaryMeaning;
  }

  /** These are all the forms. */
  lemma Forms(np: Node)
    requires Ok(np)
    ensures np.op == OSYM || Unary(np.op) || Binary(np.op) || np.op in {OAND, OOR, OCOMMA, OASK, OCALL, OCALLE} || Assigns(np.op)
  {
  }

  /** The operators without a form are those of addresses and of parts of other nodes. */
  lemma AllOperators(op: Op)
    ensures op in {OADDR, OPTR, OFIELD, OBUILTIN, OCOLON, OPAR} <==>
              !(op == OSYM || Unary(op) || Binary(op) || op in {OAND, OOR, OCOMMA, OASK, OCALL, OCALLE} || Assigns(op))
  {
  }

  /** Values stay inside their type, and conditions are 0 or 1. */
  lemma {:induction false} EvalInRange(np: Node, env: World, t: seq<Event>)
    requires Ok(np) && Eval(np, env, t).Val?
    ensures Eval(np, env, t).v < Range(np.tp)
    ensures Truth(np) ==> Eval(np, env, t).v <= 1
    decreases np
  {
    hide Pow2, BinaryMeaning, UnaryMeaning, Range, Width, Ok, Eval, Truth, Variable, Constant;
    var op, l, r := np.op, np.left, np.right;
    Forms(np);
    OkTyped(np);
    RangePositive(np.tp);
    if op == OSYM {
      OkLeaf(np);
      LeafInRange(np, env, t);
    } else if Unary(op) {
      OkUnary(np);
      EvalUnary(np, env, t);
      EvalInRange(l, env, t);
      UnaryInRange(op, Range(np.tp), Eval(l, env, t).v);
    } else if Binary(op) {
      OkBinary(np);
      EvalBinary(np, env, t);
      var a := Eval(l, env, t);
      var b := Eval(r, env, a.t);
      EvalInRange(l, env, t);
      EvalInRange(r, env, a.t);
      RangeWidth(np.tp);
      TruthInRange(op, Width(np.tp), a.v, b.v);
      ComputedInRange(op, Width(np.tp), a.v, b.v);
    } else if op in {OAND, OOR} {
      OkLogic(np);
      EvalLogic(np, env, t);
    } else if op == OCOMMA {
      OkComma(np);
      EvalComma(np, env, t);
      EvalInRange(r, env, Eval(l, env, t).t);
    } else if op == OASK {
      OkAsk(np);
      EvalAsk(np, env, t);
      var a := Eval(l, env, t);
      if a.v != 0 {
        EvalInRange(r.left, env, a.t);
      } else {
        EvalInRange(r.right, env, a.t);
      }
    } else if Assigns(op) {
      OkAssign(np);
      EvalAssign(np, env, t);
      EvalInRange(r, env, t);
    } else {
      OkCall(np);
      EvalCall(np, env, t);
    }
  }

  lemma LeafInRange(np: Node, env: World, t: seq<Event>)
    requires Constant(np) || Variable(np)
    requires Range(np.tp) > 0
    ensures Eval(np, env, t).Val? && Eval(np, env, t).v < Range(np.tp)
    ensures Constant(np) ==> Eval(np, env, t).v == np.sym.u
  {
    hide Pow2;
  }
}
