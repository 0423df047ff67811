/** The simplifier keeps the meaning of every tree in which no failing arm fires; and
    exactly when one turn at a node keeps the value and the effects. */
module FoldTheorem {
  import opened Bits
  import opened Cc1Tree
  import opened FoldArith
  import opened Fold
  import opened FoldMeaning
  import opened FoldForms
  import opened FoldProofs

  /** x % 1 is turned into the comma x,1. */
  predicate ModOne(np: Node) {
    np.Node? && np.op == OMOD && np.left.Node? && !np.left.nconst && CmpNode(np.right, 1)
  }

  /** 0 << e and 0 >> e are turned into 0. */
  predicate ZeroShift(np: Node) {
    np.Node? && np.op in {OSHL, OSHR} && CmpNode(np.left, 0)
  }

  /** No arm that changes the meaning fires at this node. */
  predicate StepOk(np: Node) {
    !ConstantFirst(np) && !ModOne(np) && (ZeroShift(np) ==> Quiet(np.right))
  }

  predicate Settled(np: Node) {
    np.Node? ==> StepOk(np) && Settled(np.left) && Settled(np.right)
  }

  /** Where the code is faithful: at each node, with its children simplified, none of those
      arms fires. */
  predicate Guarded(np: Node) {
    np.Node? ==>
      && Guarded(np.left) && Guarded(np.right)
      && StepOk(np.(left := Simplify(np.left), right := Simplify(np.right)))
  }

  predicate Restricted(op: Op) {
    op in {OLT, OGT, OGE, OLE, OMOD, OSHL, OSHR}
  }

  lemma IdentityKeeps(np: Node, env: World, t: seq<Event>)
    requires Ok(np)
    requires np.op == OMOD ==> !CmpNode(np.right, 1)
    requires np.op in {OSHL, OSHR} && CmpNode(np.left, 0) ==> Quiet(np.right)
    ensures Keeps(np, Identity(np)) && Means(np, Identity(np), env, t)
    ensures Identity(np) in {np, np.left, np.right, np.(op := OCOMMA)}
    ensures Identity(np) != np ==> np.op in {OAND, OOR} || Computes(np.op)
  {
    hide Ok, Eval, Truth, CmpNode, Quiet;
    if Binary(np.op) {
      IdentityArithmetic(np, env, t);
    } else if np.op in {OAND, OOR} {
      IdentityLogic(np, env, t);
    }
  }

  /** A remainder of constants is folded, so the arm for x % 1 is not reached. */
  lemma ModOneFolded(np: Node)
    requires Ok(np) && np.op == OMOD && np.left.Node? && np.left.nconst && CmpNode(np.right, 1)
    ensures Folded(np) != np
  {
    OkBinary(np);
    CmpOk(np.right);
    ConstantChild(np.left);
    ModOneUnsigned(np.tp, np.left.sym.u);
    hide Ok, FoldUInt, FoldInt;
    ZeroIsNotOne(np.right);
  }

  lemma ZeroIsNotOne(np: Node)
    requires Ok(np) && CmpNode(np, 1)
    ensures !CmpNode(np, 0)
  {
    hide Ok, CmpNode;
    CmpOk(np);
  }

  lemma ModOneUnsigned(tp: Type, a: nat)
    ensures FoldUInt(OMOD, tp, a, 1).Some?
  {
    hide BitAnd, Ones;
  }

  /** The nodes one turn of the default arm goes through. */
  function Gathered(np: Node): (g: Node)
    requires np.Node?
    ensures g.Node?
  {
    Associated(Commuted(np))
  }

  lemma GatheredKeeps(np: Node, env: World, t: seq<Event>)
    requires Ok(np) && !ConstantFirst(np)
    ensures Keeps(np, Gathered(np)) && Means(np, Gathered(np), env, t) && Gathered(np).op == np.op
    ensures Restricted(np.op) ==> Gathered(np) == np
  {
    hide Ok, Eval, Truth, Commuted, Associated, ConstantFirst, Constant;
    CommutedKeeps(np, env, t);
    AssociatedKeeps(Commuted(np), env, t);
  }

  /** Where the arm of `Identity` for a guarded operator is reached, nothing has changed. */
  lemma GuardsReach(np: Node, env: World, t: seq<Event>)
    requires Ok(np) && StepOk(np) && np.op != OSYM
    ensures var n := Folded(Gathered(np));
            && Keeps(np, n) && Means(np, n, env, t)
            && (n.op == OMOD ==> !CmpNode(n.right, 1))
            && (n.op in {OSHL, OSHR} && CmpNode(n.left, 0) ==> Quiet(n.right))
  {
    hide Ok, Eval, Truth, CmpNode, Quiet, Gathered, Folded, ConstantFirst, Constant;
    GatheredKeeps(np, env, t);
    FoldedKeeps(Gathered(np), env, t);
    if np.op == OMOD {
      OkBinary(np);
      if np.left.nconst && CmpNode(np.right, 1) {
        ModOneFolded(np);
      }
    }
  }

  /** One turn of the default arm. */
  lemma DefaultKeeps(np: Node, env: World, t: seq<Event>)
    requires Ok(np) && StepOk(np) && np.op != OSYM
    ensures Keeps(np, DefaultTurn(np)) && Means(np, DefaultTurn(np), env, t)
  {
    hide Ok, Eval, Truth, CmpNode, Quiet, Folded, Identity, Reduced, StepOk, Gathered;
    GuardsReach(np, env, t);
    var n := Folded(Gathered(np));
    IdentityKeeps(n, env, t);
    ReducedKeeps(Identity(n), env, t);
    DefaultTurnIs(np);
  }

  lemma DefaultTurnIs(np: Node)
    requires np.Node?
    ensures DefaultTurn(np) == Reduced(Identity(Folded(Gathered(np))))
  {
    hide Commuted, Associated, Folded, Identity, Reduced;
  }

  lemma UnaryKeeps(np: Node, env: World, t: seq<Event>)
    requires Ok(np) && Unary(np.op)
    ensures Keeps(np, UnaryTurn(np)) && Means(np, UnaryTurn(np), env, t)
    ensures UnaryTurn(np) == np || UnaryTurn(np) == np.left.left || Constant(UnaryTurn(np))
            || (np.left.left.Node? && UnaryTurn(np) == Folded(np.left.left))
  {
    hide Ok, Eval, Truth, FoldUnary, Folded, Constant;
    FoldUnaryKeeps(np, env, t);
    var n1 := FoldUnary(np);
    if n1.op == OSYM {
      LeafNotFolded(n1);
    } else {
      FoldedKeeps(n1, env, t);
    }
  }

  lemma LeafNotFolded(np: Node)
    requires Ok(np) && np.op == OSYM
    ensures Folded(np) == np
  {
    hide Ok;
    OkLeaf(np);
  }

  lemma {:induction false} StepKeeps(np: Node, env: World, t: seq<Event>)
    requires Ok(np) && StepOk(np)
    ensures Keeps(np, Step(np)) && Means(np, Step(np), env, t)
  {
    hide Ok, Eval, Truth, StepOk, UnaryTurn, DefaultTurn, FoldTernary;
    Forms(np);
    if np.op == OASK {
      FoldTernaryKeeps(np, env, t);
    } else if Unary(np.op) {
      UnaryKeeps(np, env, t);
    } else if np.op != OSYM {
      DefaultKeeps(np, env, t);
    }
  }

  // Nodes a turn leaves behind

  lemma ConstantSettled(np: Node)
    requires Constant(np)
    ensures Settled(np)
  {
  }

  lemma NodeSettled(np: Node)
    requires np.Node? && !Restricted(np.op) && Settled(np.left) && Settled(np.right)
    ensures Settled(np)
  {
    hide CmpNode, Quiet;
  }

  lemma SettledParts(np: Node)
    requires np.Node? && Settled(np)
    ensures StepOk(np) && Settled(np.left) && Settled(np.right)
  {
  }

  lemma GatheredSettled(np: Node, env: World, t: seq<Event>)
    requires Ok(np) && Settled(np)
    ensures Settled(Gathered(np))
  {
    hide Ok, Eval, Truth, Commuted, Associated, Settled, Constant, ConstantFirst, CmpNode, Quiet;
    SettledParts(np);
    CommutedKeeps(np, env, t);
    var n1 := Commuted(np);
    if n1 != np {
      NodeSettled(n1);
    }
    AssociatedKeeps(n1, env, t);
    if Associated(n1) != n1 {
      SettledParts(n1);
      SettledParts(n1.left);
      NodeSettled(Regrouped(n1).right);
      if Associated(n1).right != Regrouped(n1).right {
        ConstantSettled(Associated(n1).right);
      }
      NodeSettled(Associated(n1));
    }
  }

  lemma DefaultSettled(np: Node, env: World, t: seq<Event>)
    requires Ok(np) && Settled(np) && np.op != OSYM
    ensures Settled(DefaultTurn(np))
  {
    hide Ok, Eval, Truth, CmpNode, Quiet, Folded, Identity, Reduced, Gathered, Settled, Constant, ConstantFirst, Means, DefaultTurn;
    SettledParts(np);
    GatheredSettled(np, env, t);
    GatheredKeeps(np, env, t);
    var g := Gathered(np);
    FoldedKeeps(g, env, t);
    GuardsReach(np, env, t);
    var n := Folded(g);
    if n != g {
      ConstantSettled(n);
    }
    SettledParts(n);
    IdentityKeeps(n, env, t);
    if Identity(n) == n.(op := OCOMMA) {
      NodeSettled(Identity(n));
    }
    var i := Identity(n);
    ReducedKeeps(i, env, t);
    if Reduced(i) != i {
      SettledParts(i);
      ConstantSettled(Reduced(i).right);
      NodeSettled(Reduced(i));
    }
    DefaultTurnIs(np);
  }

  lemma UnarySettled(np: Node, env: World, t: seq<Event>)
    requires Ok(np) && Settled(np) && Unary(np.op)
    ensures Settled(UnaryTurn(np))
  {
    hide Ok, Eval, Truth, FoldUnary, Folded, Constant, Settled, StepOk;
    OkUnary(np);
    SettledParts(np);
    SettledParts(np.left);
    FoldUnaryKeeps(np, env, t);
    var n1 := FoldUnary(np);
    if Constant(n1) {
      ConstantSettled(n1);
    }
    if n1.op == OSYM {
      LeafNotFolded(n1);
    } else {
      FoldedKeeps(n1, env, t);
      if Folded(n1) != n1 {
        ConstantSettled(Folded(n1));
      }
    }
  }

  lemma StepSettles(np: Node, env: World, t: seq<Event>)
    requires Ok(np) && Settled(np)
    ensures Settled(Step(np))
  {
    hide Ok, Eval, Truth, StepOk, UnaryTurn, DefaultTurn, FoldTernary, Settled;
    Forms(np);
    SettledParts(np);
    if np.op == OASK {
      FoldTernaryKeeps(np, env, t);
      if np.right.Node? {
        SettledParts(np.right);
      }
    } else if Unary(np.op) {
      UnarySettled(np, env, t);
    } else if np.op != OSYM {
      DefaultSettled(np, env, t);
    }
  }

  lemma {:induction false} RepeatKeeps(np: Node, env: World, t: seq<Event>)
    requires Ok(np) && Settled(np)
    ensures Keeps(np, Repeat(np)) && Means(np, Repeat(np), env, t) && Settled(Repeat(np))
    decreases Size(np), ConstantFirst(np), Rank(np.op)
  {
    hide Ok, Eval, Truth, StepOk, Step, Settled, ConstantFirst, Rank;
    SettledParts(np);
    StepKeeps(np, env, t);
    StepSettles(np, env, t);
    StepDescends(np);
    if Step(np).op != np.op {
      RepeatKeeps(Step(np), env, t);
    }
  }

  // Simplified children in the place of the children

  function After(np: Node, env: World, t: seq<Event>): seq<Event> {
    match Eval(np, env, t) case Undef => t case Val(_, t1) => t1
  }

  lemma UnaryRebuilt(np: Node, l: Node, env: World, t: seq<Event>)
    requires Ok(np) && Unary(np.op) && np.left.Node? && Keeps(np.left, l) && Means(np.left, l, env, t)
    ensures var c := np.(left := l); Keeps(np, c) && Means(np, c, env, t)
  {
    hide Ok, Eval, Truth, UnaryMeaning, Range;
    var c := np.(left := l);
    OkUnary(np);
    OkUnary(c);
    EvalUnary(np, env, t);
    EvalUnary(c, env, t);
  }

  lemma BinaryRebuilt(np: Node, l: Node, r: Node, env: World, t: seq<Event>)
    requires Ok(np) && Binary(np.op) && np.left.Node? && Keeps(np.left, l) && Means(np.left, l, env, t)
    requires np.right.Node? && Keeps(np.right, r) && Means(np.right, r, env, After(np.left, env, t))
    ensures var c := np.(left := l, right := r); Keeps(np, c) && Means(np, c, env, t)
  {
    hide Ok, Eval, Truth, BinaryMeaning, Width;
    var c := np.(left := l, right := r);
    OkBinary(np);
    OkBinary(c);
    EvalBinary(np, env, t);
    EvalBinary(c, env, t);
  }

  lemma LogicRebuilt(np: Node, l: Node, r: Node, env: World, t: seq<Event>)
    requires Ok(np) && np.op in {OAND, OOR} && np.left.Node? && Keeps(np.left, l) && Means(np.left, l, env, t)
    requires np.right.Node? && Keeps(np.right, r) && Means(np.right, r, env, After(np.left, env, t))
    ensures var c := np.(left := l, right := r); Keeps(np, c) && Means(np, c, env, t)
  {
    hide Ok, Eval, Truth;
    var c := np.(left := l, right := r);
    OkLogic(np);
    OkLogic(c);
    EvalLogic(np, env, t);
    EvalLogic(c, env, t);
  }

  lemma CommaRebuilt(np: Node, l: Node, r: Node, env: World, t: seq<Event>)
    requires Ok(np) && np.op == OCOMMA && np.left.Node? && Keeps(np.left, l) && Means(np.left, l, env, t)
    requires np.right.Node? && Keeps(np.right, r) && Means(np.right, r, env, After(np.left, env, t))
    ensures var c := np.(left := l, right := r); Keeps(np, c) && Means(np, c, env, t)
  {
    hide Ok, Eval, Truth;
    var c := np.(left := l, right := r);
    OkComma(np);
    OkComma(c);
    EvalComma(np, env, t);
    EvalComma(c, env, t);
  }

  lemma AskRebuilt(np: Node, l: Node, a: Node, b: Node, env: World, t: seq<Event>)
    requires Ok(np) && np.op == OASK && np.left.Node? && Keeps(np.left, l) && Means(np.left, l, env, t) && Truth(np.left)
    requires OkColon(np.right, np.tp)
    requires np.right.left.Node? && Keeps(np.right.left, a) && Means(np.right.left, a, env, After(np.left, env, t))
    requires np.right.right.Node? && Keeps(np.right.right, b) && Means(np.right.right, b, env, After(np.left, env, t))
    ensures var c := np.(left := l, right := np.right.(left := a, right := b)); Keeps(np, c) && Means(np, c, env, t)
  {
    hide Ok, Eval, Truth;
    var c := np.(left := l, right := np.right.(left := a, right := b));
    OkAsk(np);
    OkAsk(c);
    EvalAsk(np, env, t);
    EvalAsk(c, env, t);
  }

  lemma AssignRebuilt(np: Node, r: Node, env: World, t: seq<Event>)
    requires Ok(np) && Assigns(np.op) && np.right.Node? && Keeps(np.right, r) && Means(np.right, r, env, t)
    ensures var c := np.(right := r); Keeps(np, c) && Means(np, c, env, t)
  {
    hide Ok, Eval, Truth, Range;
    var c := np.(right := r);
    OkAssign(np);
    OkAssign(c);
    EvalAssign(np, env, t);
    EvalAssign(c, env, t);
  }

  lemma CallRebuilt(np: Node, r: Node, env: World, t: seq<Event>)
    requires Ok(np) && np.op in {OCALL, OCALLE} && OkArgs(r)
    requires EvalArgs(np.right, env, t).Vals? ==> EvalArgs(r, env, t) == EvalArgs(np.right, env, t)
    ensures var c := np.(right := r); Keeps(np, c) && Means(np, c, env, t)
  {
    hide Ok, Eval, EvalArgs, OkArgs, Truth, Range;
    var c := np.(right := r);
    OkCall(np);
    OkCall(c);
    EvalCall(np, env, t);
    EvalCall(c, env, t);
  }

  /** Separators, argument lists and leaves stay as they are. */
  lemma StepStays(np: Node)
    requires np.Node? && (np.op in {OPAR, OSYM} || (np.op == OCOLON && !np.nconst))
    ensures Repeat(np) == np
  {
    hide DefaultTurn, UnaryTurn, FoldTernary;
    if np.op == OCOLON {
      ColonStays(np);
    }
  }

  lemma ColonStays(np: Node)
    requires np.Node? && np.op == OCOLON && !np.nconst
    ensures DefaultTurn(np) == np
  {
    hide CmpNode, FoldConst;
    assert Commuted(np) == np && Associated(np) == np;
    ColonNotFolded(np);
    hide Folded;
  }

  lemma ColonNotFolded(np: Node)
    requires np.Node? && np.op == OCOLON && !np.nconst
    ensures Folded(np) == np
  {
    hide CmpNode, Quot, Rem, BitAnd, BitOr, BitXor, Pow2, Limits, Times, Floor, Mod, Div;
  }

  /** A node whose children have been simplified. */
  function Below(np: Node): (c: Node)
    requires np.Node?
    ensures c.Node? && c.op == np.op && c.left == Simplify(np.left) && c.right == Simplify(np.right)
  {
    np.(left := Simplify(np.left), right := Simplify(np.right))
  }

  lemma BelowForm(np: Node)
    requires np.Node?
    ensures Below(np) == np.(left := Simplify(np.left), right := Simplify(np.right))
  {
  }

  lemma KeepsItself(np: Node, env: World, t: seq<Event>)
    requires Ok(np)
    ensures Keeps(np, np) && Means(np, np, env, t)
  {
  }

  lemma SimplifyBelow(np: Node)
    requires np.Node?
    ensures Simplify(np) == Repeat(Below(np))
    ensures Guarded(np) ==> Guarded(np.left) && Guarded(np.right) && StepOk(Below(np))
  {
    hide Repeat, StepOk;
  }

  lemma NilSimplified()
    ensures Simplify(Nil) == Nil && Settled(Nil) && OkArgs(Nil)
  {
  }

  lemma LeafBelow(np: Node)
    requires np.Node? && np.op == OSYM && np.left.Nil? && np.right.Nil?
    ensures Below(np) == np
  {
    hide Repeat;
    NilSimplified();
  }

  lemma VariableSimplified(np: Node)
    requires Variable(np)
    ensures Simplify(np) == np && Settled(np)
  {
    hide Repeat, Below, CmpNode, Simplify;
    LeafBelow(np);
    SimplifyBelow(np);
    StepStays(np);
    NilSimplified();
    NodeSettled(np);
  }

  lemma BelowSettled(np: Node)
    requires np.Node? && StepOk(Below(np)) && Settled(Simplify(np.left)) && Settled(Simplify(np.right))
    ensures Settled(Below(np))
  {
    hide StepOk, Simplify;
  }

  /** The main result: in a tree where no failing arm fires, simplifying keeps the type, the
      value and the effects in their order, wherever the tree has a meaning. */
  lemma {:induction false} SimplifyKeeps(np: Node, env: World, t: seq<Event>)
    requires Ok(np) && Guarded(np)
    ensures Keeps(np, Simplify(np)) && Means(np, Simplify(np), env, t) && Settled(Simplify(np))
    decreases np
  {
    hide Ok, Eval, Truth, Simplify, Repeat, Guarded, Settled, Below, StepOk;
    BelowKeeps(np, env, t);
    SimplifyBelow(np);
    RepeatKeeps(Below(np), env, t);
  }

  lemma {:induction false} BelowKeeps(np: Node, env: World, t: seq<Event>)
    requires Ok(np) && Guarded(np)
    ensures Keeps(np, Below(np)) && Means(np, Below(np), env, t) && Settled(Below(np))
    decreases np, 1
  {
    hide Ok, Eval, Truth, Simplify, Repeat, Guarded, Settled, StepOk, OkArgs, EvalArgs, Variable, Constant;
    hide Keeps, Means, After, Unary, Binary, Assigns, Below, Unsigned, Signed;
    var l, r := np.left, np.right;
    SimplifyBelow(np);
    BelowForm(np);
    Forms(np);
    NilSimplified();
    if np.op == OSYM {
      OkLeaf(np);
      LeafBelow(np);
      KeepsItself(np, env, t);
    } else if Unary(np.op) {
      OkUnary(np);
      SimplifyKeeps(l, env, t);
      UnaryRebuilt(np, Simplify(l), env, t);
    } else if np.op == OASK {
      AskBelow(np, env, t);
    } else if Assigns(np.op) {
      OkAssign(np);
      VariableSimplified(l);
      SimplifyKeeps(r, env, t);
      AssignRebuilt(np, Simplify(r), env, t);
    } else if np.op in {OCALL, OCALLE} {
      OkCall(np);
      VariableSimplified(l);
      ArgsKept(r, env, t);
      CallRebuilt(np, Simplify(r), env, t);
    } else {
      PairBelow(np, env, t);
    }
    BelowSettled(np);
  }

  lemma {:induction false} PairBelow(np: Node, env: World, t: seq<Event>)
    requires Ok(np) && Guarded(np) && (Binary(np.op) || np.op in {OAND, OOR, OCOMMA})
    ensures Keeps(np, Below(np)) && Means(np, Below(np), env, t)
    ensures Settled(Simplify(np.left)) && Settled(Simplify(np.right))
    decreases np, 0
  {
    hide Ok, Eval, Truth, Simplify, Repeat, Guarded, Settled, StepOk, OkArgs, EvalArgs, Variable, Constant;
    hide Keeps, Means, After, Unary, Binary, Assigns, Below, Unsigned, Signed;
    var l, r := np.left, np.right;
    SimplifyBelow(np);
    BelowForm(np);
    if np.op in {OAND, OOR} {
      OkLogic(np);
    } else if np.op == OCOMMA {
      OkComma(np);
    } else {
      OkBinary(np);
    }
    SimplifyKeeps(l, env, t);
    SimplifyKeeps(r, env, After(l, env, t));
    if np.op in {OAND, OOR} {
      LogicRebuilt(np, Simplify(l), Simplify(r), env, t);
    } else if np.op == OCOMMA {
      CommaRebuilt(np, Simplify(l), Simplify(r), env, t);
    } else {
      BinaryRebuilt(np, Simplify(l), Simplify(r), env, t);
    }
  }

  lemma {:induction false} AskBelow(np: Node, env: World, t: seq<Event>)
    requires Ok(np) && Guarded(np) && np.op == OASK
    ensures Keeps(np, Below(np)) && Means(np, Below(np), env, t)
    ensures Settled(Simplify(np.left)) && Settled(Simplify(np.right))
    decreases np, 0
  {
    hide Ok, Eval, Truth, Simplify, Repeat, Guarded, Settled, StepOk;
    hide Keeps, Means, After, Below;
    var l, r := np.left, np.right;
    SimplifyBelow(np);
    BelowForm(np);
    OkAsk(np);
    SimplifyBelow(r);
    BelowForm(r);
    StepStays(Below(r));
    SimplifyKeeps(l, env, t);
    SimplifyKeeps(r.left, env, After(l, env, t));
    SimplifyKeeps(r.right, env, After(l, env, t));
    NodeSettled(Below(r));
    AskRebuilt(np, Simplify(l), Simplify(r.left), Simplify(r.right), env, t);
  }

  lemma {:induction false} ArgsKept(par: Node, env: World, t: seq<Event>)
    requires OkArgs(par) && Guarded(par)
    ensures OkArgs(Simplify(par)) && Settled(Simplify(par))
    ensures EvalArgs(par, env, t).Vals? ==> EvalArgs(Simplify(par), env, t) == EvalArgs(par, env, t)
    decreases par
  {
    hide Ok, Eval, Truth, Simplify, Repeat, Guarded, Settled, Below, StepOk, OkArgs, EvalArgs;
    NilSimplified();
    if par.Node? {
      ArgsForm(par, env, t);
      SimplifyBelow(par);
      BelowForm(par);
      StepStays(Below(par));
      ArgsForm(Below(par), env, t);
      ArgsKept(par.left, env, t);
      SimplifyKeeps(par.right, env, match EvalArgs(par.left, env, t) case UndefArgs => t case Vals(_, t1) => t1);
      NodeSettled(Below(par));
    }
  }

  lemma ArgsForm(par: Node, env: World, t: seq<Event>)
    requires par.Node?
    ensures OkArgs(par) <==> par.op == OPAR && !par.nconst && OkArgs(par.left) && Ok(par.right)
    ensures EvalArgs(par, env, t) ==
            match EvalArgs(par.left, env, t)
            case UndefArgs => UndefArgs
            case Vals(vs, t1) =>
              match Eval(par.right, env, t1) case Undef => UndefArgs case Val(v, t2) => Vals(vs + [v], t2)
  {
    hide Ok, Eval;
  }
}
