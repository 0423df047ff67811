/** The simplifier's loops. */
module Simplifier {
  import opened Bits
  import opened Cc1Tree
  import opened Fold
  import opened FoldMeaning
  import opened FoldProofs
  import opened FoldTheorem

  /** Counts the ones of an integer constant. */
  method IsPower2(np: Node) returns (yes: bool)
    ensures yes <==> np.Node? && np.nconst && np.sym.Lit? && np.sym.ty.kind == INT && exists k: nat :: Pow2(k) == np.sym.u
    ensures yes == Power2Node(np)
  {
    if np.Nil? || !np.nconst || !np.sym.Lit? || np.sym.ty.kind != INT {
      return false;
    }
    var n, u := 0, np.sym.u;
    while u != 0
      invariant n + PopCount(u) == PopCount(np.sym.u)
    {
      if u % 2 == 1 {
        n := n + 1;
      }
      u := u / 2;
    }
    OneBit(np.sym.u);
    return n == 1;
  }

  /** Simplifies the children, then takes turns at the node until its operator stays. */
  method XSimplify(np: Node) returns (r: Node)
    ensures r == Simplify(np)
    ensures Ok(np) && Guarded(np) ==>
              Keeps(np, r) && Settled(r) && forall env: World, t: seq<Event> :: Means(np, r, env, t)
    decreases np
  {
    hide Step, ConstantFirst, Rank, Ok, Guarded, Settled, Keeps, Means, FoldTernary, FoldUnary, Commuted, Associated, Folded,
      Identity, Reduced, OneOperand, Untouched;
    ghost var env0: World := (_, _) => 0;
    if Ok(np) && Guarded(np) {
      SimplifyKeeps(np, env0, []);
      forall env: World, t: seq<Event> {
        SimplifyKeeps(np, env, t);
      }
    }
    if np.Nil? {
      return Nil;
    }
    var left := XSimplify(np.left);
    var right := XSimplify(np.right);
    r := np.(left := left, right := right);
    ghost var start := r;
    var again := true;
    while again
      invariant if again then r.Node? && Repeat(r) == Repeat(start) else r == Repeat(start)
      decreases again, Size(r), if r.Node? then ConstantFirst(r) else false, if r.Node? then Rank(r.op) else 0
    {
      var op := r.op;
      ghost var before := r;
      if op == OASK {
        r := FoldTernary(r);
      } else if OneOperand(op) {
        r := FoldUnary(r);
        if r.Node? {
          r := Folded(r);
        }
      } else if !Untouched(op) {
        r := Commuted(r);
        r := Associated(r);
        r := Folded(r);
        r := Identity(r);
        r := Reduced(r);
      }
      TurnIsStep(before);
      StepDescends(before);
      again := r.Node? && r.op != op;
    }
  }

  /** Operators at which the loop does nothing. */
  predicate Untouched(op: Op) {
    op in {OCALL, OPAR, OSYM, OASSIGN, OA_MUL, OA_DIV, OA_MOD, OA_ADD, OA_SUB, OA_SHL, OA_SHR, OA_AND, OA_XOR, OA_OR}
  }

  predicate OneOperand(op: Op) {
    op in {OSNEG, OCPL, OADDR, OPTR, OCAST, ONEG}
  }

  lemma TurnIsStep(np: Node)
    requires np.Node?
    ensures Step(np) ==
            if np.op == OASK then FoldTernary(np)
            else if OneOperand(np.op) then (if FoldUnary(np).Node? then Folded(FoldUnary(np)) else FoldUnary(np))
            else if Untouched(np.op) then np
            else Reduced(Identity(Folded(Associated(Commuted(np)))))
  {
    hide FoldTernary, FoldUnary, Identity, Reduced, Commuted, Associated, Folded;
  }
}
