/** Addresses of objects: the arms for `&`, `*` and fields of structures. */
module FoldAddress {
  import opened Bits
  import opened Cc1Tree
  import opened Fold
  import opened FoldConstants
  import opened FoldMeaning

  /** Where an object is, and what an expression of pointer type points to, given where
      variables are and what other expressions evaluate to. */
  function Place(np: Node, at: Node -> int, value: Node -> int): int {
    match np
    case Nil => 0
    case Node(op, _, _, _, l, r) =>
      if op == OPTR then Pointer(l, at, value)
      else if op == OFIELD && r.Node? && r.sym.Var? then Place(l, at, value) + r.sym.offset
      else at(np)
  }

  function Pointer(np: Node, at: Node -> int, value: Node -> int): int {
    match np
    case Nil => 0
    case Node(op, _, _, sym, l, r) =>
      if op == OADDR then Place(l, at, value)
      else if op == OADD then Pointer(l, at, value) + Pointer(r, at, value)
      else if op == OSYM && sym.Lit? then sym.u
      else value(np)
  }

  /** The address taken, or the object reached, stays the same. */
  lemma {:induction false} FoldUnaryKeepsPlace(np: Node, at: Node -> int, value: Node -> int)
    requires np.Node? && np.right.Nil?
    ensures np.op in {OADDR, OADD} ==> Pointer(FoldUnary(np), at, value) == Pointer(np, at, value)
    ensures np.op == OPTR ==> Place(FoldUnary(np), at, value) == Place(np, at, value)
    ensures np.op == OPTR ==> FoldUnary(np).Node? && FoldUnary(np).tp == np.tp
    ensures FieldAddress(np) ==> FoldUnary(np).Node? && FoldUnary(np).op == OADD && FoldUnary(np).tp == np.tp
  {
    hide CastPattern;
    var l := np.left;
    assert Pointer(Nil, at, value) == 0;
    if np.op == OADDR && l.Node? && l.op == OFIELD && l.right.Node? && l.right.sym.Var? {
      var offset := ConstNode(Lit(l.right.sym.offset, np.tp, true));
      assert Pointer(offset, at, value) == l.right.sym.offset;
      assert Pointer(np, at, value) == Place(l, at, value) == Place(l.left, at, value) + l.right.sym.offset;
      assert Pointer(NewNode(OADDR, np.tp, l.left, Nil), at, value) == Place(l.left, at, value);
    }
  }

  /** The address of a field. */
  predicate FieldAddress(np: Node) {
    && np.Node? && np.op == OADDR && np.right.Nil? && np.tp.kind == PTR && np.tp.size in {1, 2, 4, 8}
    && np.left.Node? && np.left.op == OFIELD && np.left.right.Node? && np.left.right.sym.Var?
  }

  /** Constant pointers are leaves of a pointer type. */
  predicate PointerOperand(np: Node) {
    np.Node? ==> np.nconst && np.sym.Lit? ==> np.op == OSYM && np.tp.kind == PTR
  }

  /** An addition to a pointer, after folding: the same address in the width of its type. */
  lemma SumFolds(np: Node, at: Node -> int, value: Node -> int)
    requires np.Node? && np.op == OADD && np.tp.kind == PTR && np.tp.size in {1, 2, 4, 8}
    requires PointerOperand(np.left) && np.right.Node? && np.right.op == OSYM && np.right.nconst && np.right.sym.Lit?
    ensures Mod(Pointer(Folded(np), at, value), Range(np.tp)) == Mod(Pointer(np, at, value), Range(np.tp))
  {
    hide FoldUInt, Range;
    RangePositive(np.tp);
    if np.left.Node? && np.left.nconst && np.left.sym.Lit? {
      var x := np.left.sym.u + np.right.sym.u;
      SumFolded(np);
      assert Pointer(np, at, value) == x;
      SmallMod(Mod(x, Range(np.tp)), Range(np.tp));
    } else {
      assert Pointer(np.(nconst := false), at, value) == Pointer(np, at, value);
    }
  }

  lemma SumFolded(np: Node)
    requires np.Node? && np.op == OADD && np.tp.kind == PTR && np.tp.size in {1, 2, 4, 8}
    requires np.left.Node? && np.left.nconst && np.left.sym.Lit? && np.left.tp.kind == PTR
    requires np.right.Node? && np.right.nconst && np.right.sym.Lit?
    requires Range(np.tp) > 0
    ensures Folded(np) == ConstNode(Lit(Mod(np.left.sym.u + np.right.sym.u, Range(np.tp)), np.tp, true))
  {
    hide BitAnd, Ones, Range, Pow2;
    CutWord(np.left.sym.u + np.right.sym.u, np.tp);
  }

  /** The arms for fields leave the address that was taken, in the width of the pointer. */
  lemma {:induction false} FieldAddressKept(np: Node, at: Node -> int, value: Node -> int)
    requires FieldAddress(np) && (np.left.left.Node? && np.left.left.op == OPTR ==> PointerOperand(np.left.left.left))
    ensures Range(np.tp) > 0
    ensures Mod(Pointer(Step(np), at, value), Range(np.tp)) == Mod(Pointer(np, at, value), Range(np.tp))
    ensures Step(np).Node? && Step(np).op in {OADD, OSYM}
  {
    hide Folded, Range;
    RangePositive(np.tp);
    FoldedShrinks(FoldUnary(np));
    FoldUnaryKeepsPlace(np, at, value);
    SumFolds(FoldUnary(np), at, value);
  }
}
