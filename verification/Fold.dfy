/** The constant folder of the front end, arm by arm.  Trees are values here: an arm that
    rewrites a node in place returns the rewritten node. */
module Fold {
  import opened Bits
  import opened Cc1Tree
  import opened FoldArith
  import opened Wrappers

  /** A mask with the low `nbytes` bytes set. */
  function Ones(nbytes: nat): nat {
    Pow2(8 * nbytes) - 1
  }

  function Bool(b: bool): nat {
    if b then 1 else 0
  }

  /** Is `np` a constant with this value in its type? */
  predicate CmpNode(np: Node, val: nat) {
    np.Node? && np.nconst && np.sym.Lit? && np.sym.ty.kind in {PTR, INT}
    && var mask := if val > 1 then Ones(np.tp.size) else WORD - 1;
       BitAnd(np.sym.u, mask) == BitAnd(val, mask)
  }

  /** Is `np` an integer constant with a single one in its binary form? */
  predicate Power2Node(np: Node) {
    np.Node? && np.nconst && np.sym.Lit? && np.sym.ty.kind == INT && PopCount(np.sym.u) == 1
  }

  /** Arithmetic on unsigned constants: the 64-bit result before it is cut to the type. */
  function UnsignedOp(op: Op, l: nat, r: nat): Option<nat> {
    match op
    case OADD => Some(Mod(l + r, WORD))
    case OSUB => Some(Mod(l - r, WORD))
    case OMUL => Some(Mod(Times(l, r), WORD))
    case ODIV => if r == 0 then None else Some(Div(l, r))
    case OMOD => if r == 0 then None else Some(l % r)
    case OSHL => Some(Mod(Times(l, Pow2(r % 64)), WORD))
    case OSHR => Some(Div(l, Pow2(r % 64)))
    case OBAND => Some(BitAnd(l, r))
    case OBXOR => Some(BitXor(l, r))
    case OBOR => Some(BitOr(l, r))
    case ONEG => Some(Bool(l == 0))
    case OSNEG => Some(Mod(0 - l, WORD))
    case OCPL => Some(Mod(-1 - l, WORD))
    case _ => None
  }

  /** Operators that give 0 or 1 on constants of any signedness. */
  function TruthOp(op: Op, l: int, r: int): Option<nat> {
    match op
    case OAND => Some(Bool(l != 0 && r != 0))
    case OOR => Some(Bool(l != 0 || r != 0))
    case OLT => Some(Bool(l < r))
    case OGT => Some(Bool(l > r))
    case OGE => Some(Bool(l >= r))
    case OLE => Some(Bool(l <= r))
    case OEQ => Some(Bool(l == r))
    case ONE => Some(Bool(l != r))
    case _ => None
  }

  function FoldUInt(op: Op, tp: Type, l: nat, r: nat): Option<nat> {
    match UnsignedOp(op, l, r)
    case Some(u) => Some(BitAnd(u, Ones(tp.size)))
    case None => TruthOp(op, l, r)
  }

  predicate Valid(op: Op, tp: Type, l: int, r: int) {
    match op
    case OADD => AddI(l, r, tp)
    case OSUB => SubI(l, r, tp)
    case OMUL => MulI(l, r, tp)
    case ODIV => DivI(l, r, tp)
    case OMOD => DivI(l, r, tp)
    case OSHL => LshI(l, r, tp)
    case OSHR => RshI(r, tp)
    case _ => true
  }

  function SignedOp(op: Op, l: int, r: int): Option<int> {
    match op
    case OADD => Some(l + r)
    case OSUB => Some(l - r)
    case OMUL => Some(Times(l, r))
    case ODIV => if r == 0 then None else Some(Quot(l, r))
    case OMOD => if r == 0 then None else Some(Rem(l, r))
    case OSHL => Some(if r < 0 then l else Times(l, Pow2(r % 64)))
    case OSHR => Some(if r < 0 then l else Floor(l, Pow2(r % 64)))
    case OBAND => Some(BitAnd(Pattern(l), Pattern(r)))
    case OBXOR => Some(BitXor(Pattern(l), Pattern(r)))
    case OBOR => Some(BitOr(Pattern(l), Pattern(r)))
    case ONEG => Some(Bool(l == 0))
    case OSNEG => Some(-l)
    case OCPL => Some(-1 - l)
    case _ => match TruthOp(op, l, r) case Some(b) => Some(b) case None => None
  }

  function FoldInt(op: Op, tp: Type, l: int, r: int): Option<nat> {
    if !Valid(op, tp, l, r) then None
    else match SignedOp(op, l, r) case Some(i) => Some(Pattern(i)) case None => None
  }

  /** Folds constants `ls` and `rs` (no second one for a unary operator). */
  function FoldConst(unsigned: bool, op: Op, tp: Type, ls: Sym, rs: Sym): Option<Node>
    requires ls.Lit?
  {
    var r := if rs.Lit? then rs.u else 0;
    match if unsigned then FoldUInt(op, tp, ls.u, r) else FoldInt(op, tp, AsSigned(ls.u), AsSigned(r))
    case Some(u) => Some(ConstNode(Lit(u, tp, true)))
    case None => None
  }

  function FoldCast(np: Node, l: Node): Node
    requires np.Node? && l.Node?
  {
    if !l.nconst || !l.sym.Lit? || np.tp.kind !in {PTR, INT, ENUM} || l.tp.kind !in {PTR, INT, ENUM} then np
    else ConstNode(Lit(CastPattern(np.tp, l.sym.u), np.tp, true))
  }

  /** The pattern of constant `u` cast to an integer type: negative values of a narrow
      signed type get their upper bits set; other values of one keep the ones they had. */
  function CastPattern(tp: Type, u: nat): nat {
    if !tp.signed then BitAnd(u, Ones(tp.size))
    else if 0 < tp.size < 8 && Div(u, Pow2(8 * tp.size - 1)) % 2 == 1 then
      BitOr(u, (WORD - 1 - Ones(tp.size)) % WORD)
    else u
  }

  function FoldUnary(np: Node): Node
    requires np.Node?
  {
    var l := np.left;
    if !l.Node? then np
    else
      match np.op
      case ONEG => if l.op == ONEG then l.left else np
      case OADD => l
      case OCAST => FoldCast(np, l)
      case OSNEG => if l.op == OSNEG then l.left else np
      case OCPL => if l.op == OCPL then l.left else np
      case OPTR => if l.op == OADDR && l.left.Node? && np.tp == l.left.tp then l.left else np
      case OADDR =>
        if l.op == OFIELD && l.left.Node? && l.left.op == OPTR && l.right.Node? && l.right.sym.Var? then
          var aux := NewNode(OADD, np.tp, l.left.left, ConstNode(Lit(l.right.sym.offset, np.tp, true)));
          aux.(nconst := l.left.left.Node? && l.left.left.nconst)
        else if l.op == OFIELD && l.right.Node? && l.right.sym.Var? then
          var aux := NewNode(OADD, np.tp, NewNode(OADDR, np.tp, l.left, Nil),
                             ConstNode(Lit(l.right.sym.offset, np.tp, true)));
          aux.(nconst := np.nconst)
        else if l.op == OPTR then l.left
        else np
      case _ => np
  }

  /** Folding a constant of a signed enumeration type ends in `abort`. */
  predicate FoldAborts(np: Node)
    requires np.Node?
  {
    var op, lp, rp := np.op, np.left, np.right;
    && !(op in {ODIV, OMOD} && CmpNode(rp, 0)) && (rp.Node? ==> rp.nconst && rp.sym.Lit?)
    && lp.Node? && lp.nconst && lp.sym.Lit? && lp.tp.kind == ENUM && lp.tp.signed
  }

  /** Folds a node with constant operands; one on which the code aborts stays as it is. */
  function Folded(np: Node): (r: Node)
    requires np.Node?
    ensures r.Node?
  {
    var op, lp, rp := np.op, np.left, np.right;
    if lp.Nil? && rp.Nil? then np
    else if op in {ODIV, OMOD} && CmpNode(rp, 0) then np
    else if rp.Node? && !(rp.nconst && rp.sym.Lit?) then np
    else if !(lp.Node? && lp.nconst && lp.sym.Lit?) then np
    else if lp.tp.kind !in {ENUM, INT, PTR} || FoldAborts(np) then np
    else
      match FoldConst(lp.tp.kind == PTR || !lp.tp.signed, op, np.tp, lp.sym, if rp.Node? then rp.sym else NoSym)
      case Some(p) => p
      case None => np.(nconst := false)
  }

  function NegOp(op: Op): Op {
    match op
    case OEQ => ONE
    case ONE => OEQ
    case OLT => OGE
    case OGE => OLT
    case OLE => OGT
    case OGT => OLE
    case _ => op
  }

  function Commuted(np: Node): (r: Node)
    requires np.Node?
    ensures r.Node?
  {
    var l, r := np.left, np.right;
    if r.Nil? || r.nconst || l.Nil? || !l.nconst then np
    else if np.op in {OLT, OGT, OGE, OLE} then np.(op := NegOp(np.op), left := r, right := l)
    else if np.op in {OEQ, ONE, OADD, OMUL, OBAND, OBXOR, OBOR} then np.(left := r, right := l)
    else np
  }

  function Identity(np: Node): Node
    requires np.Node?
  {
    var lp, rp := np.left, np.right;
    var iszeror, isoner, iszerol, isonel := CmpNode(rp, 0), CmpNode(rp, 1), CmpNode(lp, 0), CmpNode(lp, 1);
    if rp.Nil? then np
    else
      match np.op
      case OOR =>
        if isonel || iszeror then lp
        else if iszerol then rp
        else if isoner then np.(op := OCOMMA)
        else np
      case OAND =>
        if iszerol || isoner then lp
        else if isonel then rp
        else if iszeror then np.(op := OCOMMA)
        else np
      case OSHL => if iszeror || iszerol then lp else np
      case OSHR => if iszeror || iszerol then lp else np
      case OBXOR => if iszeror then lp else np
      case OADD => if iszeror then lp else np
      case OBOR => if iszeror then lp else np
      case OSUB => if iszeror then lp else np
      case OMUL =>
        if iszeror then np.(op := OCOMMA)
        else if isoner then lp
        else np
      case ODIV => if isoner then lp else np
      case OBAND => if CmpNode(rp, WORD - 1) then lp else np
      case OMOD => if isoner then np.(op := OCOMMA) else np
      case _ => np
  }

  function FoldTernary(np: Node): Node
    requires np.Node?
  {
    var cond, body := np.left, np.right;
    if cond.Nil? || !cond.nconst || body.Nil? then np
    else if CmpNode(cond, 0) then body.right
    else body.left
  }

  function Reduced(np: Node): Node {
    if np.Node? && np.op == OMOD && Power2Node(np.right) then
      var r := np.right;
      np.(op := OBAND, right := r.(sym := r.sym.(u := (r.sym.u - 1) % WORD)))
    else np
  }

  function Associated(np: Node): (r: Node)
    requires np.Node?
    ensures r.Node?
  {
    var l, r := np.left, np.right;
    if np.op in {OADD, OMUL, OBAND, OBXOR, OBOR}
       && l.Node? && np.op == l.op && l.right.Node? && l.right.op == OSYM && l.right.sym.Lit? && l.right.sym.constant then
      np.(left := l.left, right := Folded(l.(left := r)))
    else np
  }

  /** One turn of the simplifier's loop at a node whose children are simplified. */
  function Step(np: Node): Node
    requires np.Node?
  {
    match np.op
    case OASK => FoldTernary(np)
    case OCALL => np
    case OPAR => np
    case OSYM => np
    case OASSIGN => np
    case OA_MUL => np
    case OA_DIV => np
    case OA_MOD => np
    case OA_ADD => np
    case OA_SUB => np
    case OA_SHL => np
    case OA_SHR => np
    case OA_AND => np
    case OA_XOR => np
    case OA_OR => np
    case OSNEG => UnaryTurn(np)
    case OCPL => UnaryTurn(np)
    case OADDR => UnaryTurn(np)
    case OPTR => UnaryTurn(np)
    case OCAST => UnaryTurn(np)
    case ONEG => UnaryTurn(np)
    case _ => DefaultTurn(np)
  }

  function UnaryTurn(np: Node): Node
    requires np.Node?
  {
    var n1 := FoldUnary(np);
    if n1.Node? then Folded(n1) else n1
  }

  function DefaultTurn(np: Node): Node
    requires np.Node?
  {
    Reduced(Identity(Folded(Associated(Commuted(np)))))
  }

  /** What shrinks when the loop goes round again: the tree; else a constant moves from
      the left of a comparison to its right; else the operator goes down in rank. */
  function Rank(op: Op): nat {
    match op
    case OADDR => 2
    case OMOD => 2
    case OMUL => 1
    case OAND => 1
    case OOR => 1
    case _ => 0
  }

  predicate ConstantFirst(np: Node) {
    np.Node? && np.op in {OLT, OGT, OGE, OLE} && np.left.Node? && np.left.nconst && np.right.Node? && !np.right.nconst
  }

  lemma FoldedShrinks(np: Node)
    requires np.Node?
    ensures var r := Folded(np);
            r.Node? && (r == np || (r.op == OSYM && Size(r) == 1 && Size(np) >= 2) || r == np.(nconst := false))
  {
    hide FoldUInt, FoldInt, CmpNode;
  }

  lemma AssociatedSize(np: Node)
    requires np.Node?
    ensures var r := Associated(np); r.Node? && r.op == np.op && Size(r) <= Size(np)
    ensures np.op !in {OADD, OMUL, OBAND, OBXOR, OBOR} ==> Associated(np) == np
  {
    var l := np.left;
    if l.Node? {
      FoldedShrinks(l.(left := np.right));
    }
  }

  /** The loop goes round again only if the node got smaller in the order above. */
  lemma {:induction false} StepDescends(np: Node)
    requires np.Node?
    ensures var r := Step(np);
            r.Node? && r.op != np.op ==>
              || Size(r) < Size(np)
              || (Size(r) == Size(np) && !ConstantFirst(r) && (ConstantFirst(np) || Rank(r.op) < Rank(np.op)))
  {
    match np.op
    case OASK =>
    case OSNEG => UnaryDescends(np);
    case OCPL => UnaryDescends(np);
    case OADDR => UnaryDescends(np);
    case OPTR => UnaryDescends(np);
    case OCAST => UnaryDescends(np);
    case ONEG => UnaryDescends(np);
    case _ => DefaultDescends(np);
  }

  lemma ConstSize(sym: Sym)
    requires sym.Lit?
    ensures Size(ConstNode(sym)) == 1
  {
  }

  lemma AddressSize(tp: Type, l: Node)
    ensures Size(NewNode(OADDR, tp, l, Nil)) == 1 + Size(l)
  {
    assert Size(Nil) == 0;
  }

  lemma FoldUnarySize(np: Node)
    requires np.Node?
    ensures var r := FoldUnary(np);
            Size(r) < Size(np) || r == np || (r.Node? && Size(r) == Size(np) && r.op == OADD && np.op == OADDR)
  {
    var l := np.left;
    if l.Node? && np.op == OADDR && l.op == OFIELD && l.right.Node? && l.right.sym.Var? {
      ConstSize(Lit(l.right.sym.offset, np.tp, true));
      AddressSize(np.tp, l.left);
      assert Size(l) == 1 + Size(l.left) + Size(l.right);
    }
  }

  lemma UnaryDescends(np: Node)
    requires np.Node?
    ensures var r := UnaryTurn(np);
            r.Node? && r.op != np.op ==> Size(r) < Size(np) || (Size(r) == Size(np) && r.op == OADD && np.op == OADDR)
  {
    hide FoldUnary, Folded;
    FoldUnarySize(np);
    if FoldUnary(np).Node? {
      FoldedShrinks(FoldUnary(np));
    }
  }

  lemma IdentitySize(np: Node)
    requires np.Node?
    ensures var r := Identity(np);
            Size(r) < Size(np) || r == np || (r == np.(op := OCOMMA) && np.op in {OOR, OAND, OMUL, OMOD})
  {
  }

  lemma ReducedSize(np: Node)
    ensures var r := Reduced(np);
            r == np || (np.Node? && r.Node? && np.op == OMOD && r.op == OBAND && Size(r) == Size(np))
  {
  }

  lemma CommutedSize(np: Node)
    requires np.Node?
    ensures var r := Commuted(np);
            && r.Node? && Size(r) == Size(np)
            && (r.op == np.op || (ConstantFirst(np) && !ConstantFirst(r) && r.op in {OLT, OGT, OGE, OLE}))
  {
  }

  lemma DefaultDescends(np: Node)
    requires np.Node?
    ensures var r := DefaultTurn(np);
            r.Node? && r.op != np.op ==>
              || Size(r) < Size(np)
              || (Size(r) == Size(np) && !ConstantFirst(r) && (ConstantFirst(np) || Rank(r.op) < Rank(np.op)))
  {
    hide Commuted, Associated, Folded, Identity, Reduced;
    var n1 := Commuted(np);
    CommutedSize(np);
    var n2 := Associated(n1);
    AssociatedSize(n1);
    var n3 := Folded(n2);
    FoldedShrinks(n2);
    var n4 := Identity(n3);
    IdentitySize(n3);
    ReducedSize(n4);
  }

  /** Turns of the loop until the operator stays. */
  function Repeat(np: Node): Node
    requires np.Node?
    decreases Size(np), ConstantFirst(np), Rank(np.op)
  {
    var r := Step(np);
    StepDescends(np);
    if r.Node? && r.op != np.op then Repeat(r) else r
  }

  /** The simplifier: the children first, then the node. */
  function Simplify(np: Node): Node {
    match np
    case Nil => Nil
    case Node(_, _, _, _, l, r) => Repeat(np.(left := Simplify(l), right := Simplify(r)))
  }
}
