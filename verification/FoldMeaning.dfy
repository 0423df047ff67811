/** What expression trees over unsigned types mean: a value, and the side effects in the
    order they happen. */
module FoldMeaning {
  import opened Bits
  import opened Cc1Tree
  import opened FoldArith
  import opened Fold
  import opened Wrappers

  /** A side effect: a plain assignment, a compound one, or a call. */
  datatype Event =
    | Stored(id: nat, value: nat)
    | Updated(op: Op, id: nat, value: nat)
    | Called(id: nat, args: seq<nat>)

  /** What reading a variable, or calling a function, gives after some effects. */
  type World = (seq<Event>, nat) -> nat

  /** `Undef` where the program has no meaning: division by zero, or a shift by the width
      of the type or more. */
  datatype Result = Undef | Val(v: nat, t: seq<Event>)

  datatype Args = UndefArgs | Vals(vs: seq<nat>, t: seq<Event>)

  function Width(tp: Type): nat {
    8 * tp.size
  }

  function Range(tp: Type): nat {
    Pow2(8 * tp.size)
  }

  function UnaryMeaning(op: Op, w: nat, a: nat): nat
    requires w > 0
  {
    match op
    case OSNEG => Mod(0 - a, w)
    case OCPL => Mod(-1 - a, w)
    case ONEG => Bool(a == 0)
    case _ => Mod(a, w)
  }

  function BinaryMeaning(op: Op, bits: nat, a: nat, b: nat): Option<nat> {
    match op
    case OADD => Some(Mod(a + b, Pow2(bits)))
    case OSUB => Some(Mod(a - b, Pow2(bits)))
    case OMUL => Some(Mod(Times(a, b), Pow2(bits)))
    case ODIV => if b == 0 then None else Some(Div(a, b))
    case OMOD => if b == 0 then None else Some(a % b)
    case OSHL => if b >= bits then None else Some(Mod(Times(a, Pow2(b)), Pow2(bits)))
    case OSHR => if b >= bits then None else Some(Div(a, Pow2(b)))
    case OBAND => Some(BitAnd(a, b))
    case OBXOR => Some(BitXor(a, b))
    case OBOR => Some(BitOr(a, b))
    case OEQ => Some(Bool(a == b))
    case ONE => Some(Bool(a != b))
    case OLT => Some(Bool(a < b))
    case OGE => Some(Bool(a >= b))
    case OLE => Some(Bool(a <= b))
    case OGT => Some(Bool(a > b))
    case _ => None
  }

  predicate Assigns(op: Op) {
    op in {OASSIGN, OA_MUL, OA_DIV, OA_MOD, OA_ADD, OA_SUB, OA_SHL, OA_SHR, OA_AND, OA_XOR, OA_OR, OINC, ODEC}
  }

  predicate Compares(op: Op) {
    op in {OEQ, ONE, OLT, OGE, OLE, OGT}
  }

  predicate Computes(op: Op) {
    op in {OADD, OSUB, OMUL, ODIV, OMOD, OSHL, OSHR, OBAND, OBXOR, OBOR}
  }

  function Eval(np: Node, env: World, t: seq<Event>): Result {
    match np
    case Nil => Undef
    case Node(op, _, tp, sym, l, r) =>
      if op == OSYM then
        match sym
        case Lit(u, _, _) => Val(u, t)
        case Var(_, id, _) => Val(env(t, id) % Range(tp), t)
        case _ => Undef
      else if Assigns(op) then
        match Eval(r, env, t)
        case Undef => Undef
        case Val(v, t1) =>
          if !(l.Node? && l.sym.Var?) then Undef
          else if op == OASSIGN then Val(v, t1 + [Stored(l.sym.id, v)])
          else var t2 := t1 + [Updated(op, l.sym.id, v)]; Val(env(t2, l.sym.id) % Range(tp), t2)
      else if op in {OCALL, OCALLE} then
        match EvalArgs(r, env, t)
        case UndefArgs => Undef
        case Vals(vs, t1) =>
          if !(l.Node? && l.sym.Var?) then Undef
          else var t2 := t1 + [Called(l.sym.id, vs)]; Val(env(t2, l.sym.id) % Range(tp), t2)
      else
        match Eval(l, env, t)
        case Undef => Undef
        case Val(a, t1) =>
          if op in {OSNEG, OCPL, ONEG, OCAST} then Val(UnaryMeaning(op, Range(tp), a), t1)
          else if op == OASK then
            if !(r.Node? && r.op == OCOLON) then Undef
            else if a != 0 then Eval(r.left, env, t1) else Eval(r.right, env, t1)
          else if op == OAND && a == 0 then Val(0, t1)
          else if op == OOR && a != 0 then Val(1, t1)
          else
            match Eval(r, env, t1)
            case Undef => Undef
            case Val(b, t2) =>
              if op in {OAND, OOR} then Val(Bool(b != 0), t2)
              else if op == OCOMMA then Val(b, t2)
              else match BinaryMeaning(op, Width(tp), a, b) case None => Undef case Some(v) => Val(v, t2)
  }

  function EvalArgs(par: Node, env: World, t: seq<Event>): Args {
    match par
    case Nil => Vals([], t)
    case Node(_, _, _, _, l, r) =>
      match EvalArgs(l, env, t)
      case UndefArgs => UndefArgs
      case Vals(vs, t1) =>
        match Eval(r, env, t1)
        case Undef => UndefArgs
        case Val(v, t2) => Vals(vs + [v], t2)
  }

  predicate Unsigned(tp: Type) {
    tp.kind == INT && !tp.signed && tp.size in {1, 2, 4, 8}
  }

  /** The type of conditions. */
  predicate Signed(tp: Type) {
    tp.kind == INT && tp.signed && tp.size in {1, 2, 4, 8}
  }

  /** Trees whose value is 0 or 1 by their form. */
  predicate Truth(np: Node) {
    match np
    case Nil => false
    case Node(op, _, _, sym, l, r) =>
      if op == OSYM then sym.Lit? && sym.u <= 1
      else if op == OCAST then Truth(l)
      else if op == OCOMMA then Truth(r)
      else if op == OASK then r.Node? && Truth(r.left) && Truth(r.right)
      else Compares(op) || op in {OAND, OOR, ONEG}
  }

  predicate Variable(np: Node) {
    np.Node? && np.op == OSYM && !np.nconst && np.sym.Var? && np.left.Nil? && np.right.Nil?
  }

  predicate Constant(np: Node): (c: bool)
    ensures c ==> np.Node? && np.op == OSYM && np.sym.Lit?
  {
    np.Node? && np.op == OSYM && np.nconst && np.sym.Lit? && np.left.Nil? && np.right.Nil?
    && np.sym.ty == np.tp && np.sym.u < Range(np.tp)
  }

  /** Well-typed trees as the parser builds them, over unsigned types of any size;
      conditions have a signed type and are 0 or 1. */
  predicate Ok(np: Node): (ok: bool)
    ensures ok ==> np.Node?
  {
    match np
    case Nil => false
    case Node(op, nconst, tp, sym, l, r) =>
      && (Unsigned(tp) || (Signed(tp) && Truth(np)))
      && (if op == OSYM then Constant(np) || (Variable(np) && Unsigned(tp))
          else
            && !nconst && sym == NoSym
            && (if op in {OSNEG, OCPL} then Unsigned(tp) && Ok(l) && l.tp == tp && r.Nil?
                else if op == ONEG then Signed(tp) && Ok(l) && l.tp == tp && r.Nil?
                else if op == OCAST then Ok(l) && r.Nil?
                else if Computes(op) then Unsigned(tp) && Ok(l) && Ok(r) && l.tp == tp && r.tp == tp
                else if Compares(op) then Ok(l) && Ok(r) && l.tp == tp && r.tp == tp
                else if op in {OAND, OOR} then Signed(tp) && Ok(l) && Ok(r) && l.tp == tp && r.tp == tp
                else if op == OCOMMA then Ok(l) && Ok(r) && r.tp == tp
                else if op == OASK then Ok(l) && Truth(l) && OkColon(r, tp)
                else if Assigns(op) then Unsigned(tp) && Variable(l) && Ok(r) && r.tp == tp
                else if op in {OCALL, OCALLE} then Unsigned(tp) && Variable(l) && OkArgs(r)
                else false))
  }

  predicate OkColon(np: Node, tp: Type) {
    && np.Node? && np.op == OCOLON && !np.nconst && np.sym == NoSym
    && Ok(np.left) && Ok(np.right) && np.left.tp == tp && np.right.tp == tp
  }

  predicate OkArgs(np: Node) {
    np.Node? ==> np.op == OPAR && !np.nconst && OkArgs(np.left) && Ok(np.right)
  }

  /** Trees without assignments and calls. */
  predicate Quiet(np: Node) {
    match np
    case Nil => true
    case Node(op, _, _, _, l, r) => !Assigns(op) && op !in {OCALL, OCALLE} && Quiet(l) && Quiet(r)
  }

  lemma {:induction false} QuietEval(np: Node, env: World, t: seq<Event>)
    requires Quiet(np) && Eval(np, env, t).Val?
    ensures Eval(np, env, t).t == t
  {
    if np.op != OSYM {
      QuietEval(np.left, env, t);
      if np.op == OASK {
        if Eval(np.left, env, t).v != 0 {
          QuietEval(np.right.left, env, t);
        } else {
          QuietEval(np.right.right, env, t);
        }
      } else if Eval(np.right, env, t).Val? {
        QuietEval(np.right, env, t);
      }
    }
  }

  lemma RangePositive(tp: Type)
    requires tp.size in {1, 2, 4, 8}
    ensures Range(tp) >= 256 && Range(tp) <= WORD
    ensures exists k: nat :: k > 0 && WORD == Range(tp) * k
  {
    Pow2Values();
    assert WORD == Pow2(8) * Pow2(56) == Pow2(16) * Pow2(48) == Pow2(32) * Pow2(32) == Pow2(64) * 1;
  }

  lemma Pow2Values()
    ensures Pow2(8) == 0x100 && Pow2(16) == 0x1_0000 && Pow2(32) == 0x1_0000_0000 && Pow2(64) == WORD
    ensures Pow2(56) == 0x100_0000_0000_0000 && Pow2(48) == 0x1_0000_0000_0000
  {
    assert Pow2(4) == 16;
    Pow2Add(4, 4);
    Pow2Add(8, 8);
    Pow2Add(16, 16);
    Pow2Add(32, 32);
    Pow2Add(32, 16);
    Pow2Add(48, 8);
  }

  lemma RangeWidth(tp: Type)
    ensures Range(tp) == Pow2(Width(tp)) && (tp.size > 0 ==> Width(tp) > 0)
  {
  }

  lemma UnaryInRange(op: Op, w: nat, a: nat)
    requires w > 1
    ensures UnaryMeaning(op, w, a) < w
    ensures op == ONEG || (op == OCAST && a <= 1) ==> UnaryMeaning(op, w, a) <= 1
  {
    if op == OCAST && a <= 1 {
      ModUnique(a, w, 0, a);
    }
  }

  lemma TruthInRange(op: Op, bits: nat, a: nat, b: nat)
    ensures BinaryMeaning(op, bits, a, b).Some? && Compares(op) ==> BinaryMeaning(op, bits, a, b).value <= 1
  {
  }

  lemma ComputedInRange(op: Op, bits: nat, a: nat, b: nat)
    requires a < Pow2(bits) && b < Pow2(bits)
    ensures BinaryMeaning(op, bits, a, b).Some? && Computes(op) ==> BinaryMeaning(op, bits, a, b).value < Pow2(bits)
  {
    BitsBounded(a, b, bits);
    if b > 0 {
      DivBounds(a, b);
    }
    DivBounds(a, Pow2(b));
  }
}
