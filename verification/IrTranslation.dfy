/** What the back end must rebuild from a printed tree, and the trees that can be printed. */
module IrTranslation {
  import opened Bits
  import opened Cc1Tree
  import P = IrParser

  /** The back end's code of an operator, and the operator an assignment compounds. */
  function Code(op: Op): char {
    match op
    case OADD => '+' case OSUB => '-' case OMUL => '*' case OMOD => '%' case ODIV => '/'
    case OSHL => 'l' case OSHR => 'r'
    case OLT => '<' case OGT => '>' case OGE => ']' case OLE => '[' case OEQ => '=' case ONE => '!'
    case OBAND => '&' case OBXOR => '^' case OBOR => '|'
    case OADDR => '\'' case OPTR => '@' case OSNEG => '_' case ONEG => 'n' case OCPL => '~'
    case OAND => 'a' case OOR => 'o' case OASK => '?' case OCOMMA => ',' case OFIELD => '.'
    case OPAR => 'p' case OCALL => 'c' case OCALLE => 'z' case OCAST => 'g' case OBUILTIN => 'm'
    case OCOLON => ' ' case OSYM => 'M'
    case _ => ':'
  }

  function Subop(op: Op): char {
    match op
    case OA_MUL => '*' case OA_DIV => '/' case OA_MOD => '%' case OA_ADD => '+' case OA_SUB => '-'
    case OA_SHL => 'l' case OA_SHR => 'r' case OA_AND => '&' case OA_XOR => '^' case OA_OR => '|'
    case OINC => 'i' case ODEC => 'd'
    case _ => '\0'
  }

  predicate Prefix(op: Op) {
    op in {OADDR, OPTR, OSNEG, ONEG, OCPL}
  }

  predicate Infix(op: Op) {
    op in {OADD, OSUB, OMUL, OMOD, ODIV, OSHL, OSHR, OLT, OGT, OGE, OLE, OEQ, ONE, OBAND, OBXOR, OBOR, OAND, OOR, OCOMMA, OFIELD}
  }

  predicate Assignment(op: Op) {
    op in {OINC, ODEC, OASSIGN, OA_MUL, OA_DIV, OA_MOD, OA_ADD, OA_SUB, OA_SHL, OA_SHR, OA_AND, OA_XOR, OA_OR}
  }

  predicate Calls(op: Op) {
    op == OCALL || op == OCALLE
  }

  function TyOf(tp: Type): P.Ty {
    if tp.ellipsis then P.ByLetter('E')
    else if tp.kind in {ARY, STRUCT, UNION} then P.OfSymbol(tp.id)
    else P.ByLetter(tp.letter)
  }

  /** The kind of operand of a symbol: automatic variables and registers have their own,
      all the others are in memory. */
  function StorageKind(class_: char): char {
    match class_
    case 'A' => 'A'
    case 'R' => 'R'
    case 'G' => 'M'
    case 'X' => 'M'
    case 'Y' => 'M'
    case 'T' => 'M'
    case 'M' => 'M'
    case 'L' => 'L'
    case _ => '\0'
  }

  function LeafOf(np: Node): P.Tree
    requires np.Node?
  {
    match np.sym
    case Lit(u, _, _) => P.Const(P.ByLetter(np.tp.letter), Mod(u, Pow2(8 * np.tp.size)))
    case Var(class_, id, _) => P.Symbol(StorageKind(class_), id)
    case _ => P.NoTree
  }

  function BuiltinCode(name: string): char {
    if name == "__builtin_va_arg" then 'a' else if name == "__builtin_va_start" then 's' else 'e'
  }

  /** The tree the back end should have: casts to void are dropped, and parameters become
      a list from the first to the last. */
  function Translate(np: Node): P.Tree {
    match np
    case Nil => P.NoTree
    case Node(op, _, tp, sym, l, r) =>
      if op == OSYM then LeafOf(np)
      else if op == OCAST then
        if tp.kind == VOID then Translate(l) else P.Tree('g', '\0', P.ByLetter(tp.letter), Translate(l), P.NoTree)
      else if op == OBUILTIN then
        P.Tree('m', BuiltinCode(if sym.Builtin? then sym.name else ""), TyOf(tp), Translate(l), Translate(r))
      else if Calls(op) then P.Tree(Code(op), '\0', TyOf(tp), Translate(l), Params(r, P.NoTree))
      else if op == OCOLON then P.Tree(' ', '\0', P.ByLetter('\0'), Translate(l), Translate(r))
      else P.Tree(Code(op), Subop(op), TyOf(tp), Translate(l), Translate(r))
  }

  /** The front end keeps the last parameter at the root, the back end the first one. */
  function Params(par: Node, rest: P.Tree): P.Tree {
    match par
    case Nil => rest
    case Node(_, _, tp, _, prev, arg) => Params(prev, P.Tree('p', '\0', TyOf(tp), Translate(arg), rest))
  }

  /** The parameters of a call in the order of the source, on both sides. */
  function Arguments(par: Node): seq<Node> {
    match par case Nil => [] case Node(_, _, _, _, prev, arg) => Arguments(prev) + [arg]
  }

  function Listed(t: P.Tree): seq<P.Tree> {
    match t case Tree(_, _, _, left, right) => [left] + Listed(right) case _ => []
  }

  lemma {:induction false} ParamsInOrder(par: Node, rest: P.Tree)
    ensures |Listed(Params(par, rest))| == |Arguments(par)| + |Listed(rest)|
    ensures forall i :: 0 <= i < |Arguments(par)| ==> Listed(Params(par, rest))[i] == Translate(Arguments(par)[i])
    ensures Listed(Params(par, rest))[|Arguments(par)|..] == Listed(rest)
  {
    match par
    case Nil =>
    case Node(_, _, tp, _, prev, arg) =>
      var p := P.Tree('p', '\0', TyOf(tp), Translate(arg), rest);
      assert Listed(p) == [Translate(arg)] + Listed(rest);
      ParamsInOrder(prev, p);
      var all, n := Listed(Params(prev, p)), |Arguments(prev)|;
      assert all[n] == all[n..][0];
      assert all[n + 1..] == all[n..][1..];
  }

  predicate ValidId(id: nat) {
    0 < id < 65535
  }

  /** The letters of the front end's types that have no number. */
  predicate TypeLetter(c: char) {
    c in {'C', 'I', 'W', 'Q', 'K', 'N', 'Z', 'O', 'B', 'J', 'D', 'H', 'E', '1', '0', 'P', 'F'}
  }

  predicate TypeOk(tp: Type) {
    || tp.ellipsis
    || (tp.kind == ARY && tp.letter == 'V' && ValidId(tp.id))
    || (tp.kind == STRUCT && tp.letter == 'S' && ValidId(tp.id))
    || (tp.kind == UNION && tp.letter == 'U' && ValidId(tp.id))
    || (tp.kind !in {ARY, STRUCT, UNION} && TypeLetter(tp.letter))
  }

  predicate LeafOk(np: Node)
    requires np.Node?
  {
    match np.sym
    case Lit(u, _, _) => np.tp.kind in {PTR, INT, ENUM} && TypeLetter(np.tp.letter) && np.tp.size <= 8
    case Var(class_, id, _) => class_ in {'T', 'Y', 'G', 'R', 'M', 'X', 'A'} && ValidId(id)
    case _ => false
  }

  /** Expressions as the front end builds them. */
  predicate Printable(np: Node): (ok: bool)
    ensures ok ==> np.Node?
  {
    match np
    case Nil => false
    case Node(op, _, tp, sym, l, r) =>
      if op == OSYM then LeafOk(np)
      else if op == OCAST then Printable(l) && (tp.kind == VOID || TypeLetter(tp.letter))
      else
        && TypeOk(tp)
        && (if Prefix(op) then Printable(l) && r.Nil?
            else if Infix(op) || Assignment(op) then Printable(l) && Printable(r)
            else if op == OASK then
              Printable(l) && r.Node? && r.op == OCOLON && Printable(r.left) && Printable(r.right)
            else if Calls(op) then Printable(l) && PrintableArgs(r)
            else
              && op == OBUILTIN && sym.Builtin? && Printable(l)
              && (if sym.name == "__builtin_va_start" then Printable(r)
                  else sym.name in {"__builtin_va_arg", "__builtin_va_end"} && r.Nil?))
  }

  predicate PrintableArgs(par: Node) {
    match par
    case Nil => true
    case Node(op, _, tp, _, prev, arg) => op == OPAR && TypeOk(tp) && PrintableArgs(prev) && Printable(arg)
  }

  function Max(a: nat, b: nat): nat {
    if a < b then b else a
  }

  /** Slots of the parser's stack that a tree needs: the operands, and a slot for the type
      of an operator, which goes through the stack too. */
  function Need(np: Node): nat {
    match np
    case Nil => 0
    case Node(op, _, tp, sym, l, r) =>
      if op == OSYM then 1
      else if op == OBUILTIN then if r.Nil? then Max(Need(l), 3) else Max(Need(l), Max(1 + Need(r), 4))
      else if op == OCAST && tp.kind == VOID then Need(l)
      else if op == OCAST || Prefix(op) then Max(Need(l), 2)
      else if op == OASK then
        if r.Nil? then 0 else Max(Max(Need(l), 1 + Need(r.left)), Max(2 + Need(r.right), 4))
      else if Calls(op) then Max(Need(l), 1 + NeedArgs(r))
      else Max(Need(l), Max(1 + Need(r), 3))
  }

  function NeedArgs(par: Node): nat {
    match par
    case Nil => 0
    case Node(_, _, _, _, prev, arg) => Max(NeedArgs(prev), |Arguments(prev)| + Max(Need(arg), 2))
  }

  lemma {:induction false} BuiltinNeed(np: Node)
    requires np.Node? && np.op == OBUILTIN && np.sym.Builtin?
    ensures Need(np) == if np.right.Nil? then Max(Need(np.left), 3) else Max(Need(np.left), Max(1 + Need(np.right), 4))
  {
    hide Max, Arguments, NeedArgs;
  }
}
