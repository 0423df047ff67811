/** The printer of expression trees: postfix tokens, one tab before each. */
module IrPrinter {
  import opened Bits
  import opened Cc1Tree
  import opened Fold
  import opened Numerals

  /** The characters of an operator; a colon is not printed. */
  function OpText(op: Op): string {
    match op
    case OADD => "+" case OSUB => "-" case OMUL => "*" case OMOD => "%" case ODIV => "/"
    case OSHL => "l" case OSHR => "r"
    case OLT => "<" case OGT => ">" case OGE => "]" case OLE => "[" case OEQ => "=" case ONE => "!"
    case OBAND => "&" case OBXOR => "^" case OBOR => "|"
    case OINC => ":i" case ODEC => ":d"
    case OASSIGN => ":" case OA_MUL => ":*" case OA_DIV => ":/" case OA_MOD => ":%" case OA_ADD => ":+" case OA_SUB => ":-"
    case OA_SHL => ":l" case OA_SHR => ":r" case OA_AND => ":&" case OA_XOR => ":^" case OA_OR => ":|"
    case OADDR => "'" case OPTR => "@" case OSNEG => "_" case ONEG => "n" case OCPL => "~"
    case OAND => "a" case OOR => "o" case OASK => "?" case OCOMMA => "," case OFIELD => "."
    case OPAR => "p" case OCALL => "c" case OCALLE => "z" case OCAST => "g"
    case OCOLON => "" case OSYM => "" case OBUILTIN => "m"
  }

  function TypeText(tp: Type): string {
    [if tp.ellipsis then 'E' else tp.letter] + if tp.kind in {ARY, STRUCT, UNION} then Numeral(tp.id, 10, UPPER) else ""
  }

  /** A leaf: a constant with the bits of its type in hexadecimal, or a variable with the
      letter of its storage class and its number. */
  function LeafText(np: Node): string
    requires np.Node?
  {
    match np.sym
    case Lit(u, _, _) => ['#', np.tp.letter] + Numeral(BitAnd(u, Ones(np.tp.size)), 16, UPPER)
    case Var(class_, id, _) => [class_] + Numeral(id, 10, UPPER)
    case _ => ""
  }

  /** What is printed for a node after its children. */
  function Tail(np: Node): string
    requires np.Node?
  {
    if np.op == OSYM then "\t" + LeafText(np)
    else if np.op == OCAST then (if np.tp.kind == VOID then "" else "\tg" + [np.tp.letter])
    else if np.op == OBUILTIN then "\t\"" + (if np.sym.Builtin? then np.sym.name else "") + "\tm" + TypeText(np.tp)
    else if np.op == OCOLON then "" else "\t" + OpText(np.op) + TypeText(np.tp)
  }

  /** What is printed for a tree. */
  function Printed(np: Node): string {
    match np
    case Nil => ""
    case Node(op, _, _, _, l, r) =>
      if op == OSYM then Tail(np) else if op == OCAST then Printed(l) + Tail(np) else Printed(l) + Printed(r) + Tail(np)
  }

  /** The stream the printer appends to. */
  class Emitter {
    var out: string

    constructor ()
      ensures out == ""
    {
      out := "";
    }

    method EmitLetter(tp: Type)
      modifies this
      ensures out == old(out) + TypeText(tp)
    {
      out := out + [if tp.ellipsis then 'E' else tp.letter];
      if tp.kind == ARY || tp.kind == STRUCT || tp.kind == UNION {
        out := out + Numeral(tp.id, 10, UPPER);
      }
    }

    method EmitSym(np: Node)
      requires np.Node? && np.op == OSYM
      modifies this
      ensures out == old(out) + Tail(np)
    {
      match np.sym
      case Lit(u, _, _) =>
        out := out + ("\t" + (['#', np.tp.letter] + Numeral(BitAnd(u, Ones(np.tp.size)), 16, UPPER)));
      case Var(class_, id, _) =>
        out := out + ("\t" + ([class_] + Numeral(id, 10, UPPER)));
      case _ =>
        out := out + "\t";
    }

    method EmitCast(np: Node)
      requires np.Node? && np.op == OCAST
      modifies this
      ensures out == old(out) + Printed(np.left) + Tail(np)
      decreases np, 0
    {
      EmitNode(np.left);
      if np.tp.kind != VOID {
        out := out + "\tg" + [np.tp.letter];
      }
    }

    method EmitBuilt(np: Node)
      requires np.Node? && np.op == OBUILTIN
      modifies this
      ensures out == old(out) + Printed(np.left) + Printed(np.right) + Tail(np)
      decreases np, 0
    {
      hide Printed, Tail, TypeText;
      EmitNode(np.left);
      EmitNode(np.right);
      BuiltTail(out, np);
      out := out + "\t\"" + (if np.sym.Builtin? then np.sym.name else "") + "\tm";
      EmitLetter(np.tp);
    }

    method EmitBin(np: Node)
      requires np.Node? && np.op !in {OSYM, OCAST, OBUILTIN}
      modifies this
      ensures out == old(out) + Printed(np.left) + Printed(np.right) + Tail(np)
      decreases np, 0
    {
      hide Printed, Tail, TypeText, OpText;
      EmitNode(np.left);
      EmitNode(np.right);
      BinTail(out, np);
      if np.op != OCOLON {
        out := out + "\t" + OpText(np.op);
        EmitLetter(np.tp);
      }
    }

    /** Prints the left operand, the right one, then the operator. */
    method EmitNode(np: Node)
      modifies this
      ensures out == old(out) + Printed(np)
      decreases np, 1
    {
      if np.Nil? {
        return;
      }
      ghost var before := out;
      if np.op == OSYM {
        EmitSym(np);
      } else if np.op == OCAST {
        EmitCast(np);
        Concat(before, Printed(np.left), "", Tail(np));
      } else if np.op == OBUILTIN {
        EmitBuilt(np);
        Concat(before, Printed(np.left), Printed(np.right), Tail(np));
      } else {
        EmitBin(np);
        Concat(before, Printed(np.left), Printed(np.right), Tail(np));
      }
    }
  }

  lemma BuiltTail(a: string, np: Node)
    requires np.Node? && np.op == OBUILTIN
    ensures a + "\t\"" + (if np.sym.Builtin? then np.sym.name else "") + "\tm" + TypeText(np.tp) == a + Tail(np)
  {
    hide TypeText;
  }

  lemma BinTail(a: string, np: Node)
    requires np.Node? && np.op !in {OSYM, OCAST, OBUILTIN}
    ensures (if np.op == OCOLON then a else a + "\t" + OpText(np.op) + TypeText(np.tp)) == a + Tail(np)
  {
    hide TypeText, OpText;
  }

  lemma Concat(a: string, b: string, c: string, d: string)
    ensures a + b + c + d == a + (b + c + d) && a + b + d == a + (b + d)
  {
  }
}
