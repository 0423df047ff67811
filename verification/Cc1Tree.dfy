/** Expression trees of the compiler's front end. */
module Cc1Tree {

  /** Operators of expression nodes. */
  datatype Op =
    | OADD | OMUL | OSUB | OINC | ODEC | ODIV | OMOD | OSHL | OSHR | OBAND | OBXOR | OBOR
    | OSNEG | ONEG | OCPL | OAND | OOR | OEQ | ONE | OLT | OGE | OLE | OGT
    | OASSIGN | OA_MUL | OA_DIV | OA_MOD | OA_ADD | OA_SUB | OA_SHL | OA_SHR | OA_AND | OA_XOR | OA_OR
    | OADDR | OCOMMA | OCAST | OPTR | OSYM | OASK | OCOLON | OFIELD | OPAR | OCALL | OCALLE | OBUILTIN

  datatype Kind = INT | ENUM | PTR | FLOAT | VOID | FTN | ARY | STRUCT | UNION

  datatype Type = Type(kind: Kind, size: nat, signed: bool, letter: char, id: nat, ellipsis: bool)

  /** What a node's `sym` points to: a constant with its 64-bit pattern and SCONSTANT
      flag, a variable or field, or a builtin. */
  datatype Sym =
    | NoSym
    | Lit(u: nat, ty: Type, constant: bool)
    | Var(class_: char, id: nat, offset: nat)
    | Builtin(name: string)

  /** `Nil` is the null pointer; `nconst` is the NCONST flag. */
  datatype Node = Nil | Node(op: Op, nconst: bool, tp: Type, sym: Sym, left: Node, right: Node)

  function ConstNode(sym: Sym): Node
    requires sym.Lit?
  {
    Node(OSYM, true, sym.ty, sym, Nil, Nil)
  }

  /** A node as the parser makes it: not known to be constant. */
  function NewNode(op: Op, tp: Type, left: Node, right: Node): Node {
    Node(op, false, tp, NoSym, left, right)
  }

  function Size(np: Node): nat {
    match np
    case Nil => 0
    case Node(_, _, _, _, l, r) => 1 + Size(l) + Size(r)
  }
}
