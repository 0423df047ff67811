/** The back end's parser: a stack of elements, one action for each token. */
module IrParser {
  import opened Bits
  import opened Wrappers
  import opened FoldArith
  import opened Numerals

  const STACKSIZ: nat := 50
  const USHRT_MAX: nat := 65535

  /** Types of the back end: a basic one, or the type of a numbered symbol. */
  datatype Ty = ByLetter(letter: char) | OfSymbol(id: nat)

  /** Nodes of the back end.  A symbol node has the type of its symbol. */
  datatype Tree =
    | NoTree
    | Symbol(op: char, id: nat)
    | Const(ty: Ty, value: nat)
    | Str(text: string)
    | Tree(op: char, subop: char, ty: Ty, left: Tree, right: Tree)

  datatype Elem = Ptr(tree: Tree) | TypeElem(ty: Ty) | Name(name: string)

  /** What stops the parser; `Unmodelled` stands for statement tokens and for elements used
      as what they are not. */
  datatype Error = ESTACKO | ESTACKU | ESYNTAX | EBADID | EBBUILT | Unmodelled

  datatype Outcome = Stack(elems: seq<Elem>) | Failed(error: Error)

  predicate BasicLetter(c: char) {
    c in {'C', 'I', 'W', 'Q', 'K', 'N', 'Z', 'O', 'J', 'D', 'H', '0', 'B', 'P', 'E', '1', 'F'}
  }

  predicate SymbolLetter(c: char) {
    c in {'A', 'R', 'G', 'X', 'Y', 'T', 'M', 'L'}
  }

  predicate UnaryLetter(c: char) {
    c in {'~', '_', '\'', '@', 'g', 'p', 'n'}
  }

  predicate BinaryLetter(c: char) {
    c in {'a', 'o', '.', '+', '-', '*', '%', '/', 'l', 'r', '<', '>', '[', ']', '=', '!', '&', '|', '^', ','}
  }

  predicate SubopLetter(c: char) {
    c in {'+', '-', '*', '%', '/', 'l', 'r', '&', '|', '^', 'i', 'd'}
  }

  predicate StatementLetter(c: char) {
    c in {'(', ')', 'j', 'y', 'h', 'b', 'e', 'v', 'f', 't', 's'}
  }

  /** Has the token an action?  The others end an expression. */
  predicate HasParse(c: char) {
    BasicLetter(c) || SymbolLetter(c) || UnaryLetter(c) || BinaryLetter(c) || StatementLetter(c) || c in {'V', 'U', 'S', '"', 'm', ':', '?', 'c', 'z', '#'}
  }

  /** The kind of operand that the storage class of a symbol selects. */
  function OperandKind(c: char): char {
    if c == 'A' || c == 'R' || c == 'L' then c else 'M'
  }

  function Digits(s: string): (n: nat)
    ensures n <= |s|
  {
    if s != "" && Index(UPPER, s[0]) < 10 then 1 + Digits(s[1..]) else 0
  }

  /** The number a token carries after its letter. */
  function Atoi(s: string): nat {
    Value(s[..Digits(s)], 10, UPPER)
  }

  function Push(s: seq<Elem>, e: Elem): Outcome {
    if |s| >= STACKSIZ then Failed(ESTACKO) else Stack(s + [e])
  }

  datatype Popped = Popped(tree: Tree, rest: seq<Elem>) | NotPopped(error: Error)

  function Pop(s: seq<Elem>): Popped {
    if s == [] then NotPopped(ESTACKU)
    else if s[|s| - 1].Ptr? then Popped(s[|s| - 1].tree, s[..|s| - 1])
    else NotPopped(Unmodelled)
  }

  datatype Typed = Typed(ty: Ty) | NotTyped(error: Error)

  /** Reads a type through the stack: it is pushed and popped. */
  function GetType(s: seq<Elem>, token: string): Typed {
    if token == "" || !HasParse(token[0]) then NotTyped(ESYNTAX)
    else if BasicLetter(token[0]) then (if |s| >= STACKSIZ then NotTyped(ESTACKO) else Typed(ByLetter(token[0])))
    else if token[0] in {'V', 'U', 'S'} then
      if Atoi(token[1..]) >= USHRT_MAX then NotTyped(EBADID)
      else if |s| >= STACKSIZ then NotTyped(ESTACKO)
      else Typed(OfSymbol(Atoi(token[1..])))
    else NotTyped(Unmodelled)
  }

  function ParseType(s: seq<Elem>, token: string): Outcome
    requires token != ""
  {
    match GetType(s, token)
    case Typed(ty) => Push(s, TypeElem(ty))
    case NotTyped(e) => Failed(e)
  }

  function ParseSymbol(s: seq<Elem>, token: string): Outcome
    requires token != ""
  {
    if Atoi(token[1..]) >= USHRT_MAX then Failed(EBADID) else Push(s, Ptr(Symbol(OperandKind(token[0]), Atoi(token[1..]))))
  }

  function ParseConstant(s: seq<Elem>, token: string): Outcome
    requires token != ""
  {
    if |token| > 1 && token[1] == '"' then Push(s, Ptr(Str(token[2..])))
    else
      match GetType(s, token[1..])
      case NotTyped(e) => Failed(e)
      case Typed(ty) =>
        if !Digital(token[2..], 16, UPPER) then Failed(Unmodelled)
        else Push(s, Ptr(Const(ty, Mod(Value(token[2..], 16, UPPER), WORD))))
  }

  function ParseUnary(s: seq<Elem>, token: string): Outcome
    requires token != ""
  {
    match GetType(s, token[1..])
    case NotTyped(e) => Failed(e)
    case Typed(ty) =>
      match Pop(s)
      case NotPopped(e) => Failed(e)
      case Popped(left, s1) => Push(s1, Ptr(Tree(token[0], '\0', ty, left, NoTree)))
  }

  /** Two operands: binary operators, and assignments with the operator they compound. */
  function ParseBinary(s: seq<Elem>, op: char, subop: char, token: string): Outcome {
    match GetType(s, token)
    case NotTyped(e) => Failed(e)
    case Typed(ty) =>
      match Pop(s)
      case NotPopped(e) => Failed(e)
      case Popped(right, s1) =>
        match Pop(s1)
        case NotPopped(e) => Failed(e)
        case Popped(left, s2) => Push(s2, Ptr(Tree(op, subop, ty, left, right)))
  }

  function ParseAssign(s: seq<Elem>, token: string): Outcome
    requires token != ""
  {
    if |token| > 1 && SubopLetter(token[1]) then ParseBinary(s, ':', token[1], token[2..])
    else ParseBinary(s, ':', '\0', token[1..])
  }

  function ParseTernary(s: seq<Elem>, token: string): Outcome
    requires token != ""
  {
    match GetType(s, token[1..])
    case NotTyped(e) => Failed(e)
    case Typed(ty) =>
      match Pop(s)
      case NotPopped(e) => Failed(e)
      case Popped(no, s1) =>
        match Pop(s1)
        case NotPopped(e) => Failed(e)
        case Popped(yes, s2) =>
          match Pop(s2)
          case NotPopped(e) => Failed(e)
          case Popped(cond, s3) =>
            Push(s3, Ptr(Tree('?', '\0', ty, cond, Tree(' ', '\0', ByLetter('\0'), yes, no))))
  }

  datatype Callee = Callee(fun: Tree, pars: Tree, rest: seq<Elem>) | NoCallee(error: Error)

  /** Pops parameters until something else: the first one becomes the head of the list. */
  function PopCall(s: seq<Elem>, par: Tree): Callee {
    match Pop(s)
    case NotPopped(e) => NoCallee(e)
    case Popped(np, s1) => if np.Tree? && np.op == 'p' then PopCall(s1, np.(right := par)) else Callee(np, par, s1)
  }

  function ParseCall(s: seq<Elem>, token: string): Outcome
    requires token != ""
  {
    match PopCall(s, NoTree)
    case NoCallee(e) => Failed(e)
    case Callee(fun, pars, s1) =>
      match GetType(s1, token[1..])
      case NotTyped(e) => Failed(e)
      case Typed(ty) => Push(s1, Ptr(Tree(token[0], '\0', ty, fun, pars)))
  }

  /** The operation and the number of operands of a builtin. */
  function BuiltinOp(name: string): (r: Option<(char, nat)>) {
    if name == "__builtin_va_arg" then Some(('a', 1))
    else if name == "__builtin_va_start" then Some(('s', 2))
    else if name == "__builtin_va_end" then Some(('e', 1))
    else if name == "__builtin_va_copy" then Some(('c', 2))
    else None
  }

  function ParseBuiltin(s: seq<Elem>, token: string): Outcome
    requires token != ""
  {
    match GetType(s, token[1..])
    case NotTyped(e) => Failed(e)
    case Typed(ty) =>
      if s == [] then Failed(ESTACKU)
      else if !s[|s| - 1].Name? || s[|s| - 1].name == "" then Failed(Unmodelled)
      else
        match BuiltinOp(s[|s| - 1].name)
        case None => Failed(EBBUILT)
        case Some((subop, n)) => Built(s[..|s| - 1], subop, n, ty)
  }

  /** A builtin over the one or two nodes on top of the stack. */
  function Built(s: seq<Elem>, subop: char, n: nat, ty: Ty): Outcome {
    match if n == 2 then Pop(s) else Popped(NoTree, s)
    case NotPopped(e) => Failed(e)
    case Popped(right, s1) =>
      match Pop(s1)
      case NotPopped(e) => Failed(e)
      case Popped(left, s2) => Push(s2, Ptr(Tree('m', subop, ty, left, right)))
  }

  /** The action of one token. */
  function Exec(s: seq<Elem>, token: string): Outcome
    requires token != "" && HasParse(token[0])
  {
    var c := token[0];
    if BasicLetter(c) || c in {'V', 'U', 'S'} then ParseType(s, token)
    else if SymbolLetter(c) then ParseSymbol(s, token)
    else if UnaryLetter(c) then ParseUnary(s, token)
    else if BinaryLetter(c) then ParseBinary(s, c, '\0', token[1..])
    else if c == '"' then Push(s, Name(token[1..]))
    else if c == 'm' then ParseBuiltin(s, token)
    else if c == ':' then ParseAssign(s, token)
    else if c == '?' then ParseTernary(s, token)
    else if c == 'c' || c == 'z' then ParseCall(s, token)
    else if c == '#' then ParseConstant(s, token)
    else Failed(Unmodelled)
  }

  /** The actions of the tokens of a line, up to one that has none. */
  function Run(s: seq<Elem>, tokens: seq<string>): Outcome
    decreases |tokens|
  {
    if tokens == [] || tokens[0] == "" || !HasParse(tokens[0][0]) then Stack(s)
    else
      match Exec(s, tokens[0])
      case Failed(e) => Failed(e)
      case Stack(s1) => Run(s1, tokens[1..])
  }

  predicate Delimiter(c: char) {
    c == '\t' || c == '\n'
  }

  /** The length of the run of characters that are no delimiters. */
  function Span(line: string): (n: nat)
    ensures n <= |line| && (n < |line| ==> Delimiter(line[n]))
    ensures forall i :: 0 <= i < n ==> !Delimiter(line[i])
  {
    if line == "" || Delimiter(line[0]) then 0 else 1 + Span(line[1..])
  }

  /** The tokens of a line. */
  function Tokens(line: string): seq<string> {
    if line == "" then []
    else if Delimiter(line[0]) then Tokens(line[1..])
    else [line[..Span(line)]] + Tokens(line[Span(line)..])
  }
}
