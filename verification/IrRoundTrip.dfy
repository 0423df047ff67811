/** Parsing what was printed gives the translated tree, if and only if the stack is deep
    enough. */
module IrRoundTrip {
  import opened Bits
  import opened Cc1Tree
  import opened FoldArith
  import opened Fold
  import opened Numerals
  import opened IrPrinter
  import opened IrParser
  import opened IrTranslation
  import FoldMeaning

  // Numbers in tokens

  lemma {:induction false} AllDigits(s: string)
    requires Digital(s, 10, UPPER)
    ensures Digits(s) == |s|
  {
    if s != "" {
      assert Digital(s[1..], 10, UPPER);
      AllDigits(s[1..]);
    }
  }

  lemma IdRoundTrip(id: nat)
    ensures Atoi(Numeral(id, 10, UPPER)) == id
  {
    TablesDistinct();
    NumeralRoundTrip(id, 10, UPPER);
    var s := Numeral(id, 10, UPPER);
    AllDigits(s);
    assert s[..|s|] == s;
  }

  lemma {:induction false} ConstantRoundTrip(u: nat, size: nat)
    requires size <= 8
    ensures var s := Numeral(BitAnd(u, Ones(size)), 16, UPPER);
            Digital(s, 16, UPPER) && Mod(Value(s, 16, UPPER), WORD) == Mod(u, Pow2(8 * size))
  {
    hide BitAnd, Numeral, Value, Digital, Pow2;
    TablesDistinct();
    var v, w := BitAnd(u, Ones(size)), Pow2(8 * size);
    NumeralRoundTrip(v, 16, UPPER);
    BitAndOnes(u, 8 * size);
    assert v == Mod(u, w);
    PowerAtMostWord(8 * size);
    ModUnique(v, WORD, 0, v);
  }

  lemma {:induction false} PowerAtMostWord(n: nat)
    requires n <= 64
    ensures Pow2(n) <= WORD
    decreases 64 - n
  {
    if n == 64 {
      FoldMeaning.Pow2Values();
    } else {
      PowerAtMostWord(n + 1);
      PowerGrows(n);
    }
    hide Pow2;
  }

  lemma PowerGrows(n: nat)
    ensures Pow2(n) < Pow2(n + 1)
  {
  }

  // Tokens

  /** A token that `strtok` gives back whole. */
  predicate Whole(token: string) {
    token != "" && forall i :: 0 <= i < |token| ==> !Delimiter(token[i])
  }

  predicate Boundary(rest: string) {
    rest == "" || Delimiter(rest[0])
  }

  lemma SpanWhole(token: string, rest: string)
    requires Whole(token) && Boundary(rest)
    ensures Span(token + rest) == |token|
  {
    var n, line := Span(token + rest), token + rest;
    assert forall i :: 0 <= i < |token| ==> line[i] == token[i];
    assert rest != "" ==> line[|token|] == rest[0];
  }

  lemma OneToken(token: string, rest: string)
    requires Whole(token) && Boundary(rest)
    ensures Tokens("\t" + token + rest) == [token] + Tokens(rest)
  {
    var line := token + rest;
    assert ("\t" + token + rest)[1..] == line;
    SpanWhole(token, rest);
    assert line[..|token|] == token && line[|token|..] == rest;
    assert line[0] == token[0];
  }

  /** The tokens printed after a node's children. */
  function TailTokens(np: Node): seq<string>
    requires np.Node?
  {
    if np.op == OSYM then [LeafText(np)]
    else if np.op == OCAST then (if np.tp.kind == VOID then [] else ["g" + [np.tp.letter]])
    else if np.op == OBUILTIN then ["\"" + (if np.sym.Builtin? then np.sym.name else ""), "m" + TypeText(np.tp)]
    else if np.op == OCOLON then [] else [OpText(np.op) + TypeText(np.tp)]
  }

  function TokensOf(np: Node): seq<string> {
    match np
    case Nil => []
    case Node(op, _, _, _, l, r) =>
      if op == OSYM then TailTokens(np)
      else if op == OCAST then TokensOf(l) + TailTokens(np)
      else TokensOf(l) + TokensOf(r) + TailTokens(np)
  }

  /** Trees whose printed tokens are whole. */
  predicate WholeTokens(np: Node) {
    match np
    case Nil => true
    case Node(op, _, _, _, l, r) =>
      && AllWhole(TailTokens(np))
      && (op != OSYM ==> WholeTokens(l)) && (op != OSYM && op != OCAST ==> WholeTokens(r))
  }

  predicate AllWhole(tokens: seq<string>) {
    forall k :: 0 <= k < |tokens| ==> Whole(tokens[k])
  }

  lemma Assoc<T>(a: seq<T>, b: seq<T>, c: seq<T>)
    ensures (a + b) + c == a + (b + c)
  {
  }

  /** The characters of the tokens, a tab before each. */
  function Tabbed(tokens: seq<string>): string {
    if tokens == [] then "" else "\t" + tokens[0] + Tabbed(tokens[1..])
  }

  lemma TailTabbed(np: Node)
    requires np.Node?
    ensures Tail(np) == Tabbed(TailTokens(np))
  {
    hide OpText, TypeText, LeafText;
    var ts := TailTokens(np);
    if np.op == OBUILTIN {
      var n, m := (if np.sym.Builtin? then np.sym.name else ""), TypeText(np.tp);
      assert ts[1..] == ["m" + m] && ts[1..][1..] == [];
      assert Tabbed(ts[1..][1..]) == "";
      assert Tabbed(ts[1..]) == "\t" + ("m" + m);
      assert Tabbed(ts) == "\t" + ("\"" + n) + ("\t" + ("m" + m));
      assert "\t\"" + n + "\tm" + m == "\t" + ("\"" + n) + ("\t" + ("m" + m));
    } else if ts != [] {
      assert ts[1..] == [];
      Assoc("\t", OpText(np.op), TypeText(np.tp));
    }
  }

  lemma {:induction false} TabbedTokenized(tokens: seq<string>, rest: string)
    requires AllWhole(tokens) && Boundary(rest)
    ensures Tokens(Tabbed(tokens) + rest) == tokens + Tokens(rest) && Boundary(Tabbed(tokens) + rest)
  {
    if tokens == [] {
      assert Tabbed(tokens) + rest == rest;
    } else {
      assert Whole(tokens[0]) && AllWhole(tokens[1..]);
      TabbedTokenized(tokens[1..], rest);
      var r := Tabbed(tokens[1..]) + rest;
      OneToken(tokens[0], r);
      hide Tokens;
      Assoc("\t" + tokens[0], Tabbed(tokens[1..]), rest);
      Assoc([tokens[0]], tokens[1..], Tokens(rest));
      assert [tokens[0]] + tokens[1..] == tokens;
      assert ("\t" + tokens[0] + r)[0] == '\t';
    }
  }

  /** Splitting the printed text gives the tokens of the tree. */
  lemma {:induction false} PrintedTokenized(np: Node, rest: string)
    requires WholeTokens(np) && Boundary(rest)
    ensures Tokens(Printed(np) + rest) == TokensOf(np) + Tokens(rest) && Boundary(Printed(np) + rest)
  {
    hide Tail, TailTokens, Tokens, Tabbed, Boundary, Whole;
    if np.Nil? {
      assert Printed(np) + rest == rest && TokensOf(np) + Tokens(rest) == Tokens(rest);
    } else {
      var l, r, tail, ts, last := np.left, np.right, Tail(np), TailTokens(np), Tokens(rest);
      TailTabbed(np);
      TabbedTokenized(ts, rest);
      if np.op == OSYM {
      } else if np.op == OCAST {
        PrintedTokenized(l, tail + rest);
        Assoc(Printed(l), tail, rest);
        Assoc(TokensOf(l), ts, last);
      } else {
        PrintedTokenized(r, tail + rest);
        PrintedTokenized(l, Printed(r) + (tail + rest));
        Assoc(Printed(l), Printed(r), tail);
        Assoc(Printed(l), Printed(r) + tail, rest);
        Assoc(Printed(r), tail, rest);
        Assoc(TokensOf(l), TokensOf(r), ts);
        Assoc(TokensOf(l), TokensOf(r) + ts, last);
        Assoc(TokensOf(r), ts, last);
      }
    }
  }

  // The parser on those tokens

  /** The parser ends with one more node, or with a full stack. */
  function Parsed(s: seq<Elem>, need: nat, tree: Tree, rest: seq<string>): Outcome {
    if |s| + need <= STACKSIZ then Run(s + [Ptr(tree)], rest) else Failed(ESTACKO)
  }

  lemma RunOne(s: seq<Elem>, token: string, rest: seq<string>)
    requires token != "" && HasParse(token[0])
    ensures Exec(s, token).Stack? ==> Run(s, [token] + rest) == Run(Exec(s, token).elems, rest)
    ensures Exec(s, token).Failed? ==> Run(s, [token] + rest) == Exec(s, token)
  {
    assert ([token] + rest)[1..] == rest;
  }

  lemma GetTypeOf(s: seq<Elem>, tp: Type)
    requires TypeOk(tp)
    ensures GetType(s, TypeText(tp)) == if |s| < STACKSIZ then Typed(TyOf(tp)) else NotTyped(ESTACKO)
  {
    if !tp.ellipsis && tp.kind in {ARY, STRUCT, UNION} {
      hide Atoi, BasicLetter, Numeral;
      IdRoundTrip(tp.id);
      AggregateText(tp);
    }
  }

  lemma AggregateText(tp: Type)
    requires TypeOk(tp) && !tp.ellipsis && tp.kind in {ARY, STRUCT, UNION}
    ensures TypeText(tp) == [tp.letter] + Numeral(tp.id, 10, UPPER) && TypeText(tp)[1..] == Numeral(tp.id, 10, UPPER)
    ensures tp.letter in {'V', 'U', 'S'} && !BasicLetter(tp.letter) && HasParse(tp.letter) && tp.id < USHRT_MAX
    ensures TyOf(tp) == OfSymbol(tp.id)
  {
    hide Numeral;
  }

  lemma Pops(s: seq<Elem>, t: Tree)
    ensures Pop(s + [Ptr(t)]) == Popped(t, s)
  {
    assert (s + [Ptr(t)])[..|s|] == s;
  }

  lemma ExecUnary(s: seq<Elem>, a: Tree, c: char, tp: Type)
    requires UnaryLetter(c) && TypeOk(tp) && |s| < STACKSIZ
    ensures HasParse(c)
    ensures Exec(s + [Ptr(a)], [c] + TypeText(tp)) ==
            if |s| + 2 <= STACKSIZ then Stack(s + [Ptr(Tree(c, '\0', TyOf(tp), a, NoTree))]) else Failed(ESTACKO)
  {
    var token := [c] + TypeText(tp);
    assert token[1..] == TypeText(tp);
    GetTypeOf(s + [Ptr(a)], tp);
    Pops(s, a);
    hide GetType, Pop, TypeText, TypeOk, TyOf;
  }

  lemma ParseBinaryOf(s: seq<Elem>, a: Tree, b: Tree, op: char, subop: char, tp: Type)
    requires TypeOk(tp) && |s| + 2 <= STACKSIZ
    ensures ParseBinary(s + [Ptr(a)] + [Ptr(b)], op, subop, TypeText(tp)) ==
            if |s| + 3 <= STACKSIZ then Stack(s + [Ptr(Tree(op, subop, TyOf(tp), a, b))]) else Failed(ESTACKO)
  {
    hide GetType, Pop, TypeText, TypeOk, TyOf;
    GetTypeOf(s + [Ptr(a)] + [Ptr(b)], tp);
    Pops(s + [Ptr(a)], b);
    Pops(s, a);
  }

  /** The token of an operator with two operands selects the code and the compounded
      operator of the translation. */
  lemma ExecBinary(s: seq<Elem>, a: Tree, b: Tree, op: Op, tp: Type)
    requires (Infix(op) || Assignment(op)) && TypeOk(tp) && |s| + 2 <= STACKSIZ
    ensures OpText(op) != "" && HasParse(OpText(op)[0])
    ensures Exec(s + [Ptr(a)] + [Ptr(b)], OpText(op) + TypeText(tp)) ==
            if |s| + 3 <= STACKSIZ then Stack(s + [Ptr(Tree(Code(op), Subop(op), TyOf(tp), a, b))]) else Failed(ESTACKO)
  {
    hide ParseBinary, TypeText, TypeOk, TyOf, Code, Subop, OpText, Infix, Assignment, BinaryLetter, SubopLetter;
    ParseBinaryOf(s, a, b, Code(op), Subop(op), tp);
    TypeTextStarts(tp);
    Suffix(OpText(op), TypeText(tp));
    var token := OpText(op) + TypeText(tp);
    if Infix(op) {
      InfixToken(op);
      BinaryDispatch(s + [Ptr(a)] + [Ptr(b)], token);
    } else {
      AssignToken(op);
      AssignDispatch(s + [Ptr(a)] + [Ptr(b)], token);
    }
  }

  lemma BinaryDispatch(s: seq<Elem>, token: string)
    requires token != "" && BinaryLetter(token[0])
    ensures HasParse(token[0]) && Exec(s, token) == ParseBinary(s, token[0], '\0', token[1..])
  {
    hide ParseBinary, BinaryLetter, BasicLetter, SymbolLetter, UnaryLetter;
    BinaryApart(token[0]);
  }

  lemma BinaryApart(c: char)
    requires BinaryLetter(c)
    ensures HasParse(c) && !BasicLetter(c) && !SymbolLetter(c) && !UnaryLetter(c) && c !in {'V', 'U', 'S'}
  {
  }

  lemma AssignDispatch(s: seq<Elem>, token: string)
    requires token != "" && token[0] == ':'
    ensures HasParse(':') && Exec(s, token) == ParseAssign(s, token)
  {
    hide ParseAssign;
  }

  lemma TypeTextStarts(tp: Type)
    requires TypeOk(tp)
    ensures TypeText(tp) != "" && !SubopLetter(TypeText(tp)[0])
  {
  }

  lemma InfixToken(op: Op)
    requires Infix(op)
    ensures OpText(op) == [Code(op)] && BinaryLetter(Code(op)) && Subop(op) == '\0'
  {
  }

  lemma AssignToken(op: Op)
    requires Assignment(op)
    ensures Code(op) == ':'
    ensures op != OASSIGN ==> OpText(op) == [':', Subop(op)] && SubopLetter(Subop(op))
    ensures op == OASSIGN ==> OpText(op) == ":" && Subop(op) == '\0'
  {
  }

  lemma Suffix(a: string, b: string)
    ensures (a + b)[|a|..] == b
  {
  }

  lemma ExecTernary(s: seq<Elem>, cond: Tree, yes: Tree, no: Tree, tp: Type)
    requires TypeOk(tp) && |s| + 3 <= STACKSIZ
    ensures HasParse('?')
    ensures Exec(s + [Ptr(cond)] + [Ptr(yes)] + [Ptr(no)], "?" + TypeText(tp)) ==
            if |s| + 4 <= STACKSIZ then
              Stack(s + [Ptr(Tree('?', '\0', TyOf(tp), cond, Tree(' ', '\0', ByLetter('\0'), yes, no)))])
            else Failed(ESTACKO)
  {
    hide GetType, Pop, TypeText, TypeOk, TyOf;
    var s1 := s + [Ptr(cond)];
    var s2 := s1 + [Ptr(yes)];
    var s3 := s2 + [Ptr(no)];
    Suffix("?", TypeText(tp));
    GetTypeOf(s3, tp);
    Pops(s2, no);
    Pops(s1, yes);
    Pops(s, cond);
  }

  lemma ExecCast(s: seq<Elem>, a: Tree, c: char)
    requires TypeLetter(c) && |s| < STACKSIZ
    ensures HasParse('g')
    ensures Exec(s + [Ptr(a)], "g" + [c]) ==
            if |s| + 2 <= STACKSIZ then Stack(s + [Ptr(Tree('g', '\0', ByLetter(c), a, NoTree))]) else Failed(ESTACKO)
  {
    hide Pop;
    Suffix("g", [c]);
    Pops(s, a);
  }

  lemma ExecLeaf(s: seq<Elem>, np: Node)
    requires np.Node? && LeafOk(np)
    ensures LeafText(np) != "" && HasParse(LeafText(np)[0])
    ensures Exec(s, LeafText(np)) == if |s| < STACKSIZ then Stack(s + [Ptr(LeafOf(np))]) else Failed(ESTACKO)
  {
    match np.sym
    case Lit(u, _, _) =>
      hide Numeral, Value, Digital, BitAnd, Ones, Pow2, TypeLetter;
      ConstantRoundTrip(u, np.tp.size);
      ConstantToken(np.tp.letter, Numeral(BitAnd(u, Ones(np.tp.size)), 16, UPPER));
      ExecConstant(s, np.tp.letter, Numeral(BitAnd(u, Ones(np.tp.size)), 16, UPPER));
    case Var(class_, id, _) =>
      hide Numeral, Atoi;
      IdRoundTrip(id);
      Suffix([class_], Numeral(id, 10, UPPER));
  }

  lemma ConstantToken(c: char, digits: string)
    ensures (['#', c] + digits)[1..] == [c] + digits && (['#', c] + digits)[2..] == digits
  {
  }

  lemma ExecConstant(s: seq<Elem>, c: char, digits: string)
    requires TypeLetter(c) && Digital(digits, 16, UPPER)
    ensures HasParse('#')
    ensures Exec(s, ['#', c] + digits) ==
            if |s| < STACKSIZ then Stack(s + [Ptr(Const(ByLetter(c), Mod(Value(digits, 16, UPPER), WORD)))]) else Failed(ESTACKO)
  {
    hide Value, Digital, Mod;
    ConstantToken(c, digits);
  }

  // Calls

  /** The parameters on the stack, each under a parameter node without a successor. */
  function Pushed(par: Node): seq<Elem> {
    match par
    case Nil => []
    case Node(_, _, tp, _, prev, arg) => Pushed(prev) + [Ptr(Tree('p', '\0', TyOf(tp), Translate(arg), NoTree))]
  }

  lemma {:induction false} PushedLength(par: Node)
    ensures |Pushed(par)| == |Arguments(par)|
  {
    if par.Node? {
      PushedLength(par.left);
    }
  }

  /** Popping a call's parameters links them from the first to the last. */
  lemma {:induction false} PopCallOf(s: seq<Elem>, fun: Tree, par: Node, rest: Tree)
    requires !(fun.Tree? && fun.op == 'p')
    ensures PopCall(s + [Ptr(fun)] + Pushed(par), rest) == Callee(fun, Params(par, rest), s)
  {
    var s1 := s + [Ptr(fun)];
    match par
    case Nil =>
      assert s1 + [] == s1;
      Pops(s, fun);
    case Node(_, _, tp, _, prev, arg) =>
      var p := Tree('p', '\0', TyOf(tp), Translate(arg), NoTree);
      Assoc(s1, Pushed(prev), [Ptr(p)]);
      Pops(s1 + Pushed(prev), p);
      PopCallOf(s, fun, prev, p.(right := rest));
  }

  /** The callee is never taken for a parameter. */
  lemma {:induction false} NoParameter(np: Node)
    requires Printable(np)
    ensures !(Translate(np).Tree? && Translate(np).op == 'p')
  {
    hide Printable, Code, TyOf, Subop, BuiltinCode, Params;
    PrintableTop(np);
    ParameterCode(np.op);
    if np.op == OCAST && np.tp.kind == VOID {
      NoParameter(np.left);
    }
  }

  lemma PrintableTop(np: Node)
    requires Printable(np)
    ensures np.op != OPAR && (np.op == OCAST ==> Printable(np.left))
  {
    hide LeafOk, TypeOk, PrintableArgs;
  }

  lemma ParameterCode(op: Op)
    ensures Code(op) == 'p' <==> op == OPAR
  {
  }

  lemma ExecCall(s: seq<Elem>, fun: Tree, par: Node, op: Op, tp: Type)
    requires Calls(op) && TypeOk(tp) && !(fun.Tree? && fun.op == 'p') && |s| < STACKSIZ
    ensures OpText(op) != "" && HasParse(OpText(op)[0])
    ensures Exec(s + [Ptr(fun)] + Pushed(par), OpText(op) + TypeText(tp)) ==
            Stack(s + [Ptr(Tree(Code(op), '\0', TyOf(tp), fun, Params(par, NoTree)))])
  {
    hide GetType, PopCall, TypeText, TypeOk, TyOf, Params, Pushed, OpText, Code, Exec, HasParse, Calls;
    CallToken(op);
    PopCallOf(s, fun, par, NoTree);
    Suffix(OpText(op), TypeText(tp));
    GetTypeOf(s, tp);
    CallDispatch(s + [Ptr(fun)] + Pushed(par), OpText(op) + TypeText(tp));
  }

  lemma CallToken(op: Op)
    requires Calls(op)
    ensures OpText(op) == [Code(op)] && (Code(op) == 'c' || Code(op) == 'z')
  {
  }

  lemma CallDispatch(s: seq<Elem>, token: string)
    requires token != "" && (token[0] == 'c' || token[0] == 'z')
    ensures HasParse(token[0]) && Exec(s, token) == ParseCall(s, token)
  {
    hide ParseCall;
  }

  // Builtins

  lemma ExecBuiltin(s: seq<Elem>, a: Tree, b: Tree, two: bool, name: string, tp: Type)
    requires TypeOk(tp) && |s| + 1 <= STACKSIZ
    requires two <==> name == "__builtin_va_start"
    requires name in {"__builtin_va_arg", "__builtin_va_end", "__builtin_va_start"}
    requires !two ==> b == NoTree
    ensures HasParse('m')
    ensures var s1 := if two then s + [Ptr(a)] + [Ptr(b)] else s + [Ptr(a)];
            Exec(s1 + [Name(name)], "m" + TypeText(tp)) ==
            if |s1| + 2 <= STACKSIZ then Stack(s + [Ptr(Tree('m', BuiltinCode(name), TyOf(tp), a, b))]) else Failed(ESTACKO)
  {
    hide GetType, Pop, TypeText, TypeOk, TyOf;
    var s1 := if two then s + [Ptr(a)] + [Ptr(b)] else s + [Ptr(a)];
    Suffix("m", TypeText(tp));
    GetTypeOf(s1 + [Name(name)], tp);
    assert (s1 + [Name(name)])[..|s1|] == s1;
    Pops(s + [Ptr(a)], b);
    Pops(s, a);
  }

  // The round trip

  /** What `Printable` says at a node of the model, and its tokens. */
  lemma TokensAt(np: Node)
    requires np.Node?
    ensures np.op == OSYM ==> TokensOf(np) == [LeafText(np)]
    ensures np.op == OCAST && np.tp.kind == VOID ==> TokensOf(np) == TokensOf(np.left)
    ensures np.op == OCAST && np.tp.kind != VOID ==> TokensOf(np) == TokensOf(np.left) + ["g" + [np.tp.letter]]
    ensures np.op !in {OSYM, OCAST, OBUILTIN, OCOLON} ==>
              TokensOf(np) == TokensOf(np.left) + TokensOf(np.right) + [OpText(np.op) + TypeText(np.tp)]
    ensures np.op == OBUILTIN && np.sym.Builtin? ==>
              TokensOf(np) == TokensOf(np.left) + TokensOf(np.right) + ["\"" + np.sym.name, "m" + TypeText(np.tp)]
    ensures np.op == OCOLON ==> TokensOf(np) == TokensOf(np.left) + TokensOf(np.right)
  {
    hide LeafText, TypeText, OpText;
    assert TokensOf(np.left) + [] == TokensOf(np.left);
    assert TokensOf(np.left) + TokensOf(np.right) + [] == TokensOf(np.left) + TokensOf(np.right);
  }

  /** The parser on the tokens of a printed tree: from any stack, that stack and one node,
      the translated tree, if and only if the stack is deep enough. */
  lemma {:induction false} Parses(np: Node, s: seq<Elem>, rest: seq<string>)
    requires Printable(np) && |s| <= STACKSIZ
    ensures Run(s, TokensOf(np) + rest) == Parsed(s, Need(np), Translate(np), rest)
    decreases np
  {
    hide Run, TokensOf, Exec, LeafText, TypeText, OpText, HasParse, LeafOf, TyOf, Code, Subop, LeafOk, TypeOk, TypeLetter;
    TokensAt(np);
    if np.op == OSYM {
      ExecLeaf(s, np);
      RunOne(s, LeafText(np), rest);
    } else if np.op == OCAST {
      ParsesCast(np, s, rest);
    } else if Prefix(np.op) {
      ParsesPrefix(np, s, rest);
    } else if Infix(np.op) || Assignment(np.op) {
      ParsesPair(np, s, rest);
    } else if np.op == OASK {
      ParsesAsk(np, s, rest);
    } else if Calls(np.op) {
      ParsesCall(np, s, rest);
    } else {
      ParsesBuiltin(np, s, rest);
    }
  }

  lemma {:induction false} ParsesCast(np: Node, s: seq<Elem>, rest: seq<string>)
    requires Printable(np) && |s| <= STACKSIZ && np.op == OCAST
    ensures Run(s, TokensOf(np) + rest) == Parsed(s, Need(np), Translate(np), rest)
    decreases np, 0
  {
    hide Run, TokensOf, Exec, HasParse, TypeLetter;
    TokensAt(np);
    var token := "g" + [np.tp.letter];
    if np.tp.kind == VOID {
      Parses(np.left, s, rest);
    } else {
      Assoc(TokensOf(np.left), [token], rest);
      Parses(np.left, s, [token] + rest);
      if |s| + Need(np.left) <= STACKSIZ {
        NeedPositive(np.left);
        ExecCast(s, Translate(np.left), np.tp.letter);
        RunOne(s + [Ptr(Translate(np.left))], token, rest);
      }
    }
  }

  lemma {:induction false} NeedPositive(np: Node)
    requires Printable(np)
    ensures Need(np) >= 1
  {
    hide TypeOk, LeafOk;
    if np.op == OCAST {
      NeedPositive(np.left);
    }
  }

  lemma {:induction false} ParsesPrefix(np: Node, s: seq<Elem>, rest: seq<string>)
    requires Printable(np) && |s| <= STACKSIZ && Prefix(np.op)
    ensures Run(s, TokensOf(np) + rest) == Parsed(s, Need(np), Translate(np), rest)
    decreases np, 0
  {
    hide Run, Exec, HasParse, TypeText, TypeOk, OpText, Code;
    var token, a := OpText(np.op) + TypeText(np.tp), Translate(np.left);
    PrefixToken(np.op);
    TokensAt(np);
    assert TokensOf(np) == TokensOf(np.left) + [token];
    Assoc(TokensOf(np.left), [token], rest);
    Parses(np.left, s, [token] + rest);
    if |s| + Need(np.left) <= STACKSIZ {
      NeedPositive(np.left);
      ExecUnary(s, a, Code(np.op), np.tp);
      RunOne(s + [Ptr(a)], token, rest);
    }
  }

  lemma PrefixToken(op: Op)
    requires Prefix(op)
    ensures OpText(op) == [Code(op)] && UnaryLetter(Code(op)) && Subop(op) == '\0'
  {
  }

  /** Two operands, one after the other. */
  lemma {:induction false} ParsesBoth(np: Node, s: seq<Elem>, rest: seq<string>)
    requires np.Node? && Printable(np.left) && Printable(np.right) && |s| <= STACKSIZ
    ensures Run(s, TokensOf(np.left) + TokensOf(np.right) + rest) ==
            if |s| + Max(Need(np.left), 1 + Need(np.right)) <= STACKSIZ then
              Run(s + [Ptr(Translate(np.left))] + [Ptr(Translate(np.right))], rest)
            else Failed(ESTACKO)
    decreases np, 0
  {
    hide Run, TokensOf, Printable, Need, Translate;
    var l, r := np.left, np.right;
    Assoc(TokensOf(l), TokensOf(r), rest);
    Parses(l, s, TokensOf(r) + rest);
    NeedPositive(l);
    if |s| + Need(l) <= STACKSIZ {
      Parses(r, s + [Ptr(Translate(l))], rest);
    }
  }

  lemma {:induction false} ParsesPair(np: Node, s: seq<Elem>, rest: seq<string>)
    requires Printable(np) && |s| <= STACKSIZ && (Infix(np.op) || Assignment(np.op))
    ensures Run(s, TokensOf(np) + rest) == Parsed(s, Need(np), Translate(np), rest)
    decreases np, 1
  {
    hide Run, Exec, HasParse, TypeText, TypeOk, OpText, Code, Subop, TokensOf, Infix, Assignment, Printable, Need, Translate;
    PairForm(np);
    PairNeed(np);
    PairTranslated(np);
    PairTokens(np);
    var token, l, r := OpText(np.op) + TypeText(np.tp), np.left, np.right;
    Assoc(TokensOf(l) + TokensOf(r), [token], rest);
    ParsesBoth(np, s, [token] + rest);
    NeedPositive(r);
    if |s| + 2 <= STACKSIZ {
      ExecBinary(s, Translate(l), Translate(r), np.op, np.tp);
      RunOne(s + [Ptr(Translate(l))] + [Ptr(Translate(r))], token, rest);
    }
  }

  lemma PairTokens(np: Node)
    requires np.Node? && (Infix(np.op) || Assignment(np.op))
    ensures TokensOf(np) == TokensOf(np.left) + TokensOf(np.right) + [OpText(np.op) + TypeText(np.tp)]
  {
    hide OpText, TypeText, TokensOf;
    TokensAt(np);
  }

  lemma PairForm(np: Node)
    requires Printable(np) && (Infix(np.op) || Assignment(np.op))
    ensures Printable(np.left) && Printable(np.right) && TypeOk(np.tp)
  {
    hide TypeOk;
  }

  lemma PairNeed(np: Node)
    requires np.Node? && (Infix(np.op) || Assignment(np.op))
    ensures Need(np) == Max(Need(np.left), Max(1 + Need(np.right), 3))
  {
  }

  lemma PairTranslated(np: Node)
    requires np.Node? && (Infix(np.op) || Assignment(np.op))
    ensures Translate(np) == Tree(Code(np.op), Subop(np.op), TyOf(np.tp), Translate(np.left), Translate(np.right))
  {
    hide TyOf, Code, Subop, BuiltinCode;
  }

  lemma {:induction false} ParsesAsk(np: Node, s: seq<Elem>, rest: seq<string>)
    requires Printable(np) && |s| <= STACKSIZ && np.op == OASK
    ensures Run(s, TokensOf(np) + rest) == Parsed(s, Need(np), Translate(np), rest)
    decreases np, 1
  {
    hide Run, Exec, HasParse, TypeText, TypeOk, TokensOf, Printable, Need, Translate;
    hide Max, OpText;
    AskForm(np);
    AskFits(np, |s|);
    AskTranslated(np);
    AskTokens(np);
    var token, cond, body := "?" + TypeText(np.tp), np.left, np.right;
    var s1 := s + [Ptr(Translate(cond))];
    Assoc(TokensOf(cond) + TokensOf(body), [token], rest);
    Assoc(TokensOf(cond), TokensOf(body), [token] + rest);
    Parses(cond, s, TokensOf(body) + ([token] + rest));
    NeedPositive(cond);
    NeedPositive(body.right);
    if |s| + Need(cond) <= STACKSIZ {
      ParsesBoth(body, s1, [token] + rest);
      if |s| + 3 <= STACKSIZ {
        ExecTernary(s, Translate(cond), Translate(body.left), Translate(body.right), np.tp);
        RunOne(s1 + [Ptr(Translate(body.left))] + [Ptr(Translate(body.right))], token, rest);
      }
    }
  }

  lemma OwnForms()
    ensures !Prefix(OASK) && !Infix(OASK) && !Assignment(OASK) && !Calls(OASK)
    ensures !Prefix(OBUILTIN) && !Infix(OBUILTIN) && !Assignment(OBUILTIN) && !Calls(OBUILTIN)
  {
  }

  lemma AskFits(np: Node, n: nat)
    requires Printable(np) && np.op == OASK
    ensures np.right.Node?
    ensures n + Need(np) <= STACKSIZ <==>
              n + Need(np.left) <= STACKSIZ && n + 1 + Max(Need(np.right.left), 1 + Need(np.right.right)) <= STACKSIZ && n + 4 <= STACKSIZ
    ensures n + 1 + Max(Need(np.right.left), 1 + Need(np.right.right)) <= STACKSIZ ==> n + 3 <= STACKSIZ
  {
    hide Need, Printable;
    AskForm(np);
    AskNeed(np);
    NeedPositive(np.right.right);
  }

  lemma AskTokens(np: Node)
    requires np.Node? && np.op == OASK && np.right.Node? && np.right.op == OCOLON
    ensures TokensOf(np) == TokensOf(np.left) + (TokensOf(np.right.left) + TokensOf(np.right.right)) + ["?" + TypeText(np.tp)]
    ensures TokensOf(np.right) == TokensOf(np.right.left) + TokensOf(np.right.right)
  {
    hide TokensOf, TypeText;
    TokensAt(np);
    TokensAt(np.right);
  }

  lemma AskForm(np: Node)
    requires Printable(np) && np.op == OASK
    ensures np.right.Node? && np.right.op == OCOLON && Printable(np.left) && Printable(np.right.left) && Printable(np.right.right) && TypeOk(np.tp)
  {
    hide TypeOk, LeafOk, Prefix, Infix, Assignment, Calls, PrintableArgs;
    OwnForms();
  }

  lemma AskNeed(np: Node)
    requires np.Node? && np.op == OASK && np.right.Node? && np.right.op == OCOLON
    ensures Need(np) == Max(Max(Need(np.left), 1 + Need(np.right.left)), Max(2 + Need(np.right.right), 4))
  {
  }

  lemma AskTranslated(np: Node)
    requires np.Node? && np.op == OASK && np.right.Node? && np.right.op == OCOLON
    ensures Translate(np) == Tree('?', '\0', TyOf(np.tp), Translate(np.left),
                                  Tree(' ', '\0', ByLetter('\0'), Translate(np.right.left), Translate(np.right.right)))
  {
    hide TyOf;
  }

  /** The tokens of a call's parameters leave them on the stack. */
  lemma {:induction false} ParsesArgs(par: Node, s: seq<Elem>, rest: seq<string>)
    requires PrintableArgs(par) && |s| <= STACKSIZ
    ensures Run(s, TokensOf(par) + rest) ==
            if |s| + NeedArgs(par) <= STACKSIZ then Run(s + Pushed(par), rest) else Failed(ESTACKO)
    decreases par
  {
    hide Run, Exec, HasParse, TypeText, TypeOk, TokensOf, Printable, PrintableArgs, Need, NeedArgs, Translate, Arguments, Pushed;
    if par.Nil? {
      NoArgs(s, rest);
    } else {
      ArgsForm(par);
      TokensAt(par);
      PushedLast(par);
      PushedLength(par.left);
      var token, prev, arg := "p" + TypeText(par.tp), par.left, par.right;
      var s1 := s + Pushed(prev);
      Assoc(TokensOf(prev) + TokensOf(arg), [token], rest);
      Assoc(TokensOf(prev), TokensOf(arg), [token] + rest);
      ParsesArgs(prev, s, TokensOf(arg) + ([token] + rest));
      ArgsFit(prev);
      if |s| + NeedArgs(prev) <= STACKSIZ {
        Parses(arg, s1, [token] + rest);
        NeedPositive(arg);
        if |s1| + Need(arg) <= STACKSIZ {
          ExecUnary(s1, Translate(arg), 'p', par.tp);
          RunOne(s1 + [Ptr(Translate(arg))], token, rest);
          Assoc(s, Pushed(prev), [Ptr(Tree('p', '\0', TyOf(par.tp), Translate(arg), NoTree))]);
        }
      }
    }
  }

  lemma NoArgs(s: seq<Elem>, rest: seq<string>)
    ensures TokensOf(Nil) + rest == rest && s + Pushed(Nil) == s && NeedArgs(Nil) == 0
  {
  }

  lemma ArgsForm(par: Node)
    requires PrintableArgs(par) && par.Node?
    ensures PrintableArgs(par.left) && Printable(par.right) && TypeOk(par.tp)
    ensures NeedArgs(par) == Max(NeedArgs(par.left), |Arguments(par.left)| + Max(Need(par.right), 2)) && par.op == OPAR
  {
    hide TypeOk, TyOf, Printable, Need;
  }

  lemma PushedLast(par: Node)
    requires par.Node?
    ensures Pushed(par) == Pushed(par.left) + [Ptr(Tree('p', '\0', TyOf(par.tp), Translate(par.right), NoTree))]
  {
  }

  lemma {:induction false} ArgsFit(par: Node)
    ensures |Arguments(par)| <= NeedArgs(par)
  {
    if par.Node? {
      ArgsFit(par.left);
    }
  }

  lemma {:induction false} ParsesCall(np: Node, s: seq<Elem>, rest: seq<string>)
    requires Printable(np) && |s| <= STACKSIZ && Calls(np.op)
    ensures Run(s, TokensOf(np) + rest) == Parsed(s, Need(np), Translate(np), rest)
    decreases np, 0
  {
    hide Run, Exec, HasParse, TypeText, TypeOk, TokensOf, Printable, PrintableArgs, Need, NeedArgs, Translate, OpText, Code, Params,
      Pushed;
    CallForm(np);
    CallNeed(np);
    CallTranslated(np);
    NoParameter(np.left);
    TokensAt(np);
    var token, f, par := OpText(np.op) + TypeText(np.tp), np.left, np.right;
    var s1 := s + [Ptr(Translate(f))];
    Assoc(TokensOf(f) + TokensOf(par), [token], rest);
    Assoc(TokensOf(f), TokensOf(par), [token] + rest);
    Parses(f, s, TokensOf(par) + ([token] + rest));
    NeedPositive(f);
    if |s| + Need(f) <= STACKSIZ {
      ParsesArgs(par, s1, [token] + rest);
      if |s1| + NeedArgs(par) <= STACKSIZ {
        ExecCall(s, Translate(f), par, np.op, np.tp);
        RunOne(s1 + Pushed(par), token, rest);
      }
    }
  }

  lemma CallForm(np: Node)
    requires Printable(np) && Calls(np.op)
    ensures Printable(np.left) && PrintableArgs(np.right) && TypeOk(np.tp)
  {
    hide TypeOk;
  }

  lemma CallNeed(np: Node)
    requires np.Node? && Calls(np.op)
    ensures Need(np) == Max(Need(np.left), 1 + NeedArgs(np.right))
  {
  }

  lemma CallTranslated(np: Node)
    requires np.Node? && Calls(np.op)
    ensures Translate(np) == Tree(Code(np.op), '\0', TyOf(np.tp), Translate(np.left), Params(np.right, NoTree))
  {
    hide TyOf, Code, Subop, BuiltinCode;
  }

  lemma {:induction false} ParsesBuiltin(np: Node, s: seq<Elem>, rest: seq<string>)
    requires Printable(np) && |s| <= STACKSIZ && np.op == OBUILTIN
    ensures Run(s, TokensOf(np) + rest) == Parsed(s, Need(np), Translate(np), rest)
    decreases np, 0
  {
    hide Run, Exec, HasParse, TypeText, TypeOk, TokensOf, Printable, Need, Translate, BuiltinCode;
    BuiltinForm(np);
    BuiltinNeed(np);
    BuiltinTranslated(np);
    TokensAt(np);
    NoTokens();
    var name, l, r := np.sym.name, np.left, np.right;
    var t1, t2 := "\"" + name, "m" + TypeText(np.tp);
    var s1 := s + [Ptr(Translate(l))];
    assert [t1, t2] + rest == [t1] + ([t2] + rest);
    Assoc(TokensOf(l) + TokensOf(r), [t1, t2], rest);
    Assoc(TokensOf(l), TokensOf(r), [t1, t2] + rest);
    Parses(l, s, TokensOf(r) + ([t1, t2] + rest));
    NeedPositive(l);
    if |s| + Need(l) <= STACKSIZ {
      if r.Node? {
        Parses(r, s1, [t1, t2] + rest);
        NeedPositive(r);
      } else {
        assert [] + ([t1, t2] + rest) == [t1, t2] + rest;
      }
      if r.Nil? || |s1| + Need(r) <= STACKSIZ {
        var s2 := if r.Node? then s1 + [Ptr(Translate(r))] else s1;
        ExecName(s2, name);
        RunOne(s2, t1, [t2] + rest);
        if |s2| < STACKSIZ {
          ExecBuiltin(s, Translate(l), Translate(r), r.Node?, name, np.tp);
          RunOne(s2 + [Name(name)], t2, rest);
        }
      }
    }
  }

  lemma NoTokens()
    ensures TokensOf(Nil) == []
  {
  }

  lemma ExecName(s: seq<Elem>, name: string)
    ensures HasParse('"') && Exec(s, "\"" + name) == if |s| < STACKSIZ then Stack(s + [Name(name)]) else Failed(ESTACKO)
  {
    Suffix("\"", name);
  }

  lemma BuiltinForm(np: Node)
    requires Printable(np) && np.op == OBUILTIN
    ensures np.sym.Builtin? && Printable(np.left) && TypeOk(np.tp) && (np.right.Node? <==> np.sym.name == "__builtin_va_start")
    ensures np.right.Node? ==> Printable(np.right)
    ensures np.sym.name in {"__builtin_va_arg", "__builtin_va_end", "__builtin_va_start"}
  {
    hide TypeOk, LeafOk, Prefix, Infix, Assignment, Calls, PrintableArgs;
    OwnForms();
  }

  lemma BuiltinTranslated(np: Node)
    requires np.Node? && np.op == OBUILTIN && np.sym.Builtin?
    ensures Translate(np) == Tree('m', BuiltinCode(np.sym.name), TyOf(np.tp), Translate(np.left), Translate(np.right))
    ensures np.right.Nil? ==> Translate(np.right) == NoTree
  {
    hide TyOf, Code, Subop, BuiltinCode;
  }

  // Printed tokens are whole

  predicate Plain(s: string) {
    forall i :: 0 <= i < |s| ==> !Delimiter(s[i])
  }

  lemma PlainParts(a: string, b: string)
    requires Plain(a) && Plain(b)
    ensures Plain(a + b) && (a != "" ==> Whole(a + b))
  {
  }

  lemma {:induction false} NumeralPlain(u: nat, base: nat)
    requires 2 <= base <= 16
    ensures Plain(Numeral(u, base, UPPER))
    decreases u
  {
    DivBounds(u, base);
    if u >= base {
      DivMod(u, base);
      NumeralPlain(Div(u, base), base);
      UpperPlain(Mod(u, base));
      PlainParts(Numeral(Div(u, base), base, UPPER), [UPPER[Mod(u, base)]]);
    } else {
      UpperPlain(u);
    }
  }

  lemma UpperPlain(d: nat)
    requires d < 16
    ensures |UPPER| == 16 && !Delimiter(UPPER[d])
  {
  }

  lemma TypeTextPlain(tp: Type)
    requires TypeOk(tp)
    ensures Plain(TypeText(tp)) && TypeText(tp) != ""
  {
    NumeralPlain(tp.id, 10);
    PlainParts([if tp.ellipsis then 'E' else tp.letter], Numeral(tp.id, 10, UPPER));
    hide Numeral;
  }

  lemma LeafTextWhole(np: Node)
    requires np.Node? && LeafOk(np)
    ensures Whole(LeafText(np))
  {
    hide Numeral, BitAnd, Ones;
    match np.sym
    case Lit(u, _, _) =>
      NumeralPlain(BitAnd(u, Ones(np.tp.size)), 16);
      PlainParts(['#', np.tp.letter], Numeral(BitAnd(u, Ones(np.tp.size)), 16, UPPER));
    case Var(class_, id, _) =>
      NumeralPlain(id, 10);
      PlainParts([class_], Numeral(id, 10, UPPER));
  }

  lemma OpTextPlain(op: Op)
    ensures Plain(OpText(op)) && (op != OCOLON && op != OSYM ==> OpText(op) != "")
  {
    OpTextShort(op);
    hide OpText;
  }

  lemma OpTextShort(op: Op)
    ensures |OpText(op)| <= 2 && (op != OCOLON && op != OSYM ==> OpText(op) != "")
    ensures |OpText(op)| >= 1 ==> !Delimiter(OpText(op)[0])
    ensures |OpText(op)| == 2 ==> !Delimiter(OpText(op)[1])
  {
    hide OpText;
    if Assignment(op) {
      AssignmentText(op);
    } else {
      OtherText(op);
    }
  }

  lemma AssignmentText(op: Op)
    requires Assignment(op)
    ensures 1 <= |OpText(op)| <= 2 && !Delimiter(OpText(op)[0]) && (|OpText(op)| == 2 ==> !Delimiter(OpText(op)[1]))
  {
  }

  lemma OtherText(op: Op)
    requires !Assignment(op)
    ensures |OpText(op)| <= 1 && (op != OCOLON && op != OSYM ==> OpText(op) != "")
    ensures |OpText(op)| == 1 ==> !Delimiter(OpText(op)[0])
  {
  }

  lemma TailWhole(np: Node)
    requires np.Node? && (np.op == OSYM ==> LeafOk(np))
    requires np.op == OCAST ==> np.tp.kind == VOID || TypeLetter(np.tp.letter)
    requires np.op !in {OSYM, OCAST, OCOLON} ==> TypeOk(np.tp)
    requires np.op == OBUILTIN ==> np.sym.Builtin? && Plain(np.sym.name)
    ensures AllWhole(TailTokens(np))
  {
    hide TypeText, OpText, LeafText, LeafOk, TypeOk;
    if np.op == OSYM {
      LeafTextWhole(np);
    } else if np.op == OBUILTIN {
      TypeTextPlain(np.tp);
      PlainParts("m", TypeText(np.tp));
      PlainParts("\"", np.sym.name);
    } else if np.op != OCAST && np.op != OCOLON {
      TypeTextPlain(np.tp);
      OpTextPlain(np.op);
      PlainParts(OpText(np.op), TypeText(np.tp));
    }
  }

  lemma PrintableParts(np: Node)
    requires Printable(np)
    ensures np.op == OSYM ==> LeafOk(np)
    ensures np.op == OCAST ==> np.tp.kind == VOID || TypeLetter(np.tp.letter)
    ensures np.op !in {OSYM, OCAST} ==> TypeOk(np.tp) && np.op != OCOLON
    ensures np.op != OSYM ==> Printable(np.left)
    ensures np.op !in {OSYM, OCAST, OASK} && !Calls(np.op) && np.right.Node? ==> Printable(np.right)
  {
    hide TypeOk, LeafOk, TypeLetter, PrintableArgs;
  }

  lemma {:induction false} PrintableWhole(np: Node)
    requires Printable(np)
    ensures WholeTokens(np)
    decreases np
  {
    hide TypeOk, LeafOk, TailTokens, AllWhole, TypeLetter, Printable, PrintableArgs;
    var l, r := np.left, np.right;
    PrintableParts(np);
    if np.op == OBUILTIN {
      BuiltinForm(np);
      BuiltinNames();
    }
    TailWhole(np);
    if np.op != OSYM {
      PrintableWhole(l);
      if np.op == OASK {
        AskForm(np);
        TailWhole(r);
        PrintableWhole(r.left);
        PrintableWhole(r.right);
      } else if Calls(np.op) {
        CallForm(np);
        ArgsWhole(r);
      } else if np.op != OCAST && r.Node? {
        PrintableWhole(r);
      }
    }
  }

  lemma {:induction false} ArgsWhole(par: Node)
    requires PrintableArgs(par)
    ensures WholeTokens(par)
    decreases par
  {
    hide TypeOk, TailTokens, AllWhole;
    if par.Node? {
      ArgsWhole(par.left);
      PrintableWhole(par.right);
      TailWhole(par);
    }
  }

  lemma BuiltinNames()
    ensures Plain("__builtin_va_arg") && Plain("__builtin_va_end") && Plain("__builtin_va_start")
  {
  }

  /** Printing and parsing undo each other: from any stack, the tokens of the printed text
      leave that stack and the translated tree; they fail exactly when the tree needs more
      slots than there are. */
  lemma {:induction false} RoundTrip(np: Node, s: seq<Elem>)
    requires Printable(np) && |s| <= STACKSIZ
    ensures Run(s, Tokens(Printed(np))) == if |s| + Need(np) <= 50 then Stack(s + [Ptr(Translate(np))]) else Failed(ESTACKO)
  {
    hide Printable, TokensOf, Printed, WholeTokens, Need, Translate;
    PrintableWhole(np);
    PrintedTokenized(np, "");
    assert Printed(np) + "" == Printed(np);
    assert TokensOf(np) + [] == TokensOf(np);
    Parses(np, s, []);
  }

  /** Trees that print alike are the same tree to the back end. */
  lemma {:induction false} PrintedUnambiguous(a: Node, b: Node)
    requires Printable(a) && Printable(b) && Printed(a) == Printed(b) && Need(a) <= STACKSIZ
    ensures Translate(a) == Translate(b) && Need(b) <= STACKSIZ
  {
    hide Printable, Printed, Need, Translate, Run;
    RoundTrip(a, []);
    RoundTrip(b, []);
    assert ([] + [Ptr(Translate(a))])[0] == Ptr(Translate(a));
    assert ([] + [Ptr(Translate(b))])[0] == Ptr(Translate(b));
  }
}
