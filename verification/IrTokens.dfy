/** The wire format on its own terms: how lines split into tokens, and what the tokens of
    numbered symbols and types stand for, in range or not. */
module IrTokens {
  import opened Numerals
  import opened IrParser
  import opened IrRoundTrip
  import opened IrTranslation
  import C = Cc1Tree

  function Joined(tokens: seq<string>): string {
    if tokens == [] then "" else tokens[0] + Joined(tokens[1..])
  }

  /** A line without its tabs and newlines. */
  function Solid(line: string): string {
    if line == "" then ""
    else if line[0] == '\t' || line[0] == '\n' then Solid(line[1..])
    else [line[0]] + Solid(line[1..])
  }

  /** `strtok` gives the characters of the line but tabs and newlines, in tokens that are
      not empty and have none of these. */
  lemma {:induction false} TokensOfLine(line: string)
    ensures Joined(Tokens(line)) == Solid(line)
    ensures forall k :: 0 <= k < |Tokens(line)| ==> Tokens(line)[k] != "" && '\t' !in Tokens(line)[k] && '\n' !in Tokens(line)[k]
    decreases |line|
  {
    if line != "" {
      if Delimiter(line[0]) {
        TokensOfLine(line[1..]);
      } else {
        var n := Span(line);
        TokensOfLine(line[n..]);
        var rest := Tokens(line[n..]);
        assert Tokens(line) == [line[..n]] + rest && ([line[..n]] + rest)[1..] == rest;
        assert line == line[..n] + line[n..];
        SolidRun(line[..n], line[n..]);
      }
    }
  }

  lemma {:induction false} SolidRun(a: string, b: string)
    requires forall i :: 0 <= i < |a| ==> !Delimiter(a[i])
    ensures Solid(a + b) == a + Solid(b)
  {
    hide Solid;
    if a == "" {
      assert a + b == b;
    } else {
      var c, t := a[0], a[1..];
      assert a == [c] + t && !Delimiter(c);
      SolidRun(t, b);
      SolidCons(c, t + b);
      assert a + b == [c] + (t + b);
      assert [c] + (t + Solid(b)) == a + Solid(b);
    }
  }

  lemma SolidCons(c: char, s: string)
    requires !Delimiter(c)
    ensures Solid([c] + s) == [c] + Solid(s)
  {
    assert ([c] + s)[1..] == s;
  }

  /** Two tokens are apart exactly where a tab or a newline is. */
  lemma {:induction false} TokensApart(a: string, d: char, b: string)
    requires d == '\t' || d == '\n'
    ensures Tokens(a + [d] + b) == Tokens(a) + Tokens(b)
    decreases |a|
  {
    var line := a + [d] + b;
    if a == "" {
      assert line[1..] == b;
    } else if Delimiter(a[0]) {
      TokensApart(a[1..], d, b);
      assert line[1..] == a[1..] + [d] + b;
    } else {
      var n := Span(a);
      assert forall i :: 0 <= i < n ==> line[i] == a[i];
      assert line[n] == if n < |a| then a[n] else d;
      assert Span(line) == n;
      assert line[..n] == a[..n] && line[n..] == a[n..] + [d] + b;
      TokensApart(a[n..], d, b);
      assert [a[..n]] + Tokens(a[n..]) + Tokens(b) == [a[..n]] + (Tokens(a[n..]) + Tokens(b));
    }
  }

  /** The token of a symbol: refused if its number is too large for the table, else an
      operand of the kind of its storage class. */
  lemma {:induction false} SymbolToken(s: seq<Elem>, c: char, id: nat)
    requires c in {'A', 'R', 'G', 'X', 'Y', 'T', 'M', 'L'}
    ensures var token := [c] + Numeral(id, 10, UPPER);
            && HasParse(c)
            && Exec(s, token) == if id >= 65535 then Failed(EBADID)
                                 else if |s| >= 50 then Failed(ESTACKO)
                                 else Stack(s + [Ptr(Symbol(if c in {'G', 'X', 'Y', 'T', 'M'} then 'M' else c, id))])
  {
    hide Numeral, Atoi;
    IdRoundTrip(id);
    Suffix([c], Numeral(id, 10, UPPER));
  }

  /** The token of an array or an aggregate. */
  lemma {:induction false} AggregateToken(s: seq<Elem>, c: char, id: nat)
    requires c in {'V', 'U', 'S'}
    ensures var token := [c] + Numeral(id, 10, UPPER);
            && HasParse(c)
            && Exec(s, token) == if id >= 65535 then Failed(EBADID)
                                 else if |s| >= 50 then Failed(ESTACKO)
                                 else Stack(s + [TypeElem(OfSymbol(id))])
  {
    hide Numeral, Atoi;
    IdRoundTrip(id);
    Suffix([c], Numeral(id, 10, UPPER));
  }

  /** `atoi` stops after the digits. */
  lemma {:induction false} AtoiStops(id: nat, rest: string)
    requires rest != "" ==> rest[0] < '0' || rest[0] > '9'
    ensures Atoi(Numeral(id, 10, UPPER) + rest) == id
  {
    var s := Numeral(id, 10, UPPER);
    TablesDistinct();
    NumeralRoundTrip(id, 10, UPPER);
    if rest != "" {
      NoDigit(rest[0]);
    }
    DigitsBefore(s, rest);
    assert (s + rest)[..|s|] == s;
  }

  lemma NoDigit(c: char)
    requires c < '0' || c > '9'
    ensures Index(UPPER, c) >= 10
  {
    hide Index;
    var d := Index(UPPER, c);
    if d < 10 {
      DigitsWritten(d);
    }
  }

  lemma {:induction false} DigitsBefore(s: string, rest: string)
    requires Digital(s, 10, UPPER) && (rest != "" ==> Index(UPPER, rest[0]) >= 10)
    ensures Digits(s + rest) == |s|
  {
    hide Index;
    if s == "" {
      assert s + rest == rest;
    } else {
      assert Digital(s[1..], 10, UPPER);
      DigitsBefore(s[1..], rest);
      assert (s + rest)[1..] == s[1..] + rest;
    }
  }

  /** The first characters of tokens that have an action: types, symbols, operators, names,
      and those of statements, which the model does not carry out. */
  predicate Acts(c: char) {
    OfType(c) || OfSymbolClass(c) || OfOneOperand(c) || OfTwoOperands(c) || c in ":?czm#\""
  }

  predicate OfType(c: char) {
    c in "CIWQKNZOJDH0BPE1FVUS"
  }

  predicate OfSymbolClass(c: char) {
    c in "ARGXYTML"
  }

  predicate OfOneOperand(c: char) {
    c in "~_'@gpn"
  }

  predicate OfTwoOperands(c: char) {
    c in "ao.+-*%/lr<>[]=!&|^,"
  }

  predicate OfStatement(c: char) {
    c in "()jyhbevfts"
  }

  /** A token without an action ends the expression; one of a statement is not modelled. */
  lemma {:induction false} TokenActs(s: seq<Elem>, token: string, rest: seq<string>)
    requires token != ""
    ensures !Acts(token[0]) && !OfStatement(token[0]) ==> Run(s, [token] + rest) == Stack(s)
    ensures OfStatement(token[0]) ==> Run(s, [token] + rest) == Failed(Unmodelled)
    ensures Acts(token[0]) <==> HasParse(token[0]) && !OfStatement(token[0])
  {
    hide Exec;
    Letters(token[0]);
    if OfStatement(token[0]) {
      StatementFails(s, token);
      RunOne(s, token, rest);
    }
    hide HasParse, Acts, OfStatement;
    assert ([token] + rest)[0] == token;
  }

  lemma Letters(c: char)
    ensures HasParse(c) <==> Acts(c) || OfStatement(c)
    ensures !(Acts(c) && OfStatement(c))
  {
    hide BasicLetter, SymbolLetter, UnaryLetter, BinaryLetter, StatementLetter;
    hide OfType, OfSymbolClass, OfOneOperand, OfTwoOperands, OfStatement;
    LetterSets(c);
  }

  lemma LetterSets(c: char)
    ensures OfType(c) <==> BasicLetter(c) || c in {'V', 'U', 'S'}
    ensures OfSymbolClass(c) <==> SymbolLetter(c)
    ensures OfOneOperand(c) <==> UnaryLetter(c)
    ensures OfTwoOperands(c) <==> BinaryLetter(c)
    ensures OfStatement(c) <==> StatementLetter(c)
    ensures OfStatement(c) ==> !OfType(c) && !OfSymbolClass(c) && !OfOneOperand(c) && !OfTwoOperands(c) && c !in ":?czm#\""
    ensures c in ":?czm#\"" <==> c in {'"', 'm', ':', '?', 'c', 'z', '#'}
  {
  }

  lemma StatementFails(s: seq<Elem>, token: string)
    requires token != "" && OfStatement(token[0])
    ensures HasParse(token[0]) && Exec(s, token) == Failed(Unmodelled)
  {
    Letters(token[0]);
    hide ParseType, ParseSymbol, ParseUnary, ParseBinary, ParseBuiltin, ParseAssign, ParseTernary, ParseCall, ParseConstant;
  }

  /** The operation that a name selects and the operands it takes; other names are refused. */
  lemma {:induction false} BuiltinToken(s: seq<Elem>, name: string, a: Tree, b: Tree, c: char)
    requires |s| + 4 <= 50 && c in "CIWQKNZOJDH0BPE1F"
    ensures var at := Exec(s + [Ptr(a)] + [Ptr(b)] + [Name(name)], ['m', c]);
            at == if name == "" then Failed(Unmodelled)
                  else if name == "__builtin_va_start" then Stack(s + [Ptr(Tree('m', 's', ByLetter(c), a, b))])
                  else if name == "__builtin_va_copy" then Stack(s + [Ptr(Tree('m', 'c', ByLetter(c), a, b))])
                  else if name == "__builtin_va_arg" then Stack(s + [Ptr(a)] + [Ptr(Tree('m', 'a', ByLetter(c), b, NoTree))])
                  else if name == "__builtin_va_end" then Stack(s + [Ptr(a)] + [Ptr(Tree('m', 'e', ByLetter(c), b, NoTree))])
                  else Failed(EBBUILT)
  {
    var s1 := s + [Ptr(a)];
    var s2 := s1 + [Ptr(b)];
    var s3 := s2 + [Name(name)];
    assert s3[..|s3| - 1] == s2 && ['m', c][1..] == [c];
    BasicOf(c);
    Pops(s1, b);
    Pops(s, a);
    hide Pop, BasicLetter, SymbolLetter, UnaryLetter, BinaryLetter;
    BuiltinExec(s3, ['m', c]);
  }

  lemma BasicOf(c: char)
    ensures c in "CIWQKNZOJDH0BPE1F" <==> BasicLetter(c)
    ensures !BasicLetter('m') && !SymbolLetter('m') && !UnaryLetter('m') && !BinaryLetter('m')
  {
  }

  lemma BuiltinExec(s: seq<Elem>, token: string)
    requires token != "" && token[0] == 'm'
    ensures HasParse('m') && Exec(s, token) == ParseBuiltin(s, token)
  {
    hide ParseBuiltin;
  }

  // Which trees can be printed

  /** The type letters and storage classes of printable trees are those that the parser
      knows, but for the class of labels; constants are those of integers and pointers. */
  lemma {:induction false} LettersCovered(c: char, tp: C.Type, id: nat, sym: C.Sym)
    requires 0 < id < 65535 && sym.Lit?
    ensures TypeLetter(c) <==> BasicLetter(c)
    ensures LeafOk(C.Node(C.OSYM, false, tp, C.Var(c, id, 0), C.Nil, C.Nil)) <==> SymbolLetter(c) && c != 'L'
    ensures LeafOk(C.ConstNode(sym)) <==> sym.ty.kind in {C.INT, C.ENUM, C.PTR} && BasicLetter(sym.ty.letter) && sym.ty.size <= 8
  {
  }

  /** A tree of one operator over a variable of type `tp`. */
  function Sample(op: C.Op, tp: C.Type): C.Node {
    var x := C.Node(C.OSYM, false, tp, C.Var('A', 1, 0), C.Nil, C.Nil);
    match op
    case OSYM => x
    case OASK => C.NewNode(op, tp, x, C.NewNode(C.OCOLON, tp, x, x))
    case OCALL => C.NewNode(op, tp, x, C.NewNode(C.OPAR, tp, C.Nil, x))
    case OCALLE => C.NewNode(op, tp, x, C.NewNode(C.OPAR, tp, C.Nil, x))
    case OBUILTIN => C.Node(op, false, tp, C.Builtin("__builtin_va_start"), x, x)
    case _ => C.NewNode(op, tp, x, if op in {C.OADDR, C.OPTR, C.OSNEG, C.ONEG, C.OCPL, C.OCAST} then C.Nil else x)
  }

  /** Every operator of the front end can be printed. */
  lemma {:induction false} EveryOperator(op: C.Op, tp: C.Type)
    requires TypeOk(tp) && TypeLetter(tp.letter) && op != C.OCOLON && op != C.OPAR
    ensures Printable(Sample(op, tp)) && Sample(op, tp).op == op
    ensures var x := Sample(C.OSYM, tp);
            && Printable(C.Node(C.OBUILTIN, false, tp, C.Builtin("__builtin_va_arg"), x, C.Nil))
            && Printable(C.Node(C.OBUILTIN, false, tp, C.Builtin("__builtin_va_end"), x, C.Nil))
  {
    hide TypeOk, TypeLetter;
    SampleVariable(tp);
    BuiltinPrints(tp, Sample(C.OSYM, tp));
    if op == C.OASK || op == C.OCALL || op == C.OCALLE || op == C.OBUILTIN {
      SampleSpecial(op, tp);
    } else if op != C.OSYM {
      SampleOperator(op, tp);
    }
  }

  lemma SampleVariable(tp: C.Type)
    ensures Printable(Sample(C.OSYM, tp))
  {
  }

  lemma SampleSpecial(op: C.Op, tp: C.Type)
    requires TypeOk(tp) && op in {C.OASK, C.OCALL, C.OCALLE, C.OBUILTIN} && Printable(Sample(C.OSYM, tp))
    ensures Printable(Sample(op, tp)) && Sample(op, tp).op == op
  {
    hide TypeOk, LeafOk, Printable, PrintableArgs;
    var x := Sample(C.OSYM, tp);
    if op == C.OASK {
      AskPrints(tp, x);
    } else if op == C.OBUILTIN {
      BuiltinPrints(tp, x);
    } else {
      CallPrints(op, tp, x);
    }
  }

  lemma AskPrints(tp: C.Type, x: C.Node)
    requires TypeOk(tp) && Printable(x)
    ensures Printable(C.NewNode(C.OASK, tp, x, C.NewNode(C.OCOLON, tp, x, x)))
  {
    hide TypeOk, LeafOk;
  }

  lemma BuiltinPrints(tp: C.Type, x: C.Node)
    requires TypeOk(tp) && Printable(x)
    ensures Printable(C.Node(C.OBUILTIN, false, tp, C.Builtin("__builtin_va_start"), x, x))
    ensures Printable(C.Node(C.OBUILTIN, false, tp, C.Builtin("__builtin_va_arg"), x, C.Nil))
    ensures Printable(C.Node(C.OBUILTIN, false, tp, C.Builtin("__builtin_va_end"), x, C.Nil))
  {
    hide TypeOk, Printable;
    BuiltinPrintable(tp, "__builtin_va_start", x, x);
    BuiltinPrintable(tp, "__builtin_va_arg", x, C.Nil);
    BuiltinPrintable(tp, "__builtin_va_end", x, C.Nil);
    assert "__builtin_va_arg"[13] != "__builtin_va_start"[13];
    assert |"__builtin_va_end"| != |"__builtin_va_start"|;
  }

  lemma BuiltinPrintable(tp: C.Type, name: string, x: C.Node, y: C.Node)
    requires TypeOk(tp) && Printable(x)
    ensures Printable(C.Node(C.OBUILTIN, false, tp, C.Builtin(name), x, y)) <==>
              if name == "__builtin_va_start" then Printable(y) else name in {"__builtin_va_arg", "__builtin_va_end"} && y.Nil?
  {
    hide TypeOk, LeafOk;
  }

  lemma CallPrints(op: C.Op, tp: C.Type, x: C.Node)
    requires TypeOk(tp) && Printable(x) && op in {C.OCALL, C.OCALLE}
    ensures Printable(C.NewNode(op, tp, x, C.NewNode(C.OPAR, tp, C.Nil, x)))
  {
    hide TypeOk, LeafOk;
    assert PrintableArgs(C.Nil);
    assert PrintableArgs(C.NewNode(C.OPAR, tp, C.Nil, x));
  }

  lemma SampleOperator(op: C.Op, tp: C.Type)
    requires TypeOk(tp) && TypeLetter(tp.letter) && Printable(Sample(C.OSYM, tp))
    requires op !in {C.OASK, C.OCALL, C.OCALLE, C.OBUILTIN, C.OSYM, C.OCOLON, C.OPAR}
    ensures Printable(Sample(op, tp)) && Sample(op, tp).op == op
  {
    hide TypeOk, LeafOk, TypeLetter, Prefix, Infix, Assignment;
    KindOf(op);
  }

  lemma KindOf(op: C.Op)
    requires op !in {C.OASK, C.OCALL, C.OCALLE, C.OBUILTIN, C.OSYM, C.OCOLON, C.OPAR}
    ensures op == C.OCAST || Prefix(op) || Infix(op) || Assignment(op)
    ensures Prefix(op) <==> op in {C.OADDR, C.OPTR, C.OSNEG, C.ONEG, C.OCPL}
    ensures !(Infix(op) && Assignment(op))
  {
  }
}
