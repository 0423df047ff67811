/** The parser as it works: a fixed array of elements and a stack pointer.  Each action is
    tied to the function of `IrParser` that says what it leaves on the stack. */
module IrStack {
  import opened Bits
  import opened Cc1Tree
  import opened FoldArith
  import opened Fold
  import opened Wrappers
  import opened Numerals
  import opened IrPrinter
  import opened IrParser
  import opened IrTranslation
  import opened IrRoundTrip

  /** Lines have room for `LINESIZ - 1` characters. */
  const LINESIZ: nat := 4095

  datatype LineError = LineTooLong | NoNewLine | StackLeft | NotAnExpression | ParseError(error: Error)

  /** What a line of the front end makes of the stack: an expression statement, or none. */
  datatype LineResult = Statement(tree: Tree) | NoStatement | BadLine(error: LineError)

  function ExecLine(line: string): LineResult {
    if |line| > LINESIZ - 1 then BadLine(LineTooLong)
    else if line == "" || line[|line| - 1] != '\n' then BadLine(NoNewLine)
    else if line[0] != '\t' then BadLine(NotAnExpression)
    else
      match Run([], Tokens(line[..|line| - 1]))
      case Failed(e) => BadLine(ParseError(e))
      case Stack(s) =>
        if s == [] then NoStatement
        else
          match Pop(s)
          case NotPopped(e) => BadLine(ParseError(e))
          case Popped(t, rest) => if rest == [] then Statement(t) else BadLine(StackLeft)
  }

  /** A printed expression comes back as one statement, its translation, if and only if the
      line fits and the stack is deep enough. */
  lemma {:induction false} LineRoundTrip(np: Node)
    requires Printable(np)
    ensures ExecLine(Printed(np) + "\n") ==
            if |Printed(np)| + 1 > 4094 then BadLine(LineTooLong)
            else if Need(np) > 50 then BadLine(ParseError(ESTACKO))
            else Statement(Translate(np))
  {
    hide Printable, Printed, Need, Translate, Run, Tokens;
    var line := Printed(np) + "\n";
    RoundTrip(np, []);
    PrintedStarts(np);
    assert line[..|line| - 1] == Printed(np);
    assert [] + [Ptr(Translate(np))] == [Ptr(Translate(np))];
    Pops([], Translate(np));
  }

  lemma {:induction false} PrintedStarts(np: Node)
    requires Printable(np)
    ensures Printed(np) != "" && Printed(np)[0] == '\t'
  {
    if np.op != OSYM {
      PrintedStarts(np.left);
    }
    hide Tail, TypeOk, LeafOk;
  }

  lemma ZeroWord()
    ensures Mod(0, WORD) == 0
  {
  }

  /** Shifting a digit into a word. */
  lemma ShiftedIn(x: nat, d: nat)
    ensures Mod(Mod(Times(Mod(x, WORD), 16), WORD) + d, WORD) == Mod(Times(x, 16) + d, WORD)
  {
    ModMul(x, 16, WORD);
    ModAdd(x * 16, d, WORD);
  }

  class Parser {
    var stack: array<Elem>
    var sp: nat

    constructor ()
      ensures Valid() && Contents() == [] && fresh(stack)
    {
      stack := new Elem[STACKSIZ](_ => Name(""));
      sp := 0;
    }

    ghost predicate Valid()
      reads this, stack
    {
      stack.Length == STACKSIZ && sp <= STACKSIZ
    }

    ghost function Contents(): seq<Elem>
      reads this, stack
      requires Valid()
    {
      stack[..sp]
    }

    /** The stack is what an outcome says, or its error is reported. */
    ghost predicate Reached(o: Outcome, err: Option<Error>)
      reads this, stack
      requires Valid()
    {
      match o case Stack(s) => err == None && Contents() == s case Failed(e) => err == Some(e)
    }

    method PushElem(e: Elem) returns (err: Option<Error>)
      requires Valid()
      modifies this`sp, stack
      ensures Valid() && Reached(Push(old(Contents()), e), err)
    {
      if sp == STACKSIZ {
        return Some(ESTACKO);
      }
      stack[sp] := e;
      sp := sp + 1;
      return None;
    }

    method PopTree() returns (t: Tree, err: Option<Error>)
      requires Valid()
      modifies this`sp
      ensures Valid()
      ensures match Pop(old(Contents()))
              case Popped(x, rest) => err == None && t == x && Contents() == rest
              case NotPopped(e) => err == Some(e)
    {
      t := NoTree;
      if sp == 0 {
        return t, Some(ESTACKU);
      }
      sp := sp - 1;
      if !stack[sp].Ptr? {
        return t, Some(Unmodelled);
      }
      return stack[sp].tree, None;
    }

    /** Reads the number after a token's letter, digit by digit. */
    method ReadId(s: string) returns (n: nat)
      ensures n == Atoi(s)
    {
      hide Index;
      n := 0;
      var i := 0;
      while i < |s| && Index(UPPER, s[i]) < 10
        invariant i <= |s| && i + Digits(s[i..]) == Digits(s)
        invariant n == Value(s[..i], 10, UPPER)
      {
        assert s[i..][1..] == s[i + 1..];
        assert s[..i + 1][..i] == s[..i];
        n := Times(n, 10) + Index(UPPER, s[i]);
        i := i + 1;
      }
    }

    /** Reads hexadecimal digits in a 64-bit word. */
    method ReadHex(s: string) returns (v: nat)
      requires Digital(s, 16, UPPER)
      ensures v == Mod(Value(s, 16, UPPER), WORD)
    {
      hide Mod, Times, Index;
      ZeroWord();
      v := 0;
      var i := 0;
      while i < |s|
        invariant i <= |s| && v == Mod(Value(s[..i], 16, UPPER), WORD)
      {
        assert s[..i + 1][..i] == s[..i];
        ShiftedIn(Value(s[..i], 16, UPPER), Index(UPPER, s[i]));
        v := Mod(Mod(Times(v, 16), WORD) + Index(UPPER, s[i]), WORD);
        i := i + 1;
      }
      assert s[..i] == s;
    }

    /** The type of an operator passes through the stack. */
    method ReadType(token: string) returns (ty: Ty, err: Option<Error>)
      requires Valid()
      modifies this`sp, stack
      ensures Valid()
      ensures match GetType(old(Contents()), token)
              case Typed(x) => err == None && ty == x && Contents() == old(Contents())
              case NotTyped(e) => err == Some(e)
    {
      hide BasicLetter, HasParse, Atoi;
      ty := ByLetter('\0');
      if token == "" || !HasParse(token[0]) {
        return ty, Some(ESYNTAX);
      }
      if BasicLetter(token[0]) {
        ty := ByLetter(token[0]);
      } else if token[0] == 'V' || token[0] == 'U' || token[0] == 'S' {
        var id := ReadId(token[1..]);
        if id >= USHRT_MAX {
          return ty, Some(EBADID);
        }
        ty := OfSymbol(id);
      } else {
        return ty, Some(Unmodelled);
      }
      err := PushElem(TypeElem(ty));
      if err == None {
        sp := sp - 1;
      }
    }

    method ParseTypeToken(token: string) returns (err: Option<Error>)
      requires Valid() && token != ""
      modifies this`sp, stack
      ensures Valid() && Reached(ParseType(old(Contents()), token), err)
    {
      var ty;
      ty, err := ReadType(token);
      if err == None {
        err := PushElem(TypeElem(ty));
      }
    }

    method ParseSymbolToken(token: string) returns (err: Option<Error>)
      requires Valid() && token != ""
      modifies this`sp, stack
      ensures Valid() && Reached(ParseSymbol(old(Contents()), token), err)
    {
      var id := ReadId(token[1..]);
      if id >= USHRT_MAX {
        return Some(EBADID);
      }
      err := PushElem(Ptr(Symbol(OperandKind(token[0]), id)));
    }

    method ParseConstantToken(token: string) returns (err: Option<Error>)
      requires Valid() && token != ""
      modifies this`sp, stack
      ensures Valid() && Reached(ParseConstant(old(Contents()), token), err)
    {
      if |token| > 1 && token[1] == '"' {
        err := PushElem(Ptr(Str(token[2..])));
        return;
      }
      var ty;
      ty, err := ReadType(token[1..]);
      if err != None {
        return;
      }
      if !Digital(token[2..], 16, UPPER) {
        return Some(Unmodelled);
      }
      var v := ReadHex(token[2..]);
      err := PushElem(Ptr(Const(ty, v)));
    }

    method ParseUnaryToken(token: string) returns (err: Option<Error>)
      requires Valid() && token != ""
      modifies this`sp, stack
      ensures Valid() && Reached(ParseUnary(old(Contents()), token), err)
    {
      var ty, left;
      ty, err := ReadType(token[1..]);
      if err != None {
        return;
      }
      left, err := PopTree();
      if err != None {
        return;
      }
      err := PushElem(Ptr(Tree(token[0], '\0', ty, left, NoTree)));
    }

    method ParseBinaryToken(op: char, subop: char, token: string) returns (err: Option<Error>)
      requires Valid()
      modifies this`sp, stack
      ensures Valid() && Reached(ParseBinary(old(Contents()), op, subop, token), err)
    {
      var ty, left, right;
      ty, err := ReadType(token);
      if err != None {
        return;
      }
      right, err := PopTree();
      if err != None {
        return;
      }
      left, err := PopTree();
      if err != None {
        return;
      }
      err := PushElem(Ptr(Tree(op, subop, ty, left, right)));
    }

    method ParseAssignToken(token: string) returns (err: Option<Error>)
      requires Valid() && token != ""
      modifies this`sp, stack
      ensures Valid() && Reached(ParseAssign(old(Contents()), token), err)
    {
      if |token| > 1 && SubopLetter(token[1]) {
        err := ParseBinaryToken(':', token[1], token[2..]);
      } else {
        err := ParseBinaryToken(':', '\0', token[1..]);
      }
    }

    method ParseTernaryToken(token: string) returns (err: Option<Error>)
      requires Valid() && token != ""
      modifies this`sp, stack
      ensures Valid() && Reached(ParseTernary(old(Contents()), token), err)
    {
      var ty, cond, yes, no;
      ty, err := ReadType(token[1..]);
      if err != None {
        return;
      }
      no, err := PopTree();
      if err != None {
        return;
      }
      yes, err := PopTree();
      if err != None {
        return;
      }
      cond, err := PopTree();
      if err != None {
        return;
      }
      err := PushElem(Ptr(Tree('?', '\0', ty, cond, Tree(' ', '\0', ByLetter('\0'), yes, no))));
    }

    /** Pops parameters, linking each to the one popped before it, until something else. */
    method ParseCallToken(token: string) returns (err: Option<Error>)
      requires Valid() && token != ""
      modifies this`sp, stack
      ensures Valid() && Reached(ParseCall(old(Contents()), token), err)
    {
      var np, par := NoTree, NoTree;
      ghost var before := Contents();
      np, err := PopTree();
      while err == None && np.Tree? && np.op == 'p'
        invariant Valid()
        invariant match PopCall(before, NoTree)
                  case Callee(fun, pars, s1) =>
                    && err == None
                    && (if np.Tree? && np.op == 'p' then PopCall(Contents(), np.(right := par)) == Callee(fun, pars, s1)
                        else np == fun && par == pars && Contents() == s1)
                  case NoCallee(e) =>
                    err == Some(e) || (err == None && np.Tree? && np.op == 'p' && PopCall(Contents(), np.(right := par)) == NoCallee(e))
        decreases err == None, sp
      {
        par := np.(right := par);
        np, err := PopTree();
      }
      if err != None {
        return;
      }
      var ty;
      ty, err := ReadType(token[1..]);
      if err != None {
        return;
      }
      err := PushElem(Ptr(Tree(token[0], '\0', ty, np, par)));
    }

    method ParseBuiltinToken(token: string) returns (err: Option<Error>)
      requires Valid() && token != ""
      modifies this`sp, stack
      ensures Valid() && Reached(ParseBuiltin(old(Contents()), token), err)
    {
      hide BuiltinOp, GetType, Built;
      var ty;
      ty, err := ReadType(token[1..]);
      if err != None {
        return;
      }
      if sp == 0 {
        return Some(ESTACKU);
      }
      sp := sp - 1;
      if !stack[sp].Name? || stack[sp].name == "" {
        return Some(Unmodelled);
      }
      var op := BuiltinOp(stack[sp].name);
      if op == None {
        return Some(EBBUILT);
      }
      assert Contents() == old(Contents())[..|old(Contents())| - 1];
      err := Build(op.value.0, op.value.1, ty);
    }

    method Build(subop: char, n: nat, ty: Ty) returns (err: Option<Error>)
      requires Valid()
      modifies this`sp, stack
      ensures Valid() && Reached(Built(old(Contents()), subop, n, ty), err)
    {
      var left, right := NoTree, NoTree;
      if n == 2 {
        right, err := PopTree();
        if err != None {
          return;
        }
      }
      left, err := PopTree();
      if err != None {
        return;
      }
      err := PushElem(Ptr(Tree('m', subop, ty, left, right)));
    }

    /** Runs the action of one token. */
    method ExecToken(token: string) returns (err: Option<Error>)
      requires Valid() && token != "" && HasParse(token[0])
      modifies this`sp, stack
      ensures Valid() && Reached(Exec(old(Contents()), token), err)
    {
      hide ParseType, ParseSymbol, ParseUnary, ParseBinary, ParseAssign, ParseTernary, ParseCall, ParseConstant, ParseBuiltin;
      var c := token[0];
      if BasicLetter(c) || c == 'V' || c == 'U' || c == 'S' {
        err := ParseTypeToken(token);
      } else if SymbolLetter(c) {
        err := ParseSymbolToken(token);
      } else if UnaryLetter(c) {
        err := ParseUnaryToken(token);
      } else if BinaryLetter(c) {
        err := ParseBinaryToken(c, '\0', token[1..]);
      } else if c == '"' {
        err := PushElem(Name(token[1..]));
      } else if c == 'm' {
        err := ParseBuiltinToken(token);
      } else if c == ':' {
        err := ParseAssignToken(token);
      } else if c == '?' {
        err := ParseTernaryToken(token);
      } else if c == 'c' || c == 'z' {
        err := ParseCallToken(token);
      } else if c == '#' {
        err := ParseConstantToken(token);
      } else {
        err := Some(Unmodelled);
      }
    }

    /** Evaluates the tokens of a line up to the first that has no action. */
    method Eval(tokens: seq<string>) returns (err: Option<Error>)
      requires Valid()
      modifies this`sp, stack
      ensures Valid() && Reached(Run(old(Contents()), tokens), err)
    {
      hide Exec, HasParse;
      err := None;
      var i := 0;
      while i < |tokens| && tokens[i] != "" && HasParse(tokens[i][0])
        invariant i <= |tokens| && Valid() && err == None
        invariant Run(Contents(), tokens[i..]) == Run(old(Contents()), tokens)
      {
        ghost var s := Contents();
        assert tokens[i..][1..] == tokens[i + 1..];
        err := ExecToken(tokens[i]);
        if err != None {
          return;
        }
        i := i + 1;
      }
    }
  }

  /** Splits a line at tabs and newlines. */
  method Tokenize(line: string) returns (tokens: seq<string>)
    ensures tokens == Tokens(line)
  {
    tokens := [];
    var i := 0;
    while i < |line|
      invariant i <= |line| && tokens + Tokens(line[i..]) == Tokens(line)
    {
      if Delimiter(line[i]) {
        assert line[i..][1..] == line[i + 1..];
        i := i + 1;
      } else {
        var n := Span(line[i..]);
        assert line[i..][..n] == line[i..i + n] && line[i..][n..] == line[i + n..];
        Assoc(tokens, [line[i..i + n]], Tokens(line[i + n..]));
        tokens := tokens + [line[i..i + n]];
        i := i + n;
      }
    }
  }

  /** Reads a line of the front end and takes the statement off the stack. */
  method ParseLine(p: Parser, line: string) returns (r: LineResult)
    requires p.Valid() && p.Contents() == []
    modifies p`sp, p.stack
    ensures p.Valid() && r == ExecLine(line)
  {
    if |line| > LINESIZ - 1 {
      return BadLine(LineTooLong);
    }
    if line == "" || line[|line| - 1] != '\n' {
      return BadLine(NoNewLine);
    }
    if line[0] != '\t' {
      return BadLine(NotAnExpression);
    }
    var tokens := Tokenize(line[..|line| - 1]);
    var err := p.Eval(tokens);
    if err != None {
      return BadLine(ParseError(err.value));
    }
    if p.sp == 0 {
      return NoStatement;
    }
    var t;
    t, err := p.PopTree();
    if err != None {
      return BadLine(ParseError(err.value));
    }
    return if p.sp == 0 then Statement(t) else BadLine(StackLeft);
  }

  /** From the front end to the back end: what is printed for a tree is read back as its
      translation. */
  method Transmit(np: Node) returns (r: LineResult)
    requires Printable(np)
    ensures r.Statement? <==> |Printed(np)| + 1 <= 4094 && Need(np) <= 50
    ensures r.Statement? ==> r.tree == Translate(np)
    ensures !r.Statement? ==> r == BadLine(LineTooLong) || r == BadLine(ParseError(ESTACKO))
  {
    hide Printable, Printed, Need, Translate, ExecLine;
    var e := new Emitter();
    e.EmitNode(np);
    e.out := e.out + "\n";
    var p := new Parser();
    assert e.out == Printed(np) + "\n";
    r := ParseLine(p, e.out);
    LineRoundTrip(np);
  }
}
