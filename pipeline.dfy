/**
 * The three stages in the order the compiler runs them on one source text,
 * and the outcome of the whole on concrete source texts.
 */
module Pipeline {
  import opened Lexer
  import opened Parser
  import opened CodeGen

  datatype Outcome =
    | LexFailed(error: LexError)
    | NotAStatement
    | SyntaxFailed(expected: Class)
    | Compiled(code: seq<Instr>)

  /** Tokenize, parse one assignment from the first token on, generate its code. */
  function Compile(source: string): (out: Outcome)
    ensures out.LexFailed? <==> Lex(source).Failed?
    ensures out.LexFailed? ==> out.error == Lex(source).error
    ensures out.Compiled? ==> Lex(source).Tokens? && |Lex(source).tokens| > 0 && |out.code| > 0
                              && out.code[|out.code| - 1] == Store(Lex(source).tokens[0].text)
  {
    match Lex(source)
    case Failed(e) => LexFailed(e)
    case Tokens(ts) =>
      match ParseAssignment(ts, 0)
      case NoStatement => NotAStatement
      case SyntaxError(k) => SyntaxFailed(k)
      case Parsed(s, _) => Compiled(Generate(s))
  }

  /**
   * The stages run as the compiler's driver runs them: the scanning loop,
   * then a parser object over its tokens from the first one, then the code
   * of the statement it returns; the same outcome as `Compile`.
   */
  method Run(source: string) returns (out: Outcome)
    ensures out == Compile(source)
  {
    var scanned := Tokenize(source);
    if scanned.Failed? {
      return LexFailed(scanned.error);
    }
    var parser := new Parser(scanned.tokens);
    var ast := parser.Assignment();
    match ast
    case NoStatement => out := NotAStatement;
    case SyntaxError(k) => out := SyntaxFailed(k);
    case Parsed(s, _) => out := Compiled(Generate(s));
  }

  /** Number of tokens of class `k`. */
  function CountKind(ts: seq<Token>, k: Class): nat
  {
    if |ts| == 0 then 0 else (if ts[0].kind == k then 1 else 0) + CountKind(ts[1..], k)
  }

  lemma {:induction false} CountKindAppend(a: seq<Token>, b: seq<Token>, k: Class)
    ensures CountKind(a + b, k) == CountKind(a, k) + CountKind(b, k)
  {
    if |a| == 0 {
      assert a + b == b;
    } else {
      assert (a + b)[1..] == a[1..] + b;
      CountKindAppend(a[1..], b, k);
    }
  }

  /** The tokens of a parsed tree: one per operand leaf and one per operator node. */
  lemma {:induction false} UnparseCounts(e: Expr)
    requires RightLeaning(e)
    ensures CountKind(Unparse(e), Number) + CountKind(Unparse(e), Identifier) == OperandCount(e)
    ensures CountKind(Unparse(e), Op) == OperatorCount(e)
    ensures |Unparse(e)| == OperandCount(e) + OperatorCount(e)
  {
    match e
    case Absent =>
    case Leaf(_, _) =>
    case BinOp(op, l, r) =>
      UnparseCounts(l);
      UnparseCounts(r);
      CountKindSplit(Unparse(l), Token(Op, op), Unparse(r), Number);
      CountKindSplit(Unparse(l), Token(Op, op), Unparse(r), Identifier);
      CountKindSplit(Unparse(l), Token(Op, op), Unparse(r), Op);
  }

  lemma CountKindSplit(a: seq<Token>, t: Token, b: seq<Token>, k: Class)
    ensures CountKind(a + [t] + b, k) == CountKind(a, k) + (if t.kind == k then 1 else 0) + CountKind(b, k)
  {
    CountKindAppend(a + [t], b, k);
    CountKindAppend(a, [t], k);
  }

  /**
   * What a successful compilation emits, in terms of the statement's
   * tokens: one load per number or identifier between `=` and `;`, one
   * operator instruction per operator token there, and a single store to
   * the leading identifier as the last instruction: every token except `=`
   * and `;` turns into exactly one instruction.
   */
  lemma CompiledCode(source: string)
    requires Compile(source).Compiled?
    ensures Compile(source).code[|Compile(source).code| - 1] == Store(Lex(source).tokens[0].text)
    ensures forall i :: 0 <= i < |Compile(source).code| - 1 ==> !Compile(source).code[i].Store?
    ensures CountLoads(Compile(source).code)
         == CountKind(Lex(source).tokens[2..ParseAssignment(Lex(source).tokens, 0).next - 1], Number)
          + CountKind(Lex(source).tokens[2..ParseAssignment(Lex(source).tokens, 0).next - 1], Identifier)
    ensures CountOperators(Compile(source).code)
         == CountKind(Lex(source).tokens[2..ParseAssignment(Lex(source).tokens, 0).next - 1], Op)
    ensures |Compile(source).code| == ParseAssignment(Lex(source).tokens, 0).next - 2
  {
    ParseAssignmentConsumes(Lex(source).tokens, 0);
    StatementCode(ParseAssignment(Lex(source).tokens, 0).stmt);
  }

  /** The code of a parsed statement, counted against the statement's tree. */
  lemma StatementCode(s: Stmt)
    requires RightLeaning(s.value)
    ensures Generate(s)[|Generate(s)| - 1] == Store(s.target)
    ensures forall i :: 0 <= i < |Generate(s)| - 1 ==> !Generate(s)[i].Store?
    ensures CountLoads(Generate(s)) == CountKind(Unparse(s.value), Number) + CountKind(Unparse(s.value), Identifier)
    ensures CountOperators(Generate(s)) == CountKind(Unparse(s.value), Op)
    ensures |Generate(s)| == |Unparse(s.value)| + 1
  {
    UnparseCounts(s.value);
    GenExprCounts(s.value);
    CountAppend(GenExpr(s.value), [Store(s.target)]);
  }

  // ----- Concrete inputs -----

  /** A source that scans to exactly the tokens of a statement compiles to that statement's code. */
  lemma CompileStatement(source: string, s: Stmt)
    requires Chain(s.value) && Lex(source) == Tokens(UnparseStmt(s))
    ensures Compile(source) == Compiled(Generate(s))
  {
    assert UnparseStmt(s) + [] == UnparseStmt(s);
    ParseAssignmentUnparse(s, []);
  }

  const BuiltInScanned: seq<Token> := [Token(Identifier, "x"), Token(Assign, "="), Token(Number, "3"), Token(Op, "+"), Token(Number, "5"), Token(End, ";")]
  const BuiltInSpacing: seq<bool> := [true, true, true, true, false, false]

  lemma BuiltInSpelling()
    ensures Spell(BuiltInScanned, BuiltInSpacing) == "x = 3 + 5;"
  {
    assert SpellFrom(BuiltInScanned, BuiltInSpacing, 4) == "5;";
    assert SpellFrom(BuiltInScanned, BuiltInSpacing, 2) == "3 + 5;";
  }

  lemma BuiltInSpellable()
    ensures Spellable(BuiltInScanned, BuiltInSpacing)
  {
    assert ValidToken(Token(Identifier, "x"));
    assert ValidToken(Token(Assign, "="));
    assert ValidToken(Token(Number, "3"));
    assert ValidToken(Token(Op, "+"));
    assert ValidToken(Token(Number, "5"));
    assert ValidToken(Token(End, ";"));
  }

  /** `x = 3 + 5;` scans to its tokens. */
  lemma BuiltInTokens()
    ensures Lex("x = 3 + 5;") == Tokens(BuiltInScanned)
  {
    BuiltInSpelling();
    BuiltInSpellable();
    LexSpell(BuiltInScanned, BuiltInSpacing);
  }

  /** The compiler's built-in input `x = 3 + 5;`: its code. */
  lemma BuiltInCode()
    ensures Compile("x = 3 + 5;") == Compiled([Load("3"), Load("5"), Operator("+"), Store("x")])
  {
    var s := Assignment("x", BinOp("+", Leaf(Number, "3"), Leaf(Number, "5")));
    assert UnparseStmt(s) == BuiltInScanned;
    assert Chain(s.value);
    assert Generate(s) == [Load("3"), Load("5"), Operator("+"), Store("x")];
    BuiltInTokens();
    CompileStatement("x = 3 + 5;", s);
  }

  /** The lines the generator writes for the built-in input, one per instruction. */
  lemma BuiltInOutput()
    ensures Compile("x = 3 + 5;").Compiled?
    ensures Listing(Compile("x = 3 + 5;").code) == ["LOAD 3", "LOAD 5", "+", "STORE x"]
  {
    BuiltInCode();
    assert Render(Load("3")) == "LOAD 3";
    assert Render(Load("5")) == "LOAD 5";
    assert Render(Store("x")) == "STORE x";
  }

  const SingleOperandScanned: seq<Token> := [Token(Identifier, "y"), Token(Assign, "="), Token(Identifier, "a"), Token(End, ";")]
  const SingleOperandSpacing: seq<bool> := [true, true, false, false]

  lemma SingleOperandSpelling()
    ensures Spell(SingleOperandScanned, SingleOperandSpacing) == "y = a;"
  {
  }

  lemma SingleOperandSpellable()
    ensures Spellable(SingleOperandScanned, SingleOperandSpacing)
  {
    assert ValidToken(Token(Identifier, "y"));
    assert ValidToken(Token(Assign, "="));
    assert ValidToken(Token(Identifier, "a"));
    assert ValidToken(Token(End, ";"));
  }

  /** `y = a;` scans to its tokens. */
  lemma SingleOperandTokens()
    ensures Lex("y = a;") == Tokens(SingleOperandScanned)
  {
    SingleOperandSpelling();
    SingleOperandSpellable();
    LexSpell(SingleOperandScanned, SingleOperandSpacing);
  }

  /** `y = a;`: a single operand is loaded and stored. */
  lemma SingleOperand()
    ensures Compile("y = a;") == Compiled([Load("a"), Store("y")])
  {
    var s := Assignment("y", Leaf(Identifier, "a"));
    assert UnparseStmt(s) == SingleOperandScanned && Chain(s.value);
    assert Generate(s) == [Load("a"), Store("y")];
    SingleOperandTokens();
    CompileStatement("y = a;", s);
  }

  const SingleNumberScanned: seq<Token> := [Token(Identifier, "x"), Token(Assign, "="), Token(Number, "3"), Token(End, ";")]
  const SingleNumberSpacing: seq<bool> := [true, true, false, false]

  lemma SingleNumberSpelling()
    ensures Spell(SingleNumberScanned, SingleNumberSpacing) == "x = 3;"
  {
  }

  lemma SingleNumberSpellable()
    ensures Spellable(SingleNumberScanned, SingleNumberSpacing)
  {
    assert ValidToken(Token(Identifier, "x"));
    assert ValidToken(Token(Assign, "="));
    assert ValidToken(Token(Number, "3"));
    assert ValidToken(Token(End, ";"));
  }

  /** `x = 3;` scans to its tokens. */
  lemma SingleNumberTokens()
    ensures Lex("x = 3;") == Tokens(SingleNumberScanned)
  {
    SingleNumberSpelling();
    SingleNumberSpellable();
    LexSpell(SingleNumberScanned, SingleNumberSpacing);
  }

  /** `x = 3;`: the expression ends after one operand; one load comes before the store. */
  lemma SingleNumber()
    ensures Compile("x = 3;") == Compiled([Load("3"), Store("x")])
  {
    var s := Assignment("x", Leaf(Number, "3"));
    assert UnparseStmt(s) == SingleNumberScanned && Chain(s.value);
    assert Generate(s) == [Load("3"), Store("x")];
    SingleNumberTokens();
    CompileStatement("x = 3;", s);
  }

  const SubtractionGroupsRightScanned: seq<Token> := [Token(Identifier, "z"), Token(Assign, "="), Token(Number, "1"), Token(Op, "-"), Token(Number, "2"), Token(Op, "-"), Token(Number, "3"), Token(End, ";")]
  const SubtractionGroupsRightSpacing: seq<bool> := [true, true, true, true, true, true, false, false]

  lemma SubtractionGroupsRightSpelling()
    ensures Spell(SubtractionGroupsRightScanned, SubtractionGroupsRightSpacing) == "z = 1 - 2 - 3;"
  {
    assert SpellFrom(SubtractionGroupsRightScanned, SubtractionGroupsRightSpacing, 6) == "3;";
    assert SpellFrom(SubtractionGroupsRightScanned, SubtractionGroupsRightSpacing, 4) == "2 - 3;";
    assert SpellFrom(SubtractionGroupsRightScanned, SubtractionGroupsRightSpacing, 2) == "1 - 2 - 3;";
  }

  lemma SubtractionGroupsRightSpellable()
    ensures Spellable(SubtractionGroupsRightScanned, SubtractionGroupsRightSpacing)
  {
    assert ValidToken(Token(Identifier, "z"));
    assert ValidToken(Token(Assign, "="));
    assert ValidToken(Token(Number, "1"));
    assert ValidToken(Token(Op, "-"));
    assert ValidToken(Token(Number, "2"));
    assert ValidToken(Token(Number, "3"));
    assert ValidToken(Token(End, ";"));
  }

  /** `z = 1 - 2 - 3;` scans to its tokens. */
  lemma SubtractionGroupsRightTokens()
    ensures Lex("z = 1 - 2 - 3;") == Tokens(SubtractionGroupsRightScanned)
  {
    SubtractionGroupsRightSpelling();
    SubtractionGroupsRightSpellable();
    LexSpell(SubtractionGroupsRightScanned, SubtractionGroupsRightSpacing);
  }

  /** `z = 1 - 2 - 3;` groups as `1 - (2 - 3)`. */
  lemma SubtractionGroupsRight()
    ensures Compile("z = 1 - 2 - 3;")
         == Compiled([Load("1"), Load("2"), Load("3"), Operator("-"), Operator("-"), Store("z")])
  {
    var s := Assignment("z", BinOp("-", Leaf(Number, "1"), BinOp("-", Leaf(Number, "2"), Leaf(Number, "3"))));
    assert UnparseStmt(s) == SubtractionGroupsRightScanned && Chain(s.value);
    assert Generate(s) == [Load("1"), Load("2"), Load("3"), Operator("-"), Operator("-"), Store("z")];
    SubtractionGroupsRightTokens();
    CompileStatement("z = 1 - 2 - 3;", s);
  }

  const MultiplyAfterAddScanned: seq<Token> := [Token(Identifier, "a"), Token(Assign, "="), Token(Identifier, "b"), Token(Op, "+"), Token(Identifier, "c"), Token(Op, "*"), Token(Identifier, "d"), Token(End, ";")]
  const MultiplyAfterAddSpacing: seq<bool> := [true, true, true, true, true, true, false, false]

  lemma MultiplyAfterAddSpelling()
    ensures Spell(MultiplyAfterAddScanned, MultiplyAfterAddSpacing) == "a = b + c * d;"
  {
    assert SpellFrom(MultiplyAfterAddScanned, MultiplyAfterAddSpacing, 6) == "d;";
    assert SpellFrom(MultiplyAfterAddScanned, MultiplyAfterAddSpacing, 4) == "c * d;";
    assert SpellFrom(MultiplyAfterAddScanned, MultiplyAfterAddSpacing, 2) == "b + c * d;";
  }

  lemma MultiplyAfterAddSpellable()
    ensures Spellable(MultiplyAfterAddScanned, MultiplyAfterAddSpacing)
  {
    assert ValidToken(Token(Identifier, "a"));
    assert ValidToken(Token(Assign, "="));
    assert ValidToken(Token(Identifier, "b"));
    assert ValidToken(Token(Op, "+"));
    assert ValidToken(Token(Identifier, "c"));
    assert ValidToken(Token(Op, "*"));
    assert ValidToken(Token(Identifier, "d"));
    assert ValidToken(Token(End, ";"));
  }

  /** `a = b + c * d;` scans to its tokens. */
  lemma MultiplyAfterAddTokens()
    ensures Lex("a = b + c * d;") == Tokens(MultiplyAfterAddScanned)
  {
    MultiplyAfterAddSpelling();
    MultiplyAfterAddSpellable();
    LexSpell(MultiplyAfterAddScanned, MultiplyAfterAddSpacing);
  }

  /** `a = b + c * d;` groups as `b + (c * d)`. */
  lemma MultiplyAfterAdd()
    ensures Compile("a = b + c * d;")
         == Compiled([Load("b"), Load("c"), Load("d"), Operator("*"), Operator("+"), Store("a")])
  {
    var s := Assignment("a", BinOp("+", Leaf(Identifier, "b"), BinOp("*", Leaf(Identifier, "c"), Leaf(Identifier, "d"))));
    assert UnparseStmt(s) == MultiplyAfterAddScanned && Chain(s.value);
    assert Generate(s) == [Load("b"), Load("c"), Load("d"), Operator("*"), Operator("+"), Store("a")];
    MultiplyAfterAddTokens();
    CompileStatement("a = b + c * d;", s);
  }

  const AddAfterMultiplyScanned: seq<Token> := [Token(Identifier, "a"), Token(Assign, "="), Token(Identifier, "b"), Token(Op, "*"), Token(Identifier, "c"), Token(Op, "+"), Token(Identifier, "d"), Token(End, ";")]
  const AddAfterMultiplySpacing: seq<bool> := [true, true, true, true, true, true, false, false]

  lemma AddAfterMultiplySpelling()
    ensures Spell(AddAfterMultiplyScanned, AddAfterMultiplySpacing) == "a = b * c + d;"
  {
    assert SpellFrom(AddAfterMultiplyScanned, AddAfterMultiplySpacing, 6) == "d;";
    assert SpellFrom(AddAfterMultiplyScanned, AddAfterMultiplySpacing, 4) == "c + d;";
    assert SpellFrom(AddAfterMultiplyScanned, AddAfterMultiplySpacing, 2) == "b * c + d;";
  }

  lemma AddAfterMultiplySpellable()
    ensures Spellable(AddAfterMultiplyScanned, AddAfterMultiplySpacing)
  {
    assert ValidToken(Token(Identifier, "a"));
    assert ValidToken(Token(Assign, "="));
    assert ValidToken(Token(Identifier, "b"));
    assert ValidToken(Token(Op, "*"));
    assert ValidToken(Token(Identifier, "c"));
    assert ValidToken(Token(Op, "+"));
    assert ValidToken(Token(Identifier, "d"));
    assert ValidToken(Token(End, ";"));
  }

  /** `a = b * c + d;` scans to its tokens. */
  lemma AddAfterMultiplyTokens()
    ensures Lex("a = b * c + d;") == Tokens(AddAfterMultiplyScanned)
  {
    AddAfterMultiplySpelling();
    AddAfterMultiplySpellable();
    LexSpell(AddAfterMultiplyScanned, AddAfterMultiplySpacing);
  }

  /** `a = b * c + d;` groups as `b * (c + d)`: `*` does not bind tighter than `+`. */
  lemma AddAfterMultiply()
    ensures Compile("a = b * c + d;")
         == Compiled([Load("b"), Load("c"), Load("d"), Operator("+"), Operator("*"), Store("a")])
  {
    var s := Assignment("a", BinOp("*", Leaf(Identifier, "b"), BinOp("+", Leaf(Identifier, "c"), Leaf(Identifier, "d"))));
    assert UnparseStmt(s) == AddAfterMultiplyScanned && Chain(s.value);
    assert Generate(s) == [Load("b"), Load("c"), Load("d"), Operator("+"), Operator("*"), Store("a")];
    AddAfterMultiplyTokens();
    CompileStatement("a = b * c + d;", s);
  }

  const NotIdentifierFirstScanned: seq<Token> := [Token(Number, "3"), Token(Assign, "="), Token(Identifier, "x"), Token(End, ";")]
  const NotIdentifierFirstSpacing: seq<bool> := [true, true, false, false]

  lemma NotIdentifierFirstSpelling()
    ensures Spell(NotIdentifierFirstScanned, NotIdentifierFirstSpacing) == "3 = x;"
  {
  }

  lemma NotIdentifierFirstSpellable()
    ensures Spellable(NotIdentifierFirstScanned, NotIdentifierFirstSpacing)
  {
    assert ValidToken(Token(Number, "3"));
    assert ValidToken(Token(Assign, "="));
    assert ValidToken(Token(Identifier, "x"));
    assert ValidToken(Token(End, ";"));
  }

  /** `3 = x;` scans to its tokens. */
  lemma NotIdentifierFirstTokens()
    ensures Lex("3 = x;") == Tokens(NotIdentifierFirstScanned)
  {
    NotIdentifierFirstSpelling();
    NotIdentifierFirstSpellable();
    LexSpell(NotIdentifierFirstScanned, NotIdentifierFirstSpacing);
  }

  /** `3 = x;` does not start with an identifier: no statement, no code. */
  lemma NotIdentifierFirst()
    ensures Compile("3 = x;") == NotAStatement
  {
    NotIdentifierFirstTokens();
  }

  const MissingAssignScanned: seq<Token> := [Token(Identifier, "x"), Token(Number, "3"), Token(End, ";")]
  const MissingAssignSpacing: seq<bool> := [true, false, false]

  lemma MissingAssignSpelling()
    ensures Spell(MissingAssignScanned, MissingAssignSpacing) == "x 3;"
  {
  }

  lemma MissingAssignSpellable()
    ensures Spellable(MissingAssignScanned, MissingAssignSpacing)
  {
    assert ValidToken(Token(Identifier, "x"));
    assert ValidToken(Token(Number, "3"));
    assert ValidToken(Token(End, ";"));
  }

  /** `x 3;` scans to its tokens. */
  lemma MissingAssignTokens()
    ensures Lex("x 3;") == Tokens(MissingAssignScanned)
  {
    MissingAssignSpelling();
    MissingAssignSpellable();
    LexSpell(MissingAssignScanned, MissingAssignSpacing);
  }

  /** `x 3;`: `=` is missing after the identifier. */
  lemma MissingAssign()
    ensures Compile("x 3;") == SyntaxFailed(Assign)
  {
    MissingAssignTokens();
  }

  const MissingEndScanned: seq<Token> := [Token(Identifier, "x"), Token(Assign, "="), Token(Number, "3")]
  const MissingEndSpacing: seq<bool> := [true, true, false]

  lemma MissingEndSpelling()
    ensures Spell(MissingEndScanned, MissingEndSpacing) == "x = 3"
  {
  }

  lemma MissingEndSpellable()
    ensures Spellable(MissingEndScanned, MissingEndSpacing)
  {
    assert ValidToken(Token(Identifier, "x"));
    assert ValidToken(Token(Assign, "="));
    assert ValidToken(Token(Number, "3"));
  }

  /** `x = 3` scans to its tokens. */
  lemma MissingEndTokens()
    ensures Lex("x = 3") == Tokens(MissingEndScanned)
  {
    MissingEndSpelling();
    MissingEndSpellable();
    LexSpell(MissingEndScanned, MissingEndSpacing);
  }

  /** `x = 3`: the input ends where `;` is required. */
  lemma MissingEnd()
    ensures Compile("x = 3") == SyntaxFailed(End)
  {
    MissingEndTokens();
    assert ParseExpression(MissingEndScanned, 2) == (Leaf(Number, "3"), 3);
  }

  const MissingOperandScanned: seq<Token> := [Token(Identifier, "x"), Token(Assign, "="), Token(Number, "3"), Token(Op, "+"), Token(End, ";")]
  const MissingOperandSpacing: seq<bool> := [true, true, true, true, false]

  lemma MissingOperandSpelling()
    ensures Spell(MissingOperandScanned, MissingOperandSpacing) == "x = 3 + ;"
  {
    assert SpellFrom(MissingOperandScanned, MissingOperandSpacing, 3) == "+ ;";
  }

  lemma MissingOperandSpellable()
    ensures Spellable(MissingOperandScanned, MissingOperandSpacing)
  {
    assert ValidToken(Token(Identifier, "x"));
    assert ValidToken(Token(Assign, "="));
    assert ValidToken(Token(Number, "3"));
    assert ValidToken(Token(Op, "+"));
    assert ValidToken(Token(End, ";"));
  }

  /** `x = 3 + ;` scans to its tokens. */
  lemma MissingOperandTokens()
    ensures Lex("x = 3 + ;") == Tokens(MissingOperandScanned)
  {
    MissingOperandSpelling();
    MissingOperandSpellable();
    LexSpell(MissingOperandScanned, MissingOperandSpacing);
  }

  /**
   * `x = 3 + ;` is accepted: the operator gets an absent right operand and
   * the code has one load for a two-operand operator, so a stack machine
   * running it from an empty stack underflows.
   */
  lemma MissingOperand()
    ensures Compile("x = 3 + ;") == Compiled([Load("3"), Operator("+"), Store("x")])
    ensures Exec(Machine([], []), [Load("3"), Operator("+"), Store("x")]).None?
  {
    var e := BinOp("+", Leaf(Number, "3"), Absent);
    assert ParseAssignment(MissingOperandScanned, 0) == Parsed(Assignment("x", e), 5) by {
      assert ParseExpression(MissingOperandScanned, 4) == (Absent, 4);
      assert ParseExpression(MissingOperandScanned, 2) == (e, 4);
    }
    assert Generate(Assignment("x", e)) == [Load("3"), Operator("+"), Store("x")];
    assert Exec(Machine([], []), [Load("3"), Operator("+"), Store("x")]).None? by {
      var code := [Load("3"), Operator("+"), Store("x")];
      assert code[1..] == [Operator("+"), Store("x")];
    }
    MissingOperandTokens();
  }

  const MissingExpressionScanned: seq<Token> := [Token(Identifier, "x"), Token(Assign, "="), Token(End, ";")]
  const MissingExpressionSpacing: seq<bool> := [true, true, false]

  lemma MissingExpressionSpelling()
    ensures Spell(MissingExpressionScanned, MissingExpressionSpacing) == "x = ;"
  {
  }

  lemma MissingExpressionSpellable()
    ensures Spellable(MissingExpressionScanned, MissingExpressionSpacing)
  {
    assert ValidToken(Token(Identifier, "x"));
    assert ValidToken(Token(Assign, "="));
    assert ValidToken(Token(End, ";"));
  }

  /** `x = ;` scans to its tokens. */
  lemma MissingExpressionTokens()
    ensures Lex("x = ;") == Tokens(MissingExpressionScanned)
  {
    MissingExpressionSpelling();
    MissingExpressionSpellable();
    LexSpell(MissingExpressionScanned, MissingExpressionSpacing);
  }

  /** `x = ;` is accepted with an absent value: the code is a lone store. */
  lemma MissingExpression()
    ensures Compile("x = ;") == Compiled([Store("x")])
  {
    MissingExpressionTokens();
    assert ParseExpression(MissingExpressionScanned, 2) == (Absent, 2);
    assert Generate(Assignment("x", Absent)) == [Store("x")];
  }

  lemma UnexpectedCharacterScan()
    ensures Lex("x #= 3;") == Failed(LexError(2, '#'))
  {
    assert ValidToken(Token(Identifier, "x"));
    LexTokenSpace(Token(Identifier, "x"), "x #= 3;", 0);
    NoMatchIffUnexpected("x #= 3;", 2);
    assert LexFrom("x #= 3;", 2) == Failed(LexError(2, '#'));
    assert LexFrom("x #= 3;", 0) == Failed(LexError(2, '#'));
  }

  /** `x #= 3;` fails in the lexer at the `#`, the third character. */
  lemma UnexpectedCharacter()
    ensures Compile("x #= 3;") == LexFailed(LexError(2, '#'))
  {
    UnexpectedCharacterScan();
  }
}
