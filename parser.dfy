/**
 * Recursive-descent parser of the mini compiler for the grammar
 *   assignment := IDENTIFIER '=' expression ';'
 *   expression := operand (OP expression)?      operand := NUMBER | IDENTIFIER
 * over the token sequence, with a cursor that only moves forward. A missing
 * operand is not an error: it becomes an absent (null) subtree.
 */
module Parser {
  import opened Options
  import opened Lexer

  /** Expression trees; `Absent` is the null node the parser yields for a missing operand. */
  datatype Expr = Absent | Leaf(kind: Class, text: string) | BinOp(op: string, left: Expr, right: Expr)

  /** The ASSIGN node: the identifier it stores to and the expression it stores. */
  datatype Stmt = Assignment(target: string, value: Expr)

  /**
   * NoStatement: the first token is not an identifier (no tree is built);
   * SyntaxError: the token of class `expected` is missing;
   * Parsed: the statement, and the position just past its `;`.
   */
  datatype ParseResult = NoStatement | SyntaxError(expected: Class) | Parsed(stmt: Stmt, next: nat)

  /** The token at position `p` exists and is of class `k`. */
  predicate At(toks: seq<Token>, p: nat, k: Class)
  {
    p < |toks| && toks[p].kind == k
  }

  /**
   * The trees the parser builds: leaves are numbers or identifiers, and an
   * operator's left operand is never itself an operator (chains lean right).
   */
  predicate RightLeaning(e: Expr)
  {
    match e
    case Absent => true
    case Leaf(k, _) => k == Number || k == Identifier
    case BinOp(_, l, r) => !l.BinOp? && RightLeaning(l) && RightLeaning(r)
  }

  /** The tokens of an expression tree, left to right. */
  function Unparse(e: Expr): seq<Token>
  {
    match e
    case Absent => []
    case Leaf(k, t) => [Token(k, t)]
    case BinOp(op, l, r) => Unparse(l) + [Token(Op, op)] + Unparse(r)
  }

  /** A term at position `p`: a number, else an identifier, else nothing; and the position after it. */
  function ParseTerm(toks: seq<Token>, p: nat): (res: (Expr, nat))
    requires p <= |toks|
    ensures !res.0.BinOp?
    ensures res.0.Absent? ==> res.1 == p && !At(toks, p, Number) && !At(toks, p, Identifier)
    ensures res.0.Leaf? ==> p < |toks| && res.1 == p + 1 && toks[p] == Token(res.0.kind, res.0.text)
                            && (res.0.kind == Number || res.0.kind == Identifier)
  {
    if At(toks, p, Number) then (Leaf(Number, toks[p].text), p + 1)
    else if At(toks, p, Identifier) then (Leaf(Identifier, toks[p].text), p + 1)
    else (Absent, p)
  }

  /**
   * The expression at position `p` and the position after it: a term, then,
   * if an operator follows, the operator with the term on its left and the
   * rest of the expression on its right.
   */
  function ParseExpression(toks: seq<Token>, p: nat): (res: (Expr, nat))
    requires p <= |toks|
    ensures p <= res.1 <= |toks|
    ensures RightLeaning(res.0)
    decreases |toks| - p
  {
    var (term, n) := ParseTerm(toks, p);
    if At(toks, n, Op) then
      var (right, m) := ParseExpression(toks, n + 1);
      (BinOp(toks[n].text, term, right), m)
    else
      (term, n)
  }

  /** The statement at position `p`: identifier, '=', expression, ';'. */
  function ParseAssignment(toks: seq<Token>, p: nat): (r: ParseResult)
    requires p <= |toks|
    ensures r.NoStatement? <==> !At(toks, p, Identifier)
    ensures r.SyntaxError? && r.expected == Assign <==> At(toks, p, Identifier) && !At(toks, p + 1, Assign)
    ensures r == SyntaxError(End) <==> At(toks, p, Identifier) && At(toks, p + 1, Assign)
                                       && !At(toks, ParseExpression(toks, p + 2).1, End)
    ensures r.Parsed? ==> p + 3 <= r.next <= |toks| && r.stmt.target == toks[p].text
    ensures r.Parsed? ==> r.stmt.value == ParseExpression(toks, p + 2).0
                          && r.next == ParseExpression(toks, p + 2).1 + 1
  {
    if !At(toks, p, Identifier) then NoStatement
    else if !At(toks, p + 1, Assign) then SyntaxError(Assign)
    else
      var (e, m) := ParseExpression(toks, p + 2);
      if !At(toks, m, End) then SyntaxError(End)
      else Parsed(Assignment(toks[p].text, e), m + 1)
  }

  /** An operand followed by any number of operator-operand pairs, grouped to the right, with no missing operand. */
  predicate Chain(e: Expr)
  {
    match e
    case Absent => false
    case Leaf(k, _) => k == Number || k == Identifier
    case BinOp(_, l, r) => l.Leaf? && Chain(l) && Chain(r)
  }

  /** The tokens of a statement as the lexer produces them. */
  function UnparseStmt(s: Stmt): seq<Token>
  {
    [Token(Identifier, s.target), Token(Assign, "=")] + Unparse(s.value) + [Token(End, ";")]
  }

  lemma SliceAround<T>(s: seq<T>, i: nat, k: nat, j: nat)
    requires i <= k < j <= |s|
    ensures s[i..j] == s[i..k] + [s[k]] + s[k + 1..j]
  {
  }

  /**
   * The tokens an expression parse moves over are exactly the tokens of the
   * tree it returns, in order: the cursor moves over the expression and no further.
   */
  lemma {:induction false} ParseExpressionConsumes(toks: seq<Token>, p: nat)
    requires p <= |toks|
    ensures toks[p..ParseExpression(toks, p).1] == Unparse(ParseExpression(toks, p).0)
    decreases |toks| - p
  {
    if At(toks, ParseTerm(toks, p).1, Op) {
      ParseExpressionConsumes(toks, ParseTerm(toks, p).1 + 1);
      SliceAround(toks, p, ParseTerm(toks, p).1, ParseExpression(toks, p).1);
      assert toks[p..ParseTerm(toks, p).1] == Unparse(ParseTerm(toks, p).0);
    } else {
      assert toks[p..ParseTerm(toks, p).1] == Unparse(ParseTerm(toks, p).0);
    }
  }

  /**
   * Parsing inverts unparsing: the tokens of a right-grouped chain written at
   * position `p`, followed by anything but an operator, parse back to the
   * same tree, and the cursor stops right after them.
   */
  lemma {:induction false} ParseUnparse(e: Expr, toks: seq<Token>, p: nat)
    requires Chain(e) && p + |Unparse(e)| <= |toks| && toks[p..p + |Unparse(e)|] == Unparse(e)
    requires !At(toks, p + |Unparse(e)|, Op)
    ensures ParseExpression(toks, p) == (e, p + |Unparse(e)|)
  {
    match e
    case Leaf(k, t) =>
      assert toks[p] == Unparse(e)[0];
    case BinOp(op, l, r) =>
      assert Unparse(e) == [Token(l.kind, l.text), Token(Op, op)] + Unparse(r);
      assert toks[p] == Unparse(e)[0] && toks[p + 1] == Unparse(e)[1];
      assert toks[p + 2..p + |Unparse(e)|] == Unparse(e)[2..];
      ParseUnparse(r, toks, p + 2);
  }

  /**
   * Operator chains group to the right and all operators bind equally:
   * `a o1 b o2 c` parses as `o1(a, o2(b, c))` whatever the operators are.
   */
  lemma RightAssociative(a: Token, o1: Token, b: Token, o2: Token, c: Token, rest: seq<Token>)
    requires a.kind in {Number, Identifier} && b.kind in {Number, Identifier} && c.kind in {Number, Identifier}
    requires o1.kind == Op && o2.kind == Op && !At(rest, 0, Op)
    ensures ParseExpression([a, o1, b, o2, c] + rest, 0)
         == (BinOp(o1.text, Leaf(a.kind, a.text), BinOp(o2.text, Leaf(b.kind, b.text), Leaf(c.kind, c.text))), 5)
  {
    var e := BinOp(o1.text, Leaf(a.kind, a.text), BinOp(o2.text, Leaf(b.kind, b.text), Leaf(c.kind, c.text)));
    var toks := [a, o1, b, o2, c] + rest;
    assert a == Token(a.kind, a.text) && b == Token(b.kind, b.text) && c == Token(c.kind, c.text);
    assert o1 == Token(Op, o1.text) && o2 == Token(Op, o2.text);
    assert Unparse(e.right) == [b, o2, c];
    assert Unparse(e) == [a, o1] + [b, o2, c];
    assert [a, o1] + [b, o2, c] == [a, o1, b, o2, c];
    assert toks[0..5] == [a, o1, b, o2, c];
    if |rest| > 0 {
      assert toks[5] == rest[0];
    }
    ParseUnparse(e, toks, 0);
  }

  /**
   * A successful statement parse took an identifier (the target), an `=`,
   * the tokens of the expression tree and a `;`, in that order.
   */
  lemma ParseAssignmentConsumes(toks: seq<Token>, p: nat)
    requires p <= |toks| && ParseAssignment(toks, p).Parsed?
    ensures p + 3 <= ParseAssignment(toks, p).next <= |toks|
    ensures toks[p] == Token(Identifier, ParseAssignment(toks, p).stmt.target) && toks[p + 1].kind == Assign
    ensures toks[p + 2..ParseAssignment(toks, p).next - 1] == Unparse(ParseAssignment(toks, p).stmt.value)
    ensures toks[ParseAssignment(toks, p).next - 1].kind == End
  {
    ParseExpressionConsumes(toks, p + 2);
  }

  /** Parsing inverts unparsing for statements whose expression is a chain; tokens after `;` are left alone. */
  lemma ParseAssignmentUnparse(s: Stmt, rest: seq<Token>)
    requires Chain(s.value)
    ensures ParseAssignment(UnparseStmt(s) + rest, 0) == Parsed(s, |UnparseStmt(s)|)
  {
    var toks := UnparseStmt(s) + rest;
    var n := |Unparse(s.value)|;
    assert toks[2..2 + n] == Unparse(s.value);
    assert toks[2 + n] == Token(End, ";");
    ParseUnparse(s.value, toks, 2);
    assert toks[0] == Token(Identifier, s.target) && toks[1] == Token(Assign, "=");
  }

  /**
   * A statement whose value is a chain but whose `;` is missing, because the
   * chain is followed by something that is neither an operator nor `;`, is
   * the syntax error expecting `;`.
   */
  lemma MissingEndUnparse(x: string, e: Expr, rest: seq<Token>)
    requires Chain(e)
    requires !At(rest, 0, Op) && !At(rest, 0, End)
    ensures ParseAssignment([Token(Identifier, x), Token(Assign, "=")] + Unparse(e) + rest, 0) == SyntaxError(End)
  {
    var toks := [Token(Identifier, x), Token(Assign, "=")] + Unparse(e) + rest;
    var n := |Unparse(e)|;
    assert toks[2..2 + n] == Unparse(e);
    assert At(toks, 2 + n, Op) == At(rest, 0, Op) && At(toks, 2 + n, End) == At(rest, 0, End);
    ParseUnparse(e, toks, 2);
    assert toks[0] == Token(Identifier, x) && toks[1] == Token(Assign, "=");
  }

  /** The parser's state: the token array and the cursor into it. */
  class Parser {
    const tokens: seq<Token>
    var position: nat

    ghost predicate Valid()
      reads this
    {
      position <= |tokens|
    }

    constructor (tokens: seq<Token>)
      ensures Valid() && this.tokens == tokens && position == 0
    {
      this.tokens := tokens;
      position := 0;
    }

    /**
     * On a token of class `k` at the cursor: a leaf carrying its class and
     * text, and the cursor moves one token on; otherwise no node, cursor unchanged.
     */
    method Match(k: Class) returns (node: Option<Expr>)
      requires Valid()
      modifies this
      ensures Valid()
      ensures if At(tokens, old(position), k)
              then node == Some(Leaf(k, tokens[old(position)].text)) && position == old(position) + 1
              else node == None && position == old(position)
    {
      if position < |tokens| && tokens[position].kind == k {
        node := Some(Leaf(tokens[position].kind, tokens[position].text));
        position := position + 1;
      } else {
        node := None;
      }
    }

    method Expression() returns (e: Expr)
      requires Valid()
      modifies this
      ensures Valid()
      ensures (e, position) == ParseExpression(tokens, old(position))
      decreases |tokens| - position
    {
      var term := Match(Number);
      if term.None? {
        term := Match(Identifier);
      }
      var left := if term.Some? then term.value else Absent;
      if position < |tokens| && tokens[position].kind == Op {
        var op := Match(Op);
        var right := Expression();
        e := BinOp(op.value.text, left, right);
      } else {
        e := left;
      }
    }

    method Assignment() returns (r: ParseResult)
      requires Valid()
      modifies this
      ensures Valid()
      ensures r == ParseAssignment(tokens, old(position))
      ensures r.NoStatement? ==> position == old(position)
      ensures r.Parsed? ==> position == r.next
    {
      var identifier := Match(Identifier);
      if identifier.None? {
        return NoStatement;
      }
      var eq := Match(Assign);
      if eq.None? {
        return SyntaxError(Assign);
      }
      var expr := Expression();
      var end := Match(End);
      if end.None? {
        return SyntaxError(End);
      }
      r := Parsed(Stmt.Assignment(identifier.value.text, expr), position);
    }
  }
}
