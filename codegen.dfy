/**
 * Code generation of the mini compiler: a post-order walk of the tree that
 * emits stack-machine instructions. An operand leaf loads its text, an
 * operator emits its left code, its right code and then itself, the
 * assignment emits its value's code and then stores to its target, and an
 * absent node emits nothing.
 */
module CodeGen {
  import opened Options
  import opened Lexer
  import opened Parser

  datatype Instr = Load(operand: string) | Store(name: string) | Operator(symbol: string)

  /** The instructions for an expression tree. */
  function GenExpr(e: Expr): (code: seq<Instr>)
    ensures forall i :: 0 <= i < |code| ==> !code[i].Store?
  {
    match e
    case Absent => []
    case Leaf(k, t) => if k == Number || k == Identifier then [Load(t)] else []
    case BinOp(op, l, r) => GenExpr(l) + GenExpr(r) + [Operator(op)]
  }

  /** The instructions for the assignment: one store, to the target, and it comes last. */
  function Generate(s: Stmt): (code: seq<Instr>)
    ensures |code| > 0 && code[|code| - 1] == Store(s.target)
    ensures forall i :: 0 <= i < |code| - 1 ==> !code[i].Store?
  {
    GenExpr(s.value) + [Store(s.target)]
  }

  /** The text line the compiler writes for an instruction. */
  function Render(i: Instr): string
  {
    match i
    case Load(t) => "LOAD " + t
    case Store(x) => "STORE " + x
    case Operator(op) => op
  }

  /** Reads an instruction back from its text line. */
  function ReadLine(line: string): Instr
  {
    if |line| >= 5 && line[..5] == "LOAD " then Load(line[5..])
    else if |line| >= 6 && line[..6] == "STORE " then Store(line[6..])
    else Operator(line)
  }

  /** The lines are unambiguous: an instruction whose operator is a single character is read back from its line. */
  lemma ReadRender(i: Instr)
    requires i.Operator? ==> |i.symbol| == 1
    ensures ReadLine(Render(i)) == i
  {
    match i
    case Load(t) =>
      assert ("LOAD " + t)[..5] == "LOAD " && ("LOAD " + t)[5..] == t;
    case Store(x) =>
      assert ("STORE " + x)[..5] != "LOAD " by { assert ("STORE " + x)[0] == 'S'; }
      assert ("STORE " + x)[..6] == "STORE " && ("STORE " + x)[6..] == x;
    case Operator(op) =>
  }

  /** The lines written for a code sequence, one per instruction, in order. */
  function Listing(code: seq<Instr>): (lines: seq<string>)
    ensures |lines| == |code|
    ensures forall k :: 0 <= k < |code| ==> lines[k] == Render(code[k])
  {
    if |code| == 0 then [] else [Render(code[0])] + Listing(code[1..])
  }

  // ----- Counting -----

  /** Number of operand (number or identifier) leaves. */
  function OperandCount(e: Expr): nat
  {
    match e
    case Absent => 0
    case Leaf(k, _) => if k == Number || k == Identifier then 1 else 0
    case BinOp(_, l, r) => OperandCount(l) + OperandCount(r)
  }

  /** Number of operator nodes. */
  function OperatorCount(e: Expr): nat
  {
    match e
    case Absent => 0
    case Leaf(_, _) => 0
    case BinOp(_, l, r) => OperatorCount(l) + 1 + OperatorCount(r)
  }

  function CountLoads(code: seq<Instr>): nat
  {
    if |code| == 0 then 0 else (if code[0].Load? then 1 else 0) + CountLoads(code[1..])
  }

  function CountOperators(code: seq<Instr>): nat
  {
    if |code| == 0 then 0 else (if code[0].Operator? then 1 else 0) + CountOperators(code[1..])
  }

  lemma {:induction false} CountAppend(a: seq<Instr>, b: seq<Instr>)
    ensures CountLoads(a + b) == CountLoads(a) + CountLoads(b)
    ensures CountOperators(a + b) == CountOperators(a) + CountOperators(b)
  {
    if |a| == 0 {
      assert a + b == b;
    } else {
      assert (a + b)[1..] == a[1..] + b;
      CountAppend(a[1..], b);
    }
  }

  /** One load per operand leaf and one operator instruction per operator node, and nothing else. */
  lemma {:induction false} GenExprCounts(e: Expr)
    ensures CountLoads(GenExpr(e)) == OperandCount(e)
    ensures CountOperators(GenExpr(e)) == OperatorCount(e)
    ensures |GenExpr(e)| == OperandCount(e) + OperatorCount(e)
  {
    match e
    case Absent =>
    case Leaf(_, _) =>
    case BinOp(op, l, r) =>
      GenExprCounts(l);
      GenExprCounts(r);
      CountAppend(GenExpr(l), GenExpr(r));
      CountAppend(GenExpr(l) + GenExpr(r), [Operator(op)]);
  }

  // ----- The stack machine the instructions are meant for -----

  /** Symbolic values: an operand's text, or an operator applied to two values. */
  datatype Term = Val(text: string) | App(op: string, left: Term, right: Term)

  /** The evaluation stack and the bindings made so far by `Store`, in order. */
  datatype Machine = Machine(stack: seq<Term>, stores: seq<(string, Term)>)

  /**
   * Runs `code`: a load pushes its operand, an operator pops two values and
   * pushes their combination, a store pops a value and binds it to its name;
   * None when an instruction finds too few values on the stack.
   */
  function Exec(m: Machine, code: seq<Instr>): Option<Machine>
    decreases |code|
  {
    if |code| == 0 then Some(m)
    else
      var n := |m.stack|;
      match code[0]
      case Load(t) => Exec(Machine(m.stack + [Val(t)], m.stores), code[1..])
      case Operator(op) =>
        if n < 2 then None
        else Exec(Machine(m.stack[..n - 2] + [App(op, m.stack[n - 2], m.stack[n - 1])], m.stores), code[1..])
      case Store(x) =>
        if n < 1 then None
        else Exec(Machine(m.stack[..n - 1], m.stores + [(x, m.stack[n - 1])]), code[1..])
  }

  /** A tree with no absent node and only operand leaves. */
  predicate Complete(e: Expr)
  {
    match e
    case Absent => false
    case Leaf(k, _) => k == Number || k == Identifier
    case BinOp(_, l, r) => Complete(l) && Complete(r)
  }

  /** The value a complete tree denotes. */
  function Meaning(e: Expr): Term
    requires Complete(e)
  {
    match e
    case Leaf(_, t) => Val(t)
    case BinOp(op, l, r) => App(op, Meaning(l), Meaning(r))
  }

  /**
   * Post-order emission is right: running the code of a complete tree pushes
   * exactly the tree's value and leaves the rest of the stack alone.
   */
  lemma {:induction false} ExecGenExpr(e: Expr, m: Machine, rest: seq<Instr>)
    requires Complete(e)
    ensures Exec(m, GenExpr(e) + rest) == Exec(Machine(m.stack + [Meaning(e)], m.stores), rest)
  {
    match e
    case Leaf(_, t) =>
      assert (GenExpr(e) + rest)[1..] == rest;
    case BinOp(op, l, r) =>
      var L, R := Meaning(l), Meaning(r);
      var m1 := Machine(m.stack + [L], m.stores);
      var m2 := Machine(m1.stack + [R], m.stores);
      assert GenExpr(e) + rest == GenExpr(l) + (GenExpr(r) + ([Operator(op)] + rest));
      ExecGenExpr(l, m, GenExpr(r) + ([Operator(op)] + rest));
      ExecGenExpr(r, m1, [Operator(op)] + rest);
      var n := |m2.stack|;
      assert m2.stack[..n - 2] == m.stack && m2.stack[n - 2] == L && m2.stack[n - 1] == R;
      assert ([Operator(op)] + rest)[1..] == rest;
  }

  /**
   * The code of an assignment whose value is complete runs on an empty
   * stack without underflow, binds the target to the value and leaves the stack empty.
   */
  lemma ExecGenerate(s: Stmt)
    requires Complete(s.value)
    ensures Exec(Machine([], []), Generate(s)) == Some(Machine([], [(s.target, Meaning(s.value))]))
  {
    ExecGenExpr(s.value, Machine([], []), [Store(s.target)]);
    var v := Meaning(s.value);
    assert [] + [v] == [v];
    assert [v][..0] == [] && [] + [(s.target, v)] == [(s.target, v)];
    assert [Store(s.target)][1..] == [];
  }
}
