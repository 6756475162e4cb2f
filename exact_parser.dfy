/** The shunting-yard parser of the exact search strategy (`_parse`): tokens
    go through an operand stack of trees and an operator stack of strings,
    and one tree must be left at the end. */
module ExactParser {
  import opened Wrappers
  import opened PyText
  import opened ExactLexer

  /** `_Term`, `_Not`, `_And`, `_Or`. */
  datatype Node =
    | Term(value: string)
    | Not(child: Node)
    | And(left: Node, right: Node)
    | Or(left: Node, right: Node)

  /** The `ValueError`s `_parse` raises, the tokenizer's included. */
  datatype ParseError =
    | UnexpectedToken(position: nat)
    | EmptyExpression
    | NotMissingOperand
    | MissingOperands(op: string)
    | MismatchedParenthesis
    | InvalidExpression

  /** The errors the stack loops raise; the tokenizer's error and the empty
      expression are detected before them. */
  predicate StackError(e: ParseError) {
    e.NotMissingOperand? || e.MissingOperands? || e.MismatchedParenthesis?
  }

  /** `output` and `ops`; the top of each stack is its last element. */
  datatype Stacks = Stacks(output: seq<Node>, ops: seq<string>)

  /** `prec`: NOT 3, AND 2, OR 1, anything else 0. */
  function Prec(op: string): nat {
    if IsNot(op) then 3 else if IsAnd(op) then 2 else if IsOr(op) then 1 else 0
  }

  /** `apply_op`: NOT replaces the top tree by its negation, AND and OR
      replace the two top trees (left below right) by their combination. */
  function ApplyOp(output: seq<Node>, op: string): (r: Result<seq<Node>, ParseError>)
    ensures r.Failure? <==> |output| < (if IsNot(op) then 1 else 2)
    ensures r.Failure? ==> r.error == if IsNot(op) then NotMissingOperand else MissingOperands(op)
    ensures r.Success? ==> |r.value| == |output| - (if IsNot(op) then 0 else 1)
    ensures r.Success? ==> r.value[..|r.value| - 1] == output[..|r.value| - 1]
  {
    var n := |output|;
    if IsNot(op) then
      if n == 0 then Failure(NotMissingOperand)
      else Success(output[..n - 1] + [Not(output[n - 1])])
    else if n < 2 then Failure(MissingOperands(op))
    else
      var right := output[n - 1];
      var left := output[n - 2];
      Success(output[..n - 2] + [if IsAnd(op) then And(left, right) else Or(left, right)])
  }

  /** The `)` branch: apply operators down to the nearest `(` and drop it. */
  function CloseParen(st: Stacks): (r: Result<Stacks, ParseError>)
    ensures r.Failure? ==> StackError(r.error)
    decreases |st.ops|
  {
    var n := |st.ops|;
    if n == 0 then Failure(MismatchedParenthesis)
    else if IsOpen(st.ops[n - 1]) then Success(Stacks(st.output, st.ops[..n - 1]))
    else match ApplyOp(st.output, st.ops[n - 1])
      case Failure(e) => Failure(e)
      case Success(out) => CloseParen(Stacks(out, st.ops[..n - 1]))
  }

  /** The operator branch: apply stacked operators of the same or higher
      precedence, then push `t`. */
  function PushOperator(st: Stacks, t: string): (r: Result<Stacks, ParseError>)
    ensures r.Failure? ==> StackError(r.error)
    decreases |st.ops|
  {
    var n := |st.ops|;
    if n > 0 && IsOperator(st.ops[n - 1]) && Prec(st.ops[n - 1]) >= Prec(t) then
      match ApplyOp(st.output, st.ops[n - 1])
      case Failure(e) => Failure(e)
      case Success(out) => PushOperator(Stacks(out, st.ops[..n - 1]), t)
    else Success(Stacks(st.output, st.ops + [t]))
  }

  /** One turn of the token loop. */
  function Step(st: Stacks, t: string): (r: Result<Stacks, ParseError>)
    ensures r.Failure? ==> StackError(r.error)
  {
    if IsOpen(t) then Success(Stacks(st.output, st.ops + [t]))
    else if IsClose(t) then CloseParen(st)
    else if IsOperator(t) then PushOperator(st, t)
    else Success(Stacks(st.output + [Term(t)], st.ops))
  }

  /** The token loop over `ts`, stopping at the first error. */
  function Feed(st: Stacks, ts: seq<string>): (r: Result<Stacks, ParseError>)
    ensures r.Failure? ==> StackError(r.error)
    decreases |ts|
  {
    if ts == [] then Success(st)
    else match Step(st, ts[0])
      case Failure(e) => Failure(e)
      case Success(st') => Feed(st', ts[1..])
  }

  /** The final loop: pop and apply every operator; a parenthesis left on the stack is an error. */
  function Drain(st: Stacks): (r: Result<seq<Node>, ParseError>)
    ensures r.Failure? ==> StackError(r.error)
    decreases |st.ops|
  {
    var n := |st.ops|;
    if n == 0 then Success(st.output)
    else if IsOpen(st.ops[n - 1]) || IsClose(st.ops[n - 1]) then Failure(MismatchedParenthesis)
    else match ApplyOp(st.output, st.ops[n - 1])
      case Failure(e) => Failure(e)
      case Success(out) => Drain(Stacks(out, st.ops[..n - 1]))
  }

  /** Draining must leave exactly one tree. */
  function Finish(st: Stacks): Result<Node, ParseError> {
    match Drain(st)
    case Failure(e) => Failure(e)
    case Success(out) => if |out| != 1 then Failure(InvalidExpression) else Success(out[0])
  }

  /** `_parse` after tokenizing. */
  function ParseTokens(ts: seq<string>): (r: Result<Node, ParseError>)
    ensures r == Failure(EmptyExpression) <==> ts == []
    ensures r.Failure? && ts != [] ==> StackError(r.error) || r.error == InvalidExpression
  {
    if ts == [] then Failure(EmptyExpression)
    else match Feed(Stacks([], []), ts)
      case Failure(e) => Failure(e)
      case Success(st) => Finish(st)
  }

  /** `_parse`. */
  function Parse(s: string): (r: Result<Node, ParseError>)
    ensures r == Failure(EmptyExpression) <==> s == []
    ensures (r.Failure? && r.error.UnexpectedToken?) <==> Lex(s).Failure?
    ensures r.Failure? && r.error.UnexpectedToken? ==> r.error.position < |s|
  {
    match Lex(s)
    case Failure(p) => Failure(UnexpectedToken(p))
    case Success(ts) => ParseTokens(ts)
  }

  // ---------- the imperative parser ----------

  lemma FeedStep(st: Stacks, ts: seq<string>, i: nat)
    requires i < |ts|
    ensures Feed(st, ts[i..]) == match Step(st, ts[i])
      case Failure(e) => Failure(e)
      case Success(st') => Feed(st', ts[i + 1..])
  {
    assert ts[i..][1..] == ts[i + 1..];
  }

  /** `_parse`, loop for loop. */
  method ParseExpression(s: string) returns (r: Result<Node, ParseError>)
    ensures r == Parse(s)
  {
    var lexed := Tokenize(s);
    if lexed.Failure? {
      return Failure(UnexpectedToken(lexed.error));
    }
    var tokens := lexed.value;
    if |tokens| == 0 {
      return Failure(EmptyExpression);
    }
    var output: seq<Node> := [];
    var ops: seq<string> := [];
    var i := 0;
    while i < |tokens|
      invariant 0 <= i <= |tokens|
      invariant Feed(Stacks([], []), tokens) == Feed(Stacks(output, ops), tokens[i..])
      decreases |tokens| - i
    {
      var t := tokens[i];
      FeedStep(Stacks(output, ops), tokens, i);
      ghost var before := Stacks(output, ops);
      if IsOpen(t) {
        ops := ops + [t];
      } else if IsClose(t) {
        while |ops| > 0 && !IsOpen(ops[|ops| - 1])
          invariant CloseParen(before) == CloseParen(Stacks(output, ops))
          decreases |ops|
        {
          var op := ops[|ops| - 1];
          ops := ops[..|ops| - 1];
          var applied := ApplyOp(output, op);
          if applied.Failure? {
            return Failure(applied.error);
          }
          output := applied.value;
        }
        if |ops| == 0 {
          return Failure(MismatchedParenthesis);
        }
        ops := ops[..|ops| - 1];
      } else if IsOperator(t) {
        while |ops| > 0 && IsOperator(ops[|ops| - 1]) && Prec(ops[|ops| - 1]) >= Prec(t)
          invariant PushOperator(before, t) == PushOperator(Stacks(output, ops), t)
          decreases |ops|
        {
          var op := ops[|ops| - 1];
          ops := ops[..|ops| - 1];
          var applied := ApplyOp(output, op);
          if applied.Failure? {
            return Failure(applied.error);
          }
          output := applied.value;
        }
        ops := ops + [t];
      } else {
        output := output + [Term(t)];
      }
      i := i + 1;
    }
    ghost var fed := Stacks(output, ops);
    while |ops| > 0
      invariant Drain(fed) == Drain(Stacks(output, ops))
      decreases |ops|
    {
      var op := ops[|ops| - 1];
      ops := ops[..|ops| - 1];
      if IsOpen(op) || IsClose(op) {
        return Failure(MismatchedParenthesis);
      }
      var applied := ApplyOp(output, op);
      if applied.Failure? {
        return Failure(applied.error);
      }
      output := applied.value;
    }
    if |output| != 1 {
      return Failure(InvalidExpression);
    }
    return Success(output[0]);
  }

  // ---------- the operands keep their order ----------

  /** A token the loop pushes as a term: neither a parenthesis nor an operator. */
  predicate IsOperand(t: string) { !IsOpen(t) && !IsClose(t) && !IsOperator(t) }

  /** The term values of a tree, left to right. */
  function Leaves(n: Node): seq<string> {
    match n
    case Term(v) => [v]
    case Not(c) => Leaves(c)
    case And(l, r) => Leaves(l) + Leaves(r)
    case Or(l, r) => Leaves(l) + Leaves(r)
  }

  /** The term values of a stack of trees, bottom to top. */
  function LeavesOf(ns: seq<Node>): seq<string>
    decreases |ns|
  {
    if ns == [] then [] else LeavesOf(ns[..|ns| - 1]) + Leaves(ns[|ns| - 1])
  }

  /** The operand tokens of `ts`, in order. */
  function Terms(ts: seq<string>): seq<string> {
    if ts == [] then [] else (if IsOperand(ts[0]) then [ts[0]] else []) + Terms(ts[1..])
  }

  lemma LeavesOfPush(ns: seq<Node>, n: Node)
    ensures LeavesOf(ns + [n]) == LeavesOf(ns) + Leaves(n)
  {
    assert (ns + [n])[..|ns|] == ns;
  }

  /** Applying an operator regroups trees without changing the term sequence. */
  lemma ApplyOpLeaves(output: seq<Node>, op: string)
    requires ApplyOp(output, op).Success?
    ensures LeavesOf(ApplyOp(output, op).value) == LeavesOf(output)
  {
    var n := |output|;
    if IsNot(op) {
      LeavesOfPush(output[..n - 1], Not(output[n - 1]));
    } else {
      var pre := output[..n - 2];
      assert output[..n - 1][..n - 2] == pre;
      var combined := if IsAnd(op) then And(output[n - 2], output[n - 1]) else Or(output[n - 2], output[n - 1]);
      LeavesOfPush(pre, combined);
      assert LeavesOf(output[..n - 1]) == LeavesOf(pre) + Leaves(output[n - 2]);
    }
  }

  lemma {:induction false} CloseParenLeaves(st: Stacks)
    requires CloseParen(st).Success?
    ensures LeavesOf(CloseParen(st).value.output) == LeavesOf(st.output)
    decreases |st.ops|
  {
    var n := |st.ops|;
    if !IsOpen(st.ops[n - 1]) {
      ApplyOpLeaves(st.output, st.ops[n - 1]);
      CloseParenLeaves(Stacks(ApplyOp(st.output, st.ops[n - 1]).value, st.ops[..n - 1]));
    }
  }

  lemma {:induction false} PushOperatorLeaves(st: Stacks, t: string)
    requires PushOperator(st, t).Success?
    ensures LeavesOf(PushOperator(st, t).value.output) == LeavesOf(st.output)
    decreases |st.ops|
  {
    var n := |st.ops|;
    if n > 0 && IsOperator(st.ops[n - 1]) && Prec(st.ops[n - 1]) >= Prec(t) {
      ApplyOpLeaves(st.output, st.ops[n - 1]);
      PushOperatorLeaves(Stacks(ApplyOp(st.output, st.ops[n - 1]).value, st.ops[..n - 1]), t);
    }
  }

  lemma {:induction false} DrainLeaves(st: Stacks)
    requires Drain(st).Success?
    ensures LeavesOf(Drain(st).value) == LeavesOf(st.output)
    decreases |st.ops|
  {
    var n := |st.ops|;
    if n > 0 {
      ApplyOpLeaves(st.output, st.ops[n - 1]);
      DrainLeaves(Stacks(ApplyOp(st.output, st.ops[n - 1]).value, st.ops[..n - 1]));
    }
  }

  lemma StepLeaves(st: Stacks, t: string)
    requires Step(st, t).Success?
    ensures LeavesOf(Step(st, t).value.output) == LeavesOf(st.output) + (if IsOperand(t) then [t] else [])
  {
    if IsOpen(t) {
      assert LeavesOf(st.output) + [] == LeavesOf(st.output);
    } else if IsClose(t) {
      CloseParenLeaves(st);
      assert LeavesOf(st.output) + [] == LeavesOf(st.output);
    } else if IsOperator(t) {
      PushOperatorLeaves(st, t);
      assert LeavesOf(st.output) + [] == LeavesOf(st.output);
    } else {
      LeavesOfPush(st.output, Term(t));
    }
  }

  lemma {:induction false} FeedLeaves(st: Stacks, ts: seq<string>)
    requires Feed(st, ts).Success?
    ensures LeavesOf(Feed(st, ts).value.output) == LeavesOf(st.output) + Terms(ts)
    decreases |ts|
  {
    if ts == [] {
      assert LeavesOf(st.output) + [] == LeavesOf(st.output);
    } else {
      var st' := Step(st, ts[0]).value;
      assert Feed(st, ts) == Feed(st', ts[1..]);
      StepLeaves(st, ts[0]);
      FeedLeaves(st', ts[1..]);
      var here := if IsOperand(ts[0]) then [ts[0]] else [];
      var a, b := LeavesOf(st.output), Terms(ts[1..]);
      assert Terms(ts) == here + b;
      assert LeavesOf(st'.output) == a + here;
      assert a + here + b == a + (here + b);
    }
  }

  /** The parsed tree holds the operand tokens as its terms, in their input order. */
  lemma ParseTokensLeaves(ts: seq<string>)
    requires ParseTokens(ts).Success?
    ensures Leaves(ParseTokens(ts).value) == Terms(ts)
  {
    var st := Feed(Stacks([], []), ts).value;
    FeedLeaves(Stacks([], []), ts);
    DrainLeaves(st);
    var out := Drain(st).value;
    LeavesOfPush([], out[0]);
    assert [] + [out[0]] == out;
    assert [] + Terms(ts) == Terms(ts);
  }

  // ---------- a successful parse has balanced parentheses ----------

  /** How many `(` the operator stack holds. */
  function Opens(ops: seq<string>): nat
    decreases |ops|
  {
    if ops == [] then 0 else Opens(ops[..|ops| - 1]) + (if IsOpen(ops[|ops| - 1]) then 1 else 0)
  }

  /** What a token does to the nesting depth. */
  function Delta(t: string): int {
    if IsOpen(t) then 1 else if IsClose(t) then -1 else 0
  }

  /** Opened minus closed parentheses in `ts`. */
  function Depth(ts: seq<string>): int {
    if ts == [] then 0 else Delta(ts[0]) + Depth(ts[1..])
  }

  /** Starting at depth `d`, no prefix of `ts` closes more parentheses than are open. */
  predicate NeverBelow(d: int, ts: seq<string>)
    decreases |ts|
  {
    d >= 0 && (ts == [] || NeverBelow(d + Delta(ts[0]), ts[1..]))
  }

  predicate Balanced(ts: seq<string>) {
    NeverBelow(0, ts) && Depth(ts) == 0
  }

  lemma OpensPush(ops: seq<string>, t: string)
    ensures Opens(ops + [t]) == Opens(ops) + (if IsOpen(t) then 1 else 0)
  {
    assert (ops + [t])[..|ops|] == ops;
  }

  lemma {:induction false} CloseParenOpens(st: Stacks)
    requires CloseParen(st).Success?
    ensures Opens(st.ops) > 0 && Opens(CloseParen(st).value.ops) == Opens(st.ops) - 1
    decreases |st.ops|
  {
    var n := |st.ops|;
    if !IsOpen(st.ops[n - 1]) {
      CloseParenOpens(Stacks(ApplyOp(st.output, st.ops[n - 1]).value, st.ops[..n - 1]));
    }
  }

  lemma {:induction false} PushOperatorOpens(st: Stacks, t: string)
    requires PushOperator(st, t).Success? && !IsOpen(t)
    ensures Opens(PushOperator(st, t).value.ops) == Opens(st.ops)
    decreases |st.ops|
  {
    var n := |st.ops|;
    if n > 0 && IsOperator(st.ops[n - 1]) && Prec(st.ops[n - 1]) >= Prec(t) {
      assert !IsOpen(st.ops[n - 1]);
      PushOperatorOpens(Stacks(ApplyOp(st.output, st.ops[n - 1]).value, st.ops[..n - 1]), t);
    } else {
      OpensPush(st.ops, t);
    }
  }

  lemma StepOpens(st: Stacks, t: string)
    requires Step(st, t).Success?
    ensures Opens(Step(st, t).value.ops) == Opens(st.ops) + Delta(t)
  {
    if IsOpen(t) {
      OpensPush(st.ops, t);
    } else if IsClose(t) {
      CloseParenOpens(st);
    } else if IsOperator(t) {
      PushOperatorOpens(st, t);
    }
  }

  lemma {:induction false} FeedOpens(st: Stacks, ts: seq<string>)
    requires Feed(st, ts).Success?
    ensures NeverBelow(Opens(st.ops), ts)
    ensures Opens(Feed(st, ts).value.ops) == Opens(st.ops) + Depth(ts)
    decreases |ts|
  {
    if ts != [] {
      StepOpens(st, ts[0]);
      FeedOpens(Step(st, ts[0]).value, ts[1..]);
    }
  }

  lemma {:induction false} DrainOpens(st: Stacks)
    requires Drain(st).Success?
    ensures Opens(st.ops) == 0
    decreases |st.ops|
  {
    var n := |st.ops|;
    if n > 0 {
      DrainOpens(Stacks(ApplyOp(st.output, st.ops[n - 1]).value, st.ops[..n - 1]));
    }
  }

  /** Unbalanced parentheses, in either direction, never parse. */
  lemma ParseTokensBalanced(ts: seq<string>)
    requires ParseTokens(ts).Success?
    ensures Balanced(ts)
  {
    FeedOpens(Stacks([], []), ts);
    DrainOpens(Feed(Stacks([], []), ts).value);
  }

  // ---------- printing a tree and parsing it back ----------

  /** A token list for a tree, every compound fully parenthesized. */
  function Render(n: Node): seq<string> {
    match n
    case Term(v) => [v]
    case Not(c) => ["(", "NOT"] + Render(c) + [")"]
    case And(l, r) => ["("] + Render(l) + ["AND"] + Render(r) + [")"]
    case Or(l, r) => ["("] + Render(l) + ["OR"] + Render(r) + [")"]
  }

  /** Every term value would be read back as a term. */
  predicate OperandTerms(n: Node) {
    match n
    case Term(v) => IsOperand(v)
    case Not(c) => OperandTerms(c)
    case And(l, r) => OperandTerms(l) && OperandTerms(r)
    case Or(l, r) => OperandTerms(l) && OperandTerms(r)
  }

  lemma {:induction false} FeedAppend(st: Stacks, a: seq<string>, b: seq<string>)
    ensures Feed(st, a + b) == match Feed(st, a)
      case Failure(e) => Failure(e)
      case Success(st') => Feed(st', b)
    decreases |a|
  {
    if a == [] {
      assert [] + b == b;
    } else {
      assert (a + b)[0] == a[0] && (a + b)[1..] == a[1..] + b;
      if Step(st, a[0]).Success? {
        FeedAppend(Step(st, a[0]).value, a[1..], b);
      }
    }
  }

  lemma FeedOne(st: Stacks, t: string)
    ensures Feed(st, [t]) == Step(st, t)
  {
    assert [t][1..] == [];
  }

  /** `(` and then an operator, pushed onto any stack. */
  lemma FeedOpenOperator(st: Stacks, op: string)
    requires IsOperator(op)
    ensures Feed(st, ["(", op]) == Success(Stacks(st.output, st.ops + ["(", op]))
  {
    var s1 := Stacks(st.output, st.ops + ["("]);
    FeedOne(st, "(");
    FeedOne(s1, op);
    FeedAppend(st, ["("], [op]);
    assert ["(", op] == ["("] + [op];
    assert st.ops + ["("] + [op] == st.ops + ["(", op];
  }

  /** The closing `)` of a rendered compound: apply its operator, drop its `(`. */
  lemma FeedCloseOperator(out: seq<Node>, ops: seq<string>, op: string)
    requires IsOperator(op) && ApplyOp(out, op).Success?
    ensures Feed(Stacks(out, ops + ["(", op]), [")"]) == Success(Stacks(ApplyOp(out, op).value, ops))
  {
    var st := Stacks(out, ops + ["(", op]);
    FeedOne(st, ")");
    var n := |st.ops|;
    assert st.ops[n - 1] == op && !IsOpen(op);
    assert st.ops[..n - 1] == ops + ["("];
    var st' := Stacks(ApplyOp(out, op).value, ops + ["("]);
    assert CloseParen(st) == CloseParen(st');
    assert (ops + ["("])[..|ops|] == ops;
  }

  /** The tokens of a tree leave exactly that tree on top of any stacks. */
  lemma {:induction false} FeedRender(n: Node, st: Stacks)
    requires OperandTerms(n)
    ensures Feed(st, Render(n)) == Success(Stacks(st.output + [n], st.ops))
    decreases n, 1
  {
    match n
    case Term(v) =>
      FeedOne(st, v);
    case Not(c) =>
      var s1 := Stacks(st.output, st.ops + ["(", "NOT"]);
      FeedOpenOperator(st, "NOT");
      FeedRender(c, s1);
      FeedAppend(st, ["(", "NOT"], Render(c));
      FeedCloseOperator(st.output + [c], st.ops, "NOT");
      FeedAppend(st, ["(", "NOT"] + Render(c), [")"]);
      assert (st.output + [c])[..|st.output|] == st.output;
    case And(_, _) =>
      FeedBinary(n, st);
    case Or(_, _) =>
      FeedBinary(n, st);
  }

  lemma {:induction false} FeedBinary(n: Node, st: Stacks)
    requires (n.And? || n.Or?) && OperandTerms(n)
    ensures Feed(st, Render(n)) == Success(Stacks(st.output + [n], st.ops))
    decreases n, 0
  {
    var l, r := n.left, n.right;
    var op := if n.And? then "AND" else "OR";
    assert Render(n) == ["("] + Render(l) + [op] + Render(r) + [")"];
    var s1 := Stacks(st.output, st.ops + ["("]);
    FeedOne(st, "(");
    FeedRender(l, s1);
    FeedAppend(st, ["("], Render(l));
    var s2 := Stacks(st.output + [l], st.ops + ["("]);
    FeedOne(s2, op);
    assert st.ops + ["("] + [op] == st.ops + ["(", op];
    FeedAppend(st, ["("] + Render(l), [op]);
    var s3 := Stacks(st.output + [l], st.ops + ["(", op]);
    FeedRender(r, s3);
    FeedAppend(st, ["("] + Render(l) + [op], Render(r));
    var out := st.output + [l] + [r];
    assert out[..|out| - 2] == st.output && out[|out| - 2] == l && out[|out| - 1] == r;
    FeedCloseOperator(out, st.ops, op);
    assert ApplyOp(out, op).value == st.output + [n];
    FeedAppend(st, ["("] + Render(l) + [op] + Render(r), [")"]);
  }

  /** Parsing the rendering of a tree gives the tree back. */
  lemma ParseTokensRender(n: Node)
    requires OperandTerms(n)
    ensures ParseTokens(Render(n)) == Success(n)
  {
    FeedRender(n, Stacks([], []));
    assert [] + [n] == [n];
    assert |Render(n)| > 0;
  }

  // ---------- precedence and errors, for any operand tokens ----------

  /** One token of a run: its step succeeds with `st'`. */
  lemma FeedCons(st: Stacks, ts: seq<string>, st': Stacks)
    requires ts != [] && Step(st, ts[0]) == Success(st')
    ensures Feed(st, ts) == Feed(st', ts[1..])
  {
  }

  /** An operand token is pushed onto the output stack. */
  lemma StepOperand(out: seq<Node>, ops: seq<string>, t: string)
    requires IsOperand(t)
    ensures Step(Stacks(out, ops), t) == Success(Stacks(out + [Term(t)], ops))
  {
  }

  /** An operator on an empty operator stack, or above a weaker operator or a parenthesis, is pushed. */
  lemma StepPush(out: seq<Node>, ops: seq<string>, t: string)
    requires IsOperator(t)
    requires ops == [] || !IsOperator(ops[|ops| - 1]) || Prec(ops[|ops| - 1]) < Prec(t)
    ensures Step(Stacks(out, ops), t) == Success(Stacks(out, ops + [t]))
  {
  }

  /** An operator above one stronger-or-equal operator: that one is applied first. */
  lemma StepReduceThenPush(out: seq<Node>, o: string, t: string)
    requires IsOperator(o) && IsOperator(t) && Prec(o) >= Prec(t) && ApplyOp(out, o).Success?
    ensures Step(Stacks(out, [o]), t) == Success(Stacks(ApplyOp(out, o).value, [t]))
  {
    assert [o][..0] == [];
    assert PushOperator(Stacks(out, [o]), t) == PushOperator(Stacks(ApplyOp(out, o).value, []), t);
    assert [] + [t] == [t];
  }

  /** Draining a single operator applies it. */
  lemma DrainOne(out: seq<Node>, o: string)
    requires IsOperator(o)
    ensures Drain(Stacks(out, [o])) == ApplyOp(out, o)
  {
    assert [o][..0] == [];
    if ApplyOp(out, o).Success? {
      assert Drain(Stacks(out, [o])) == Drain(Stacks(ApplyOp(out, o).value, []));
    }
  }

  /** Draining two operators applies the upper one first. */
  lemma DrainTwo(out: seq<Node>, o: string, p: string)
    requires IsOperator(p) && ApplyOp(out, p).Success?
    ensures Drain(Stacks(out, [o, p])) == Drain(Stacks(ApplyOp(out, p).value, [o]))
  {
    assert [o, p][..1] == [o];
  }

  lemma Pair<T>(x: T, y: T)
    ensures [x] + [y] == [x, y] && [] + [x] == [x]
  {
  }

  lemma Triple<T>(x: T, y: T, z: T)
    ensures [x, y] + [z] == [x, y, z]
  {
  }

  /** `NOT a AND b` is `(NOT a) AND b`. */
  lemma NotBindsTighterThanAnd(a: string, b: string)
    requires IsOperand(a) && IsOperand(b)
    ensures ParseTokens(["NOT", a, "AND", b]) == Success(And(Not(Term(a)), Term(b)))
  {
    var ts := ["NOT", a, "AND", b];
    var na := Not(Term(a));
    Pair<string>("NOT", "AND");
    Pair(Term(a), Term(b));
    Pair(na, Term(b));
    StepPush([], [], "NOT");
    FeedCons(Stacks([], []), ts, Stacks([], ["NOT"]));
    StepOperand([], ["NOT"], a);
    FeedCons(Stacks([], ["NOT"]), ts[1..], Stacks([Term(a)], ["NOT"]));
    assert ApplyOp([Term(a)], "NOT").value == [na];
    StepReduceThenPush([Term(a)], "NOT", "AND");
    FeedCons(Stacks([Term(a)], ["NOT"]), ts[2..], Stacks([na], ["AND"]));
    assert ts[2..][1..] == [b];
    StepOperand([na], ["AND"], b);
    FeedCons(Stacks([na], ["AND"]), [b], Stacks([na, Term(b)], ["AND"]));
    assert Feed(Stacks([na, Term(b)], ["AND"]), [b][1..]) == Success(Stacks([na, Term(b)], ["AND"]));
    DrainOne([na, Term(b)], "AND");
    assert ApplyOp([na, Term(b)], "AND").value == [And(na, Term(b))];
  }

  /** `a OR b AND c` is `a OR (b AND c)`. */
  lemma AndBindsTighterThanOr(a: string, b: string, c: string)
    requires IsOperand(a) && IsOperand(b) && IsOperand(c)
    ensures ParseTokens([a, "OR", b, "AND", c]) == Success(Or(Term(a), And(Term(b), Term(c))))
  {
    var ts := [a, "OR", b, "AND", c];
    var bc := And(Term(b), Term(c));
    Pair(Term(a), Term(b));
    Pair<string>("OR", "AND");
    Triple(Term(a), Term(b), Term(c));
    StepOperand([], [], a);
    FeedCons(Stacks([], []), ts, Stacks([Term(a)], []));
    StepPush([Term(a)], [], "OR");
    FeedCons(Stacks([Term(a)], []), ts[1..], Stacks([Term(a)], ["OR"]));
    StepOperand([Term(a)], ["OR"], b);
    FeedCons(Stacks([Term(a)], ["OR"]), ts[2..], Stacks([Term(a), Term(b)], ["OR"]));
    StepPush([Term(a), Term(b)], ["OR"], "AND");
    FeedCons(Stacks([Term(a), Term(b)], ["OR"]), ts[3..], Stacks([Term(a), Term(b)], ["OR", "AND"]));
    assert ts[3..][1..] == [c];
    var out := [Term(a), Term(b), Term(c)];
    StepOperand([Term(a), Term(b)], ["OR", "AND"], c);
    FeedCons(Stacks([Term(a), Term(b)], ["OR", "AND"]), [c], Stacks(out, ["OR", "AND"]));
    assert Feed(Stacks(out, ["OR", "AND"]), [c][1..]) == Success(Stacks(out, ["OR", "AND"]));
    assert ApplyOp(out, "AND").value == [Term(a), bc];
    DrainTwo(out, "OR", "AND");
    DrainOne([Term(a), bc], "OR");
    assert ApplyOp([Term(a), bc], "OR").value == [Or(Term(a), bc)];
  }

  /** Operators of equal precedence group to the left: `a OR b OR c` is `(a OR b) OR c`. */
  lemma OrGroupsLeft(a: string, b: string, c: string)
    requires IsOperand(a) && IsOperand(b) && IsOperand(c)
    ensures ParseTokens([a, "OR", b, "OR", c]) == Success(Or(Or(Term(a), Term(b)), Term(c)))
  {
    var ts := [a, "OR", b, "OR", c];
    var ab := Or(Term(a), Term(b));
    Pair(Term(a), Term(b));
    Pair(ab, Term(c));
    Pair<string>("OR", "OR");
    StepOperand([], [], a);
    FeedCons(Stacks([], []), ts, Stacks([Term(a)], []));
    StepPush([Term(a)], [], "OR");
    FeedCons(Stacks([Term(a)], []), ts[1..], Stacks([Term(a)], ["OR"]));
    StepOperand([Term(a)], ["OR"], b);
    FeedCons(Stacks([Term(a)], ["OR"]), ts[2..], Stacks([Term(a), Term(b)], ["OR"]));
    assert ApplyOp([Term(a), Term(b)], "OR").value == [ab];
    StepReduceThenPush([Term(a), Term(b)], "OR", "OR");
    FeedCons(Stacks([Term(a), Term(b)], ["OR"]), ts[3..], Stacks([ab], ["OR"]));
    assert ts[3..][1..] == [c];
    StepOperand([ab], ["OR"], c);
    FeedCons(Stacks([ab], ["OR"]), [c], Stacks([ab, Term(c)], ["OR"]));
    assert Feed(Stacks([ab, Term(c)], ["OR"]), [c][1..]) == Success(Stacks([ab, Term(c)], ["OR"]));
    DrainOne([ab, Term(c)], "OR");
    assert ApplyOp([ab, Term(c)], "OR").value == [Or(ab, Term(c))];
  }

  /** `NOT NOT a` fails: the second NOT pops the first before it has an operand. */
  lemma DoubleNotFails(a: string)
    ensures ParseTokens(["NOT", "NOT", a]) == Failure(NotMissingOperand)
  {
    var ts := ["NOT", "NOT", a];
    Pair<string>("NOT", "NOT");
    StepPush([], [], "NOT");
    FeedCons(Stacks([], []), ts, Stacks([], ["NOT"]));
    assert ts[1..][0] == "NOT";
  }

  /** Two operands with no operator between them leave two trees. */
  lemma JuxtaposedFails(a: string, b: string)
    requires IsOperand(a) && IsOperand(b)
    ensures ParseTokens([a, b]) == Failure(InvalidExpression)
  {
    Pair(Term(a), Term(b));
    StepOperand([], [], a);
    FeedCons(Stacks([], []), [a, b], Stacks([Term(a)], []));
    assert [a, b][1..] == [b];
    StepOperand([Term(a)], [], b);
    FeedCons(Stacks([Term(a)], []), [b], Stacks([Term(a), Term(b)], []));
    assert Feed(Stacks([Term(a), Term(b)], []), [b][1..]) == Success(Stacks([Term(a), Term(b)], []));
  }

  /** A binary operator with nothing on its left. */
  lemma MissingLeftOperand(a: string)
    requires IsOperand(a)
    ensures ParseTokens(["AND", a]) == Failure(MissingOperands("AND"))
  {
    Pair<string>("AND", "AND");
    Pair(Term(a), Term(a));
    StepPush([], [], "AND");
    FeedCons(Stacks([], []), ["AND", a], Stacks([], ["AND"]));
    assert ["AND", a][1..] == [a];
    StepOperand([], ["AND"], a);
    FeedCons(Stacks([], ["AND"]), [a], Stacks([Term(a)], ["AND"]));
    assert Feed(Stacks([Term(a)], ["AND"]), [a][1..]) == Success(Stacks([Term(a)], ["AND"]));
    DrainOne([Term(a)], "AND");
  }

  /** A `(` that is never closed. */
  lemma UnclosedParenthesis(a: string, b: string)
    requires IsOperand(a) && IsOperand(b)
    ensures ParseTokens(["(", a, "OR", b]) == Failure(MismatchedParenthesis)
  {
    var ts := ["(", a, "OR", b];
    Pair<string>("(", "OR");
    Pair(Term(a), Term(b));
    FeedCons(Stacks([], []), ts, Stacks([], ["("]));
    StepOperand([], ["("], a);
    FeedCons(Stacks([], ["("]), ts[1..], Stacks([Term(a)], ["("]));
    StepPush([Term(a)], ["("], "OR");
    FeedCons(Stacks([Term(a)], ["("]), ts[2..], Stacks([Term(a)], ["(", "OR"]));
    assert ts[2..][1..] == [b];
    StepOperand([Term(a)], ["(", "OR"], b);
    FeedCons(Stacks([Term(a)], ["(", "OR"]), [b], Stacks([Term(a), Term(b)], ["(", "OR"]));
    assert Feed(Stacks([Term(a), Term(b)], ["(", "OR"]), [b][1..]) == Success(Stacks([Term(a), Term(b)], ["(", "OR"]));
    DrainTwo([Term(a), Term(b)], "(", "OR");
  }

  /** A `)` with nothing open. */
  lemma UnopenedParenthesis(a: string)
    requires IsOperand(a)
    ensures ParseTokens([a, ")"]) == Failure(MismatchedParenthesis)
  {
    Pair(Term(a), Term(a));
    StepOperand([], [], a);
    FeedCons(Stacks([], []), [a, ")"], Stacks([Term(a)], []));
    assert [a, ")"][1..] == [")"];
  }

  /** `a OR ) b`: the `)` applies OR while it has only one operand. */
  lemma CloseBeforeOperand(a: string, b: string)
    requires IsOperand(a) && IsOperand(b)
    ensures ParseTokens([a, "OR", ")", b]) == Failure(MissingOperands("OR"))
  {
    var ts := [a, "OR", ")", b];
    Pair(Term(a), Term(b));
    Pair<string>("OR", "OR");
    StepOperand([], [], a);
    FeedCons(Stacks([], []), ts, Stacks([Term(a)], []));
    StepPush([Term(a)], [], "OR");
    FeedCons(Stacks([Term(a)], []), ts[1..], Stacks([Term(a)], ["OR"]));
    assert ts[1..][1..] == [")", b];
  }

  /** `a AND b`. */
  lemma AndOfOperands(a: string, b: string)
    requires IsOperand(a) && IsOperand(b)
    ensures ParseTokens([a, "AND", b]) == Success(And(Term(a), Term(b)))
  {
    var ts := [a, "AND", b];
    Pair(Term(a), Term(b));
    Pair<string>("AND", "AND");
    StepOperand([], [], a);
    FeedCons(Stacks([], []), ts, Stacks([Term(a)], []));
    StepPush([Term(a)], [], "AND");
    FeedCons(Stacks([Term(a)], []), ts[1..], Stacks([Term(a)], ["AND"]));
    assert ts[1..][1..] == [b];
    StepOperand([Term(a)], ["AND"], b);
    FeedCons(Stacks([Term(a)], ["AND"]), [b], Stacks([Term(a), Term(b)], ["AND"]));
    assert Feed(Stacks([Term(a), Term(b)], ["AND"]), [b][1..]) == Success(Stacks([Term(a), Term(b)], ["AND"]));
    DrainOne([Term(a), Term(b)], "AND");
    assert ApplyOp([Term(a), Term(b)], "AND").value == [And(Term(a), Term(b))];
  }

  /** `x AND NOT c`: the NOT is pushed above the AND and applied first. */
  lemma AndNotAfter(x: Node, c: string)
    requires OperandTerms(x) && IsOperand(c)
    ensures ParseTokens(Render(x) + ["AND", "NOT", c]) == Success(And(x, Not(Term(c))))
  {
    var tail := ["AND", "NOT", c];
    var s0 := Stacks([], []);
    FeedRender(x, s0);
    Pair(x, Term(c));
    Pair(x, Not(Term(c)));
    FeedAppend(s0, Render(x), tail);
    var s1 := Stacks([x], ["AND"]);
    Pair<string>("AND", "NOT");
    StepPush([x], [], "AND");
    FeedCons(Stacks([x], []), tail, s1);
    StepPush([x], ["AND"], "NOT");
    FeedCons(s1, tail[1..], Stacks([x], ["AND", "NOT"]));
    assert tail[1..][1..] == [c];
    StepOperand([x], ["AND", "NOT"], c);
    FeedCons(Stacks([x], ["AND", "NOT"]), [c], Stacks([x, Term(c)], ["AND", "NOT"]));
    assert Feed(Stacks([x, Term(c)], ["AND", "NOT"]), [c][1..]) == Success(Stacks([x, Term(c)], ["AND", "NOT"]));
    assert ApplyOp([x, Term(c)], "NOT").value == [x, Not(Term(c))];
    DrainTwo([x, Term(c)], "AND", "NOT");
    DrainOne([x, Not(Term(c))], "AND");
    assert ApplyOp([x, Not(Term(c))], "AND").value == [And(x, Not(Term(c)))];
  }

  // ---------- from text ----------

  /** A tokenized non-empty text has at least one token. */
  lemma LexNonEmpty(s: string)
    requires s != [] && Lex(s).Success?
    ensures Lex(s).value != []
  {
  }

  /** The stack loops and the final check never report the empty expression or a tokenizer error. */
  lemma ParseTokensError(ts: seq<string>)
    requires ts != [] && ParseTokens(ts).Failure?
    ensures StackError(ParseTokens(ts).error) || ParseTokens(ts).error == InvalidExpression
  {
  }

  /** `Empty expression` is raised exactly for the empty string; a string of
      blanks fails in the tokenizer instead. */
  lemma ParseEmptyExpression(s: string)
    ensures Parse(s) == Failure(EmptyExpression) <==> s == []
  {
    if s != [] && Lex(s).Success? {
      LexNonEmpty(s);
      if ParseTokens(Lex(s).value).Failure? {
        ParseTokensError(Lex(s).value);
      }
    }
  }

  /** `Unexpected token` is raised exactly when the text ends in whitespace,
      and it names the position where that whitespace begins. */
  lemma ParseUnexpectedToken(s: string)
    ensures (Parse(s).Failure? && Parse(s).error.UnexpectedToken?) <==> |s| > 0 && IsSpace(s[|s| - 1])
    ensures Parse(s).Failure? && Parse(s).error.UnexpectedToken? ==>
      TrailingSpaceAt(s, Parse(s).error.position)
  {
    LexFailure(s);
    if Lex(s).Success? && Lex(s).value != [] && ParseTokens(Lex(s).value).Failure? {
      ParseTokensError(Lex(s).value);
    }
  }

  /** Every term is a plain word: letters, digits and `_`, and no keyword. */
  predicate PlainTerms(n: Node) {
    match n
    case Term(v) => PlainWord(v)
    case Not(c) => PlainTerms(c)
    case And(l, r) => PlainTerms(l) && PlainTerms(r)
    case Or(l, r) => PlainTerms(l) && PlainTerms(r)
  }

  /** A plain word is read as an operand. */
  lemma PlainWordOperand(w: string)
    requires PlainWord(w)
    ensures IsOperand(w)
  {
    assert IsOperator(w) ==> Upper(w) == w;
  }

  lemma {:induction false} PlainTermsOperands(n: Node)
    requires PlainTerms(n)
    ensures OperandTerms(n)
  {
    match n
    case Term(v) => PlainWordOperand(v);
    case Not(c) => PlainTermsOperands(c);
    case And(l, r) => PlainTermsOperands(l); PlainTermsOperands(r);
    case Or(l, r) => PlainTermsOperands(l); PlainTermsOperands(r);
  }

  predicate AllPrintable(ts: seq<string>) {
    forall i :: 0 <= i < |ts| ==> Printable(ts[i])
  }

  lemma AllPrintableAppend(a: seq<string>, b: seq<string>)
    requires AllPrintable(a) && AllPrintable(b)
    ensures AllPrintable(a + b)
  {
    assert forall i :: |a| <= i < |a + b| ==> (a + b)[i] == b[i - |a|];
  }

  /** Every token of a rendering is one the tokenizer reads back. */
  lemma {:induction false} RenderPrintable(n: Node)
    requires PlainTerms(n)
    ensures AllPrintable(Render(n))
  {
    assert Printable("(") && Printable(")") && Printable("NOT") && Printable("AND") && Printable("OR");
    match n
    case Term(v) =>
    case Not(c) =>
      RenderPrintable(c);
      AllPrintableAppend(["(", "NOT"], Render(c));
      AllPrintableAppend(["(", "NOT"] + Render(c), [")"]);
    case And(l, r) =>
      RenderPrintable(l);
      RenderPrintable(r);
      AllPrintableAppend(["("], Render(l));
      AllPrintableAppend(["("] + Render(l), ["AND"]);
      AllPrintableAppend(["("] + Render(l) + ["AND"], Render(r));
      AllPrintableAppend(["("] + Render(l) + ["AND"] + Render(r), [")"]);
    case Or(l, r) =>
      RenderPrintable(l);
      RenderPrintable(r);
      AllPrintableAppend(["("], Render(l));
      AllPrintableAppend(["("] + Render(l), ["OR"]);
      AllPrintableAppend(["("] + Render(l) + ["OR"], Render(r));
      AllPrintableAppend(["("] + Render(l) + ["OR"] + Render(r), [")"]);
  }

  /** Writing a tree out fully parenthesized, tokens separated by single
      spaces, and parsing the text gives the tree back. */
  lemma ParseRendered(n: Node)
    requires PlainTerms(n)
    ensures Parse(Join(Render(n), ' ')) == Success(n)
  {
    RenderPrintable(n);
    PlainTermsOperands(n);
    assert |Render(n)| > 0;
    LexJoined(Render(n));
    ParseTokensRender(n);
  }
}
