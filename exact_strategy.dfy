/** The exact search strategy: a boolean expression is parsed and compiled
    into an Elasticsearch `bool` query over the title (boosted) and the
    content, and sent to the client with a content highlight. */
module ExactStrategy {
  import opened Wrappers
  import opened PyText
  import opened JsonValue
  import opened ExactLexer
  import opened ExactParser

  /** `FIELDS`: the title counts twice. */
  const Fields: seq<string> := ["title^2", "content"]

  /** `_to_es`. */
  function ToEs(n: Node): (j: Json)
    ensures j.Obj? && |j.members| == 1
    ensures j.members[0].0 == if n.Term? then "multi_match" else "bool"
  {
    match n
    case Term(v) => Obj([("multi_match", Obj([("query", Str(v)), ("fields", StrList(Fields))]))])
    case Not(c) => Obj([("bool", Obj([("must_not", Arr([ToEs(c)]))]))])
    case And(l, r) => Obj([("bool", Obj([("must", Arr([ToEs(l), ToEs(r)]))]))])
    case Or(l, r) =>
      Obj([("bool", Obj([("should", Arr([ToEs(l), ToEs(r)])), ("minimum_should_match", Int(1))]))])
  }

  /** Reads a query of the four shapes `_to_es` produces back into a tree. */
  function FromEs(j: Json): (r: Option<Node>)
    ensures r.Some? ==> j.Obj? && |j.members| == 1
  {
    if !j.Obj? || |j.members| != 1 then None
    else
      var key := j.members[0].0;
      var v := j.members[0].1;
      if !v.Obj? || |v.members| == 0 then None
      else if key == "multi_match" then
        if |v.members| == 2 && v.members[0].0 == "query" && v.members[0].1.Str?
           && v.members[1] == ("fields", StrList(Fields))
        then Some(Term(v.members[0].1.str))
        else None
      else if key != "bool" then None
      else
        var clause := v.members[0].0;
        var arg := v.members[0].1;
        if !arg.Arr? then None
        else if clause == "must_not" && |v.members| == 1 && |arg.items| == 1 then
          match FromEs(arg.items[0])
          case None => None
          case Some(c) => Some(Not(c))
        else if clause == "must" && |v.members| == 1 && |arg.items| == 2 then
          match (FromEs(arg.items[0]), FromEs(arg.items[1]))
          case (Some(l), Some(r)) => Some(And(l, r))
          case _ => None
        else if clause == "should" && |v.members| == 2 && v.members[1] == ("minimum_should_match", Int(1))
                && |arg.items| == 2 then
          match (FromEs(arg.items[0]), FromEs(arg.items[1]))
          case (Some(l), Some(r)) => Some(Or(l, r))
          case _ => None
        else None
  }

  lemma FromEsNot(c: Node)
    requires FromEs(ToEs(c)) == Some(c)
    ensures FromEs(ToEs(Not(c))) == Some(Not(c))
  {
  }

  lemma FromEsAnd(l: Node, r: Node)
    requires FromEs(ToEs(l)) == Some(l) && FromEs(ToEs(r)) == Some(r)
    ensures FromEs(ToEs(And(l, r))) == Some(And(l, r))
  {
  }

  lemma FromEsOr(l: Node, r: Node)
    requires FromEs(ToEs(l)) == Some(l) && FromEs(ToEs(r)) == Some(r)
    ensures FromEs(ToEs(Or(l, r))) == Some(Or(l, r))
  {
  }

  /** The compiled query determines the tree. */
  lemma {:induction false} FromToEs(n: Node)
    ensures FromEs(ToEs(n)) == Some(n)
  {
    match n
    case Term(v) =>
    case Not(c) => FromToEs(c); FromEsNot(c);
    case And(l, r) => FromToEs(l); FromToEs(r); FromEsAnd(l, r);
    case Or(l, r) => FromToEs(l); FromToEs(r); FromEsOr(l, r);
  }

  /** Different trees compile to different queries. */
  lemma ToEsInjective(a: Node, b: Node)
    ensures ToEs(a) == ToEs(b) <==> a == b
  {
    FromToEs(a);
    FromToEs(b);
  }

  /** Every term is searched for in both fields, the title boosted. */
  lemma TermQuery(v: string)
    ensures Get(ToEs(Term(v)), "multi_match") == Some(Obj([("query", Str(v)), ("fields", Arr([Str("title^2"), Str("content")]))]))
  {
    assert StrList(Fields).items == [Str("title^2"), Str("content")];
  }

  /** `build_query`, as a value: the parse error, or the compiled tree. */
  function Query(expression: string): (r: Result<Json, ParseError>)
    ensures r.Success? <==> Parse(expression).Success?
    ensures r.Success? ==> FromEs(r.value) == Some(Parse(expression).value)
    ensures r.Failure? ==> r.error == Parse(expression).error
  {
    match Parse(expression)
    case Failure(e) => Failure(e)
    case Success(root) => FromToEs(root); Success(ToEs(root))
  }

  /** `build_query`: the loop parser, then the compiler. */
  method BuildQuery(expression: string) returns (r: Result<Json, ParseError>)
    ensures r == Query(expression)
  {
    var root := ParseExpression(expression);
    if root.Failure? {
      return Failure(root.error);
    }
    return Success(ToEs(root.value));
  }

  /** The keyword arguments `search` passes to the client besides the index. */
  function SearchBody(size: int, query: Json): (b: Json)
    ensures Get(b, "size") == Some(Int(size))
    ensures Get(b, "query") == Some(query)
    ensures Get(b, "highlight") == Some(ContentHighlight)
  {
    var ms := [("size", Int(size)), ("query", query), ("highlight", ContentHighlight)];
    assert ms[1..] == [("query", query), ("highlight", ContentHighlight)];
    assert ms[1..][1..] == [("highlight", ContentHighlight)];
    assert Lookup(ms[1..], "query") == Some(query);
    assert Lookup(ms[1..][1..], "highlight") == Some(ContentHighlight);
    assert Lookup(ms[1..], "highlight") == Some(ContentHighlight);
    Obj(ms)
  }

  /** What `search` returns: the client's answer to the index and body, or the
      parse error raised before the client is called. */
  function SearchOutcome<R>(client: (string, Json) -> R, index: string, expression: string, size: int): (r: Result<R, ParseError>)
    ensures r.Failure? <==> Parse(expression).Failure?
    ensures r.Failure? ==> r.error == Parse(expression).error
    ensures r.Success? ==> r.value == client(index, SearchBody(size, ToEs(Parse(expression).value)))
  {
    match Query(expression)
    case Failure(e) => Failure(e)
    case Success(q) => Success(client(index, SearchBody(size, q)))
  }

  /** `search`. */
  method Search<R>(client: (string, Json) -> R, index: string, expression: string, size: int)
    returns (r: Result<R, ParseError>)
    ensures r == SearchOutcome(client, index, expression, size)
    ensures r.Failure? <==> Parse(expression).Failure?
    ensures r.Success? ==> r.value == client(index, SearchBody(size, ToEs(Parse(expression).value)))
  {
    var q := BuildQuery(expression);
    if q.Failure? {
      return Failure(q.error);
    }
    return Success(client(index, SearchBody(size, q.value)));
  }

  // ---------- the strategy's examples ----------

  lemma Reassociate(a: string, b: string, c: string, d: string, e: string, f: string, g: string, h: string)
    ensures a + b + c + d + e + f + g + h == a + (b + (c + (d + (e + (f + (g + (h + "")))))))
  {
    assert h + "" == h;
  }

  /** The example text, taken apart into its lexemes. */
  lemma BasicExpressionPieces()
    ensures "(apple OR \"banana bread\") AND NOT cherry"
         == "(" + ("apple" + ([' '] + "OR" + ([' ', '"'] + "banana bread" + ['"']
              + (")" + ([' '] + "AND" + ([' '] + "NOT" + ([' '] + "cherry" + "")))))))
  {
    var c, d, f, g, h := [' '] + "OR", [' ', '"'] + "banana bread" + ['"'], [' '] + "AND", [' '] + "NOT", [' '] + "cherry";
    assert "(apple" == "(" + "apple";
    assert "(apple OR" == "(apple" + c;
    assert "(apple OR \"banana bread\"" == "(apple OR" + d;
    assert "(apple OR \"banana bread\")" == "(apple OR \"banana bread\"" + ")";
    assert "(apple OR \"banana bread\") AND" == "(apple OR \"banana bread\")" + f;
    assert "(apple OR \"banana bread\") AND NOT" == "(apple OR \"banana bread\") AND" + g;
    assert "(apple OR \"banana bread\") AND NOT cherry" == "(apple OR \"banana bread\") AND NOT" + h;
    Reassociate("(", "apple", c, d, ")", f, g, h);
  }

  lemma BasicExpressionWords()
    ensures PlainWord("apple") && PlainWord("cherry")
    ensures "banana bread" != [] && forall k :: 0 <= k < |"banana bread"| ==> "banana bread"[k] != '"'
  {
    LongWordIsPlain("apple");
    LongWordIsPlain("cherry");
  }

  /** Adding elements one at a time at the front of a display. */
  lemma Conses<T>(x7: T, x6: T, x5: T, x4: T, x3: T, x2: T, x1: T, x0: T)
    ensures [x7] + [] == [x7]
    ensures [x6] + [x7] == [x6, x7]
    ensures [x5] + [x6, x7] == [x5, x6, x7]
    ensures [x4] + [x5, x6, x7] == [x4, x5, x6, x7]
    ensures [x3] + [x4, x5, x6, x7] == [x3, x4, x5, x6, x7]
    ensures [x2] + [x3, x4, x5, x6, x7] == [x2, x3, x4, x5, x6, x7]
    ensures [x1] + [x2, x3, x4, x5, x6, x7] == [x1, x2, x3, x4, x5, x6, x7]
    ensures [x0] + [x1, x2, x3, x4, x5, x6, x7] == [x0, x1, x2, x3, x4, x5, x6, x7]
  {
  }

  /** `(a OR "p") AND NOT c`, written out lexeme by lexeme. */
  function BasicText(a: string, p: string, c: string): string {
    "(" + (a + ([' '] + "OR" + ([' ', '"'] + p + ['"']
      + (")" + ([' '] + "AND" + ([' '] + "NOT" + ([' '] + c + "")))))))
  }

  /** The tokens of `(a OR "p") AND NOT c`, for plain words `a`, `c` and a quote-free phrase `p`. */
  lemma BasicTextTokens(a: string, p: string, c: string)
    requires PlainWord(a) && PlainWord(c) && p != [] && forall k :: 0 <= k < |p| ==> p[k] != '"'
    ensures Lex(BasicText(a, p, c)) == Success(["(", a, "OR", p, ")", "AND", "NOT", c])
  {
    var r8 := [' '] + c + "";
    var r7 := [' '] + "NOT" + r8;
    var r6 := [' '] + "AND" + r7;
    var r5 := ")" + r6;
    var r4 := [' ', '"'] + p + ['"'] + r5;
    var r3 := [' '] + "OR" + r4;
    var r2 := a + r3;
    LexSpacedWord(c, "");
    Conses(c, "NOT", "AND", ")", p, "OR", a, "(");
    assert Lex("") == Success([]);
    assert Lex(r8) == Success([c]);
    LexSpacedKeyword("NOT", r8);
    assert Lex(r7) == Success(["NOT", c]);
    LexSpacedKeyword("AND", r7);
    assert Lex(r6) == Success(["AND", "NOT", c]);
    LexCloseParen(r6);
    assert Lex(r5) == Success([")", "AND", "NOT", c]);
    LexSpacedPhrase(p, r5);
    assert Lex(r4) == Success([p, ")", "AND", "NOT", c]);
    LexSpacedKeyword("OR", r4);
    assert Lex(r3) == Success(["OR", p, ")", "AND", "NOT", c]);
    LexWord(a, r3);
    assert Lex(r2) == Success([a, "OR", p, ")", "AND", "NOT", c]);
    LexOpenParen(r2);
  }

  lemma Splice<T>(x0: T, x1: T, x2: T, x3: T, x4: T, x5: T, x6: T, x7: T)
    ensures [x0] + [x1] + [x2] + [x3] + [x4] + [x5, x6, x7] == [x0, x1, x2, x3, x4, x5, x6, x7]
  {
  }

  /** `(a OR "p") AND NOT c` is the conjunction of the disjunction and the
      negation, when the phrase is not itself an operator or a parenthesis. */
  lemma BasicTextParses(a: string, p: string, c: string)
    requires PlainWord(a) && PlainWord(c) && p != [] && forall k :: 0 <= k < |p| ==> p[k] != '"'
    requires IsOperand(p)
    ensures Parse(BasicText(a, p, c)) == Success(And(Or(Term(a), Term(p)), Not(Term(c))))
  {
    BasicTextTokens(a, p, c);
    var x := Or(Term(a), Term(p));
    PlainWordOperand(a);
    PlainWordOperand(c);
    assert Render(x) == ["("] + [a] + ["OR"] + [p] + [")"];
    Splice("(", a, "OR", p, ")", "AND", "NOT", c);
    AndNotAfter(x, c);
  }

  /** `(apple OR "banana bread") AND NOT cherry`. */
  lemma BasicExpressionParses()
    ensures Parse("(apple OR \"banana bread\") AND NOT cherry")
         == Success(And(Or(Term("apple"), Term("banana bread")), Not(Term("cherry"))))
  {
    BasicExpressionPieces();
    BasicExpressionWords();
    assert IsOperand("banana bread");
    BasicTextParses("apple", "banana bread", "cherry");
  }

  /** Its query is the compilation of that tree. */
  lemma BasicExpressionQuery()
    ensures Query("(apple OR \"banana bread\") AND NOT cherry")
         == Success(ToEs(And(Or(Term("apple"), Term("banana bread")), Not(Term("cherry")))))
  {
    BasicExpressionParses();
  }

  lemma JoinTwo(x: string, y: string)
    ensures Join([x, y], ' ') == x + [' '] + y
  {
    assert [x, y][1..] == [y];
  }

  lemma JoinThree(x: string, y: string, z: string)
    ensures Join([x, y, z], ' ') == x + [' '] + y + [' '] + z
  {
    assert [x, y, z][1..] == [y, z];
    JoinTwo(y, z);
  }

  lemma JoinFour(w: string, x: string, y: string, z: string)
    ensures Join([w, x, y, z], ' ') == w + [' '] + x + [' '] + y + [' '] + z
  {
    assert [w, x, y, z][1..] == [x, y, z];
    JoinThree(x, y, z);
  }

  /** `AND a`: AND has no left operand. */
  lemma LeadingOperatorText(a: string)
    requires PlainWord(a)
    ensures Parse(Join(["AND", a], ' ')) == Failure(MissingOperands("AND"))
  {
    var ts := ["AND", a];
    assert Printable(ts[0]) && Printable(ts[1]);
    LexJoined(ts);
    PlainWordOperand(a);
    MissingLeftOperand(a);
  }

  lemma LeadingOperatorFails()
    ensures Parse("AND apple") == Failure(MissingOperands("AND"))
  {
    JoinTwo("AND", "apple");
    assert "AND apple" == "AND" + [' '] + "apple";
    LongWordIsPlain("apple");
    LeadingOperatorText("apple");
  }

  lemma PrefixReassociate(o: string, a: string, b: string, c: string, d: string, e: string)
    ensures o + (a + b + c + d + e) == o + a + b + c + d + e
  {
  }

  /** `(a OR b`: the parenthesis is never closed. */
  lemma UnclosedText(a: string, b: string)
    requires PlainWord(a) && PlainWord(b)
    ensures Parse("(" + Join([a, "OR", b], ' ')) == Failure(MismatchedParenthesis)
  {
    var ts := [a, "OR", b];
    assert Printable(ts[0]) && Printable(ts[1]) && Printable(ts[2]);
    LexJoined(ts);
    LexOpenParen(Join(ts, ' '));
    Conses(b, b, b, b, b, "OR", a, "(");
    PlainWordOperand(a);
    PlainWordOperand(b);
    UnclosedParenthesis(a, b);
  }

  lemma UnclosedExpressionFails()
    ensures Parse("(apple OR banana") == Failure(MismatchedParenthesis)
  {
    JoinThree("apple", "OR", "banana");
    PrefixReassociate("(", "apple", [' '], "OR", [' '], "banana");
    assert "(apple OR" == "(" + "apple" + [' '] + "OR";
    assert "(apple OR banana" == "(apple OR" + [' '] + "banana";
    LongWordIsPlain("apple");
    LongWordIsPlain("banana");
    UnclosedText("apple", "banana");
  }

  /** `a OR ) b`: the `)` reaches OR before its right operand. */
  lemma MisplacedCloseText(a: string, b: string)
    requires PlainWord(a) && PlainWord(b)
    ensures Parse(Join([a, "OR", ")", b], ' ')) == Failure(MissingOperands("OR"))
  {
    var ts := [a, "OR", ")", b];
    assert Printable(ts[0]) && Printable(ts[1]) && Printable(ts[2]) && Printable(ts[3]);
    LexJoined(ts);
    PlainWordOperand(a);
    PlainWordOperand(b);
    CloseBeforeOperand(a, b);
  }

  lemma MisplacedCloseFails()
    ensures Parse("apple OR ) banana") == Failure(MissingOperands("OR"))
  {
    JoinFour("apple", "OR", ")", "banana");
    assert "apple OR )" == "apple" + [' '] + "OR" + [' '] + ")";
    assert "apple OR ) banana" == "apple OR )" + [' '] + "banana";
    LongWordIsPlain("apple");
    LongWordIsPlain("banana");
    MisplacedCloseText("apple", "banana");
  }

  /** `a AND b`. */
  lemma ConjunctionText(a: string, b: string)
    requires PlainWord(a) && PlainWord(b)
    ensures Parse(Join([a, "AND", b], ' ')) == Success(And(Term(a), Term(b)))
  {
    var ts := [a, "AND", b];
    assert Printable(ts[0]) && Printable(ts[1]) && Printable(ts[2]);
    LexJoined(ts);
    PlainWordOperand(a);
    PlainWordOperand(b);
    AndOfOperands(a, b);
  }

  /** `search(es, index="documents", expression="apple AND banana", size=5)`
      calls the client once with that index, size 5 and the conjunction. */
  lemma SearchExample<R>(client: (string, Json) -> R)
    ensures SearchOutcome(client, "documents", "apple AND banana", 5)
         == Success(client("documents", SearchBody(5, ToEs(And(Term("apple"), Term("banana"))))))
  {
    JoinThree("apple", "AND", "banana");
    assert "apple AND banana" == "apple" + [' '] + "AND" + [' '] + "banana";
    LongWordIsPlain("apple");
    LongWordIsPlain("banana");
    ConjunctionText("apple", "banana");
  }

  /** A quoted phrase alone is its text, even when that text is a keyword or a parenthesis. */
  lemma QuotedAlone(p: string)
    requires p != [] && forall k :: 0 <= k < |p| ==> p[k] != '"'
    ensures Lex(['"'] + p + ['"']) == Success([p])
  {
    MatchPhrase(p, "");
    var m := TokenMatch(4, p, |p| + 2);
    TokenOfText(m);
    var q := ['"'] + p + ['"'];
    assert q + "" == q;
    LexPiece(q, "");
    assert [p] + [] == [p];
  }

  /** So a quoted `"AND"` is the operator AND, here without operands. */
  lemma QuotedKeywordIsOperator()
    ensures Parse("\"AND\"") == Failure(MissingOperands("AND"))
  {
    QuotedAlone("AND");
    assert "\"AND\"" == ['"'] + "AND" + ['"'];
    FeedOne(Stacks([], []), "AND");
    Pair<string>("AND", "AND");
    DrainOne([], "AND");
  }
}
