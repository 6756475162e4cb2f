/** The tokenizer of the exact search strategy: the compiled pattern
    `\s*(\()|\s*(\))|\s*(AND|OR|NOT)\b|\s*"([^"]+)"|\s*([^\s\)\(]+)` (case-insensitive)
    and the `_tokenize` loop that applies it from left to right. */
module ExactLexer {
  import opened Wrappers
  import opened PyText

  // ---------- token kinds ----------
  // The keywords are spelled out character by character, which the solver
  // handles far better than equations between strings.

  predicate IsAnd(t: string) { |t| == 3 && t[0] == 'A' && t[1] == 'N' && t[2] == 'D' }

  predicate IsOr(t: string) { |t| == 2 && t[0] == 'O' && t[1] == 'R' }

  predicate IsNot(t: string) { |t| == 3 && t[0] == 'N' && t[1] == 'O' && t[2] == 'T' }

  /** `t in ("AND", "OR", "NOT")`. */
  predicate IsOperator(t: string) { IsAnd(t) || IsOr(t) || IsNot(t) }

  /** `t == "("`. */
  predicate IsOpen(t: string) { |t| == 1 && t[0] == '(' }

  /** `t == ")"`. */
  predicate IsClose(t: string) { |t| == 1 && t[0] == ')' }

  /** The character-wise predicates name exactly the five token strings. */
  lemma TokenKinds(t: string)
    ensures IsAnd(t) <==> t == "AND"
    ensures IsOr(t) <==> t == "OR"
    ensures IsNot(t) <==> t == "NOT"
    ensures IsOpen(t) <==> t == "("
    ensures IsClose(t) <==> t == ")"
  {
  }

  // ---------- the token regex ----------
  // \s*(\()|\s*(\))|\s*(AND|OR|NOT)\b|\s*"([^"]+)"|\s*([^\s\)\(]+), IGNORECASE

  predicate AllSpace(s: string) { forall k :: 0 <= k < |s| ==> IsSpace(s[k]) }

  /** How much of `s` the leading `\s*` consumes. */
  function SpaceRun(s: string): (n: nat)
    ensures n <= |s|
  {
    if |s| > 0 && IsSpace(s[0]) then 1 + SpaceRun(s[1..]) else 0
  }

  lemma {:induction false} SpaceRunFacts(s: string)
    ensures var n := SpaceRun(s); AllSpace(s[..n]) && (n == |s| || !IsSpace(s[n]))
  {
    if |s| > 0 && IsSpace(s[0]) {
      SpaceRunFacts(s[1..]);
      var n := SpaceRun(s);
      assert forall k :: 1 <= k < n ==> s[k] == s[1..][k - 1];
    }
  }

  /** `kw\b` at the start of `s`, compared ignoring ASCII case. */
  predicate KeywordIs(s: string, kw: string) {
    && |kw| <= |s|
    && (forall i :: 0 <= i < |kw| ==> UpperChar(s[i]) == kw[i])
    && (|s| == |kw| || !IsWordChar(s[|kw|]))
  }

  /** `(AND|OR|NOT)\b`: the alternatives tried in order; the matched text. */
  function KeywordAt(s: string): (r: Option<string>)
    ensures r.Some? ==> 0 < |r.value| <= |s| && r.value == s[..|r.value|]
  {
    if KeywordIs(s, "AND") then Some(s[..3])
    else if KeywordIs(s, "OR") then Some(s[..2])
    else if KeywordIs(s, "NOT") then Some(s[..3])
    else None
  }

  lemma KeywordAtFacts(s: string)
    requires KeywordAt(s).Some?
    ensures IsOperator(Upper(KeywordAt(s).value))
  {
    var k := KeywordAt(s).value;
    if KeywordIs(s, "AND") {
      assert Upper(k) == "AND";
    } else if KeywordIs(s, "OR") {
      assert Upper(k) == "OR";
    } else {
      assert Upper(k) == "NOT";
    }
  }

  /** The index of the first `"` in `s`. */
  function QuoteIndex(s: string): (r: Option<nat>)
    ensures r.Some? ==> r.value < |s|
  {
    if s == [] then None
    else if s[0] == '"' then Some(0)
    else match QuoteIndex(s[1..])
      case None => None
      case Some(j) => Some(j + 1)
  }

  lemma {:induction false} QuoteIndexFacts(s: string)
    ensures var r := QuoteIndex(s);
      && (r.Some? ==> s[r.value] == '"' && forall k :: 0 <= k < r.value ==> s[k] != '"')
      && (r.None? ==> forall k :: 0 <= k < |s| ==> s[k] != '"')
  {
    if s != [] && s[0] != '"' {
      QuoteIndexFacts(s[1..]);
      assert forall k :: 1 <= k < |s| ==> s[k] == s[1..][k - 1];
    }
  }

  /** `"([^"]+)"` at the start of `s`: the index of the closing quote. */
  function PhraseEnd(s: string): (r: Option<nat>)
    ensures r.Some? ==> 1 < r.value < |s|
  {
    if |s| > 0 && s[0] == '"' then
      match QuoteIndex(s[1..])
      case Some(j) => if j > 0 then Some(j + 1) else None
      case None => None
    else None
  }

  lemma PhraseEndFacts(s: string)
    requires PhraseEnd(s).Some?
    ensures var j := PhraseEnd(s).value;
      s[0] == '"' && s[j] == '"' && forall k :: 1 <= k < j ==> s[k] != '"'
  {
    QuoteIndexFacts(s[1..]);
    var j := PhraseEnd(s).value;
    assert forall k :: 1 <= k <= j ==> s[k] == s[1..][k - 1];
  }

  /** A character of `[^\s\)\(]`. */
  predicate IsBareChar(c: char) { !IsSpace(c) && c != '(' && c != ')' }

  /** How much of `s` the greedy `[^\s\)\(]*` consumes. */
  function BareRun(s: string): (n: nat)
    ensures n <= |s| && (|s| > 0 && IsBareChar(s[0]) ==> n > 0)
  {
    if |s| > 0 && IsBareChar(s[0]) then 1 + BareRun(s[1..]) else 0
  }

  lemma {:induction false} BareRunFacts(s: string)
    ensures var n := BareRun(s);
      (forall k :: 0 <= k < n ==> IsBareChar(s[k])) && (n == |s| || !IsBareChar(s[n]))
  {
    if |s| > 0 && IsBareChar(s[0]) {
      BareRunFacts(s[1..]);
      var n := BareRun(s);
      assert forall k :: 1 <= k < n ==> s[k] == s[1..][k - 1];
    }
  }

  /** A successful `match`: which group matched, its text, and the length of the whole match. */
  datatype TokenMatch = TokenMatch(group: nat, text: string, length: nat)

  /** `self._token_re.match(s)`: the leading `\s*` shared by every alternative,
      then the first alternative that matches what follows. */
  function MatchToken(s: string): (r: Option<TokenMatch>)
    ensures r.Some? ==> 1 <= r.value.group <= 5 && r.value.text != [] && 0 < r.value.length <= |s|
  {
    var q := SpaceRun(s);
    SpaceRunFacts(s);
    assert q < |s| ==> s[q..][0] == s[q];
    Shifted(MatchHere(s[q..]), q)
  }

  /** The alternatives after their `\s*`, in order, on text that does not start with whitespace. */
  function MatchHere(t: string): (r: Option<TokenMatch>)
    requires t == [] || !IsSpace(t[0])
    ensures r.Some? ==> 1 <= r.value.group <= 5 && r.value.text != [] && 0 < r.value.length <= |t|
  {
    if t == [] then None
    else if t[0] == '(' then Some(TokenMatch(1, "(", 1))
    else if t[0] == ')' then Some(TokenMatch(2, ")", 1))
    else if KeywordAt(t).Some? then
      var k := KeywordAt(t).value;
      Some(TokenMatch(3, k, |k|))
    else if PhraseEnd(t).Some? then
      var j := PhraseEnd(t).value;
      Some(TokenMatch(4, t[1..j], j + 1))
    else
      var n := BareRun(t);
      Some(TokenMatch(5, t[..n], n))
  }

  /** `m` with `n` more characters of leading whitespace. */
  function Shifted(m: Option<TokenMatch>, n: nat): (r: Option<TokenMatch>)
    ensures r.Some? <==> m.Some?
    ensures r.Some? ==> r.value.group == m.value.group && r.value.text == m.value.text
                        && r.value.length == m.value.length + n
  {
    match m
    case None => None
    case Some(t) => Some(TokenMatch(t.group, t.text, t.length + n))
  }

  lemma MatchHereSpace(t: string)
    requires t == [] || !IsSpace(t[0])
    ensures MatchHere(t).None? <==> t == []
    ensures MatchHere(t).Some? ==> !IsSpace(t[MatchHere(t).value.length - 1])
  {
    if t != [] && t[0] != '(' && t[0] != ')' {
      if KeywordAt(t).Some? {
        KeywordAtFacts(t);
        UpperNotSpace(t, KeywordAt(t).value);
      } else if PhraseEnd(t).Some? {
        PhraseEndFacts(t);
      } else {
        BareRunFacts(t);
      }
    }
  }

  /** No alternative matches exactly when only whitespace is left, and every
      match ends on a character that is not whitespace. */
  lemma MatchTokenSpace(s: string)
    ensures MatchToken(s).None? <==> AllSpace(s)
    ensures MatchToken(s).Some? ==> !IsSpace(s[MatchToken(s).value.length - 1])
  {
    var q := SpaceRun(s);
    SpaceRunFacts(s);
    var t := s[q..];
    assert t != [] ==> t[0] == s[q];
    MatchHereSpace(t);
    if t == [] {
      assert s == s[..q];
    } else {
      assert !AllSpace(s);
      var m := MatchHere(t).value;
      assert s[q + m.length - 1] == t[m.length - 1];
    }
  }

  /** Text that does not start with whitespace is matched by `MatchHere` directly. */
  lemma MatchNoSpace(s: string)
    requires s != [] && !IsSpace(s[0])
    ensures MatchToken(s) == MatchHere(s)
  {
    assert SpaceRun(s) == 0;
    assert s[0..] == s;
  }

  /** The last character of a matched keyword is a letter. */
  lemma UpperNotSpace(t: string, k: string)
    requires 0 < |k| <= |t| && k == t[..|k|] && IsOperator(Upper(k))
    ensures !IsSpace(t[|k| - 1])
  {
    assert Upper(k)[|k| - 1] == UpperChar(k[|k| - 1]);
  }

  /** The token the loop appends for a match: the `m.group(1)` … `m.group(5)`
      chain of `_tokenize`. Every group's text is non-empty, so the loop's
      "only whitespace matched" branch is never taken. */
  function TokenOf(m: TokenMatch): string {
    if m.group == 1 then "("
    else if m.group == 2 then ")"
    else if m.group == 3 then Upper(m.text)
    else m.text
  }

  /** `ts` put in front of the tokens of a successful result; `off` added to the position of an error. */
  function Prepend(ts: seq<string>, off: nat, r: Result<seq<string>, nat>): Result<seq<string>, nat> {
    match r
    case Success(rest) => Success(ts + rest)
    case Failure(p) => Failure(off + p)
  }

  lemma PrependTwice(a: seq<string>, i: nat, b: seq<string>, j: nat, r: Result<seq<string>, nat>)
    ensures Prepend(a, i, Prepend(b, j, r)) == Prepend(a + b, i + j, r)
  {
    if r.Success? {
      assert a + (b + r.value) == (a + b) + r.value;
    }
  }

  lemma PrependNothing(r: Result<seq<string>, nat>)
    ensures Prepend([], 0, r) == r
  {
    if r.Success? {
      assert [] + r.value == r.value;
    }
  }

  // ---------- the tokenizing loop, for any compiled pattern ----------

  /** A compiled pattern's `match` at the start of a string. */
  type Matcher = string -> Option<TokenMatch>

  /** Every match consumes at least one character. */
  ghost predicate Consumes(matcher: Matcher) {
    forall s :: matcher(s).Some? ==> 0 < matcher(s).value.length <= |s|
  }

  /** What the loop of `_tokenize` computes with `matcher`: the tokens, or the
      position where nothing matched. */
  function LexWith(matcher: Matcher, s: string): Result<seq<string>, nat>
    requires Consumes(matcher)
    decreases |s|
  {
    if s == [] then Success([])
    else match matcher(s)
      case None => Failure(0)
      case Some(m) => Prepend([TokenOf(m)], m.length, LexWith(matcher, s[m.length..]))
  }

  lemma LexStep(matcher: Matcher, s: string)
    requires Consumes(matcher) && matcher(s).Some?
    ensures LexWith(matcher, s) == Prepend([TokenOf(matcher(s).value)], matcher(s).value.length,
                                           LexWith(matcher, s[matcher(s).value.length..]))
  {
  }

  lemma LexNoMatch(matcher: Matcher, s: string)
    requires Consumes(matcher) && s != [] && matcher(s).None?
    ensures LexWith(matcher, s) == Failure(0)
  {
  }

  /** Nothing matches only where only whitespace is left, and a match never ends on whitespace. */
  ghost predicate StopsAtSpace(matcher: Matcher) {
    && Consumes(matcher)
    && (forall s :: matcher(s).None? ==> AllSpace(s))
    && (forall s :: matcher(s).Some? ==> !IsSpace(s[matcher(s).value.length - 1]))
  }

  lemma {:induction false} LexFailureWith(matcher: Matcher, s: string)
    requires StopsAtSpace(matcher)
    ensures LexWith(matcher, s).Failure? <==> |s| > 0 && IsSpace(s[|s| - 1])
    ensures LexWith(matcher, s).Failure? ==> TrailingSpaceAt(s, LexWith(matcher, s).error)
    decreases |s|
  {
    if s != [] {
      if matcher(s).None? {
        LexNoMatch(matcher, s);
        assert s[0..] == s;
      } else {
        var n := matcher(s).value.length;
        var rest := s[n..];
        LexStep(matcher, s);
        LexFailureWith(matcher, rest);
        if rest != [] {
          assert rest[|rest| - 1] == s[|s| - 1];
          if LexWith(matcher, rest).Failure? {
            TrailingSpaceShift(s, n, LexWith(matcher, rest).error);
          }
        }
      }
    }
  }

  /** Whitespace in front of a match is consumed with it. */
  ghost predicate SkipsLeadingSpace(matcher: Matcher) {
    forall c, s :: IsSpace(c) ==> matcher([c] + s) == Shifted(matcher(s), 1)
  }

  lemma LexAfterSpace(matcher: Matcher, c: char, s: string)
    requires Consumes(matcher) && SkipsLeadingSpace(matcher) && IsSpace(c)
    requires s != [] && LexWith(matcher, s).Success?
    ensures LexWith(matcher, [c] + s) == Prepend([], 1, LexWith(matcher, s))
  {
    var m := matcher(s).value;
    assert matcher([c] + s) == Shifted(matcher(s), 1);
    var rest := s[m.length..];
    assert ([c] + s)[m.length + 1..] == rest;
    LexStep(matcher, s);
    LexStep(matcher, [c] + s);
    PrependTwice([], 1, [TokenOf(m)], m.length, LexWith(matcher, rest));
    assert [] + [TokenOf(m)] == [TokenOf(m)];
  }

  /** A token the tokenizer reproduces when it stands alone between spaces. */
  predicate Printable(t: string) {
    IsOpen(t) || IsClose(t) || IsOperator(t) || PlainWord(t)
  }

  /** A printable token followed by a space or by nothing is matched as itself. */
  ghost predicate ReadsPrintable(matcher: Matcher) {
    forall t, tail :: Printable(t) && (tail == [] || tail[0] == ' ') ==>
      matcher(t + tail).Some? && TokenOf(matcher(t + tail).value) == t && matcher(t + tail).value.length == |t|
  }

  /** One printable token, a space, and text that tokenizes to `ts`. */
  lemma LexConsToken(matcher: Matcher, t: string, rest: string, ts: seq<string>)
    requires Consumes(matcher) && SkipsLeadingSpace(matcher) && ReadsPrintable(matcher)
    requires Printable(t) && rest != [] && LexWith(matcher, rest) == Success(ts)
    ensures LexWith(matcher, t + ([' '] + rest)) == Success([t] + ts)
  {
    var tail := [' '] + rest;
    assert matcher(t + tail).Some?;
    LexStep(matcher, t + tail);
    assert (t + tail)[|t|..] == tail;
    LexAfterSpace(matcher, ' ', rest);
    assert [] + ts == ts;
  }

  /** A printable token alone. */
  lemma LexOneToken(matcher: Matcher, t: string)
    requires Consumes(matcher) && ReadsPrintable(matcher) && Printable(t)
    ensures LexWith(matcher, t) == Success([t])
  {
    assert t + "" == t;
    assert matcher(t + "").Some?;
    LexStep(matcher, t);
    assert t[|t|..] == [];
    assert [t] + [] == [t];
  }

  lemma {:induction false} LexJoinedWith(matcher: Matcher, ts: seq<string>)
    requires Consumes(matcher) && SkipsLeadingSpace(matcher) && ReadsPrintable(matcher)
    requires |ts| > 0 && forall i :: 0 <= i < |ts| ==> Printable(ts[i])
    ensures LexWith(matcher, Join(ts, ' ')) == Success(ts)
  {
    var t := ts[0];
    if |ts| == 1 {
      LexOneToken(matcher, t);
      assert [t] == ts;
    } else {
      var rest := Join(ts[1..], ' ');
      assert Join(ts, ' ') == t + ([' '] + rest);
      assert forall i :: 0 <= i < |ts[1..]| ==> ts[1..][i] == ts[i + 1];
      LexJoinedWith(matcher, ts[1..]);
      JoinHead(ts[1..], ' ');
      LexConsToken(matcher, t, rest, ts[1..]);
      assert [t] + ts[1..] == ts;
    }
  }

  /** A joined list starts with the first character of its first piece. */
  lemma JoinHead(ts: seq<string>, sep: char)
    requires |ts| > 0 && |ts[0]| > 0
    ensures |Join(ts, sep)| > 0 && Join(ts, sep)[0] == ts[0][0]
  {
  }

  // ---------- the tokenizer of the exact strategy ----------

  lemma MatchTokenConsumes()
    ensures Consumes(MatchToken)
  {
  }

  /** What `_tokenize` computes. */
  function Lex(s: string): (r: Result<seq<string>, nat>)
    ensures r.Success? && s != [] ==> r.value != []
    ensures r.Failure? ==> r.error < |s|
    decreases |s|
  {
    if s == [] then Success([])
    else match MatchToken(s)
      case None => Failure(0)
      case Some(m) => Prepend([TokenOf(m)], m.length, Lex(s[m.length..]))
  }

  /** `Lex` is the generic loop run with the token pattern. */
  lemma {:induction false} LexIsLexWith(s: string)
    ensures Consumes(MatchToken) && Lex(s) == LexWith(MatchToken, s)
    decreases |s|
  {
    MatchTokenConsumes();
    if s != [] && MatchToken(s).Some? {
      LexIsLexWith(s[MatchToken(s).value.length..]);
    }
  }

  /** One turn of the loop of `_tokenize`: the match at `pos` moves to the token list. */
  lemma LexAdvance(matcher: Matcher, s: string, pos: nat, tokens: seq<string>, m: TokenMatch)
    requires Consumes(matcher) && pos < |s| && matcher(s[pos..]) == Some(m)
    requires LexWith(matcher, s) == Prepend(tokens, pos, LexWith(matcher, s[pos..]))
    ensures 0 < m.length && pos + m.length <= |s|
    ensures LexWith(matcher, s) == Prepend(tokens + [TokenOf(m)], pos + m.length, LexWith(matcher, s[pos + m.length..]))
  {
    LexStepAt(matcher, s, pos, m);
    PrependTwice(tokens, pos, [TokenOf(m)], m.length, LexWith(matcher, s[pos + m.length..]));
  }

  lemma LexStepAt(matcher: Matcher, s: string, pos: nat, m: TokenMatch)
    requires Consumes(matcher) && pos < |s| && matcher(s[pos..]) == Some(m)
    ensures pos + m.length <= |s|
    ensures LexWith(matcher, s[pos..]) == Prepend([TokenOf(m)], m.length, LexWith(matcher, s[pos + m.length..]))
  {
    var here := s[pos..];
    assert here[m.length..] == s[pos + m.length..];
    LexStep(matcher, here);
  }

  /** `self._token_re.match(s, pos)`: the compiled pattern applied at `pos`. */
  function MatchAt(matcher: Matcher, t: string): Option<TokenMatch> { matcher(t) }

  /** The loop of `_tokenize`, with the compiled pattern `matcher`. */
  method TokenizeWith(matcher: Matcher, s: string) returns (r: Result<seq<string>, nat>)
    requires Consumes(matcher)
    ensures r == LexWith(matcher, s)
  {
    var tokens: seq<string> := [];
    var pos: nat := 0;
    LexStart(matcher, s);
    while pos < |s|
      invariant pos <= |s|
      invariant LexWith(matcher, s) == Prepend(tokens, pos, LexWith(matcher, s[pos..]))
      decreases |s| - pos
    {
      var m := MatchAt(matcher, s[pos..]);
      if m.None? {
        LexStuck(matcher, s, pos, tokens);
        return Failure(pos);
      }
      LexAdvance(matcher, s, pos, tokens, m.value);
      pos := pos + m.value.length;
      tokens := tokens + [TokenOf(m.value)];
    }
    LexDone(matcher, s, tokens);
    return Success(tokens);
  }

  lemma LexStart(matcher: Matcher, s: string)
    requires Consumes(matcher)
    ensures LexWith(matcher, s) == Prepend([], 0, LexWith(matcher, s[0..]))
  {
    assert s[0..] == s;
    PrependNothing(LexWith(matcher, s));
  }

  lemma LexStuck(matcher: Matcher, s: string, pos: nat, tokens: seq<string>)
    requires Consumes(matcher) && pos < |s| && matcher(s[pos..]).None?
    requires LexWith(matcher, s) == Prepend(tokens, pos, LexWith(matcher, s[pos..]))
    ensures LexWith(matcher, s) == Failure(pos)
  {
    LexNoMatch(matcher, s[pos..]);
  }

  lemma LexDone(matcher: Matcher, s: string, tokens: seq<string>)
    requires Consumes(matcher)
    requires LexWith(matcher, s) == Prepend(tokens, |s|, LexWith(matcher, s[|s|..]))
    ensures LexWith(matcher, s) == Success(tokens)
  {
    assert s[|s|..] == [];
    assert tokens + [] == tokens;
  }

  /** `_tokenize`, with the pattern of the exact strategy. */
  method Tokenize(s: string) returns (r: Result<seq<string>, nat>)
    ensures r == Lex(s)
  {
    MatchTokenConsumes();
    r := TokenizeWith(MatchToken, s);
    LexIsLexWith(s);
  }

  lemma MatchTokenStopsAtSpace()
    ensures StopsAtSpace(MatchToken)
  {
    forall s ensures MatchToken(s).None? ==> AllSpace(s) {
      MatchTokenSpace(s);
    }
    forall s ensures MatchToken(s).Some? ==> !IsSpace(s[MatchToken(s).value.length - 1]) {
      MatchTokenSpace(s);
    }
  }

  /** Tokenizing fails exactly when a non-empty input ends in whitespace, and
      the error names the position where the trailing whitespace begins. */
  lemma LexFailure(s: string)
    ensures Lex(s).Failure? <==> |s| > 0 && IsSpace(s[|s| - 1])
    ensures Lex(s).Failure? ==> TrailingSpaceAt(s, Lex(s).error)
  {
    MatchTokenStopsAtSpace();
    LexFailureWith(MatchToken, s);
    LexIsLexWith(s);
  }

  /** `p` is where the whitespace at the end of `s` begins. */
  predicate TrailingSpaceAt(s: string, p: nat) {
    p < |s| && AllSpace(s[p..]) && (p == 0 || !IsSpace(s[p - 1]))
  }

  lemma TrailingSpaceShift(s: string, n: nat, p: nat)
    requires 0 < n <= |s| && !IsSpace(s[n - 1]) && TrailingSpaceAt(s[n..], p)
    ensures TrailingSpaceAt(s, n + p)
  {
    assert s[n + p..] == s[n..][p..];
    if p > 0 {
      assert s[n + p - 1] == s[n..][p - 1];
    }
  }

  // ---------- how individual lexemes match ----------

  lemma MatchOpenParen(tail: string)
    ensures MatchToken(['('] + tail) == Some(TokenMatch(1, "(", 1))
  {
    MatchNoSpace(['('] + tail);
  }

  lemma MatchCloseParen(tail: string)
    ensures MatchToken([')'] + tail) == Some(TokenMatch(2, ")", 1))
  {
    MatchNoSpace([')'] + tail);
  }

  lemma KeywordAtWord(w: string, tail: string)
    requires IsOperator(Upper(w)) && (tail == [] || !IsWordChar(tail[0]))
    ensures KeywordAt(w + tail) == Some(w)
  {
    var s := w + tail;
    assert s[..|w|] == w;
    var u := Upper(w);
    assert forall i :: 0 <= i < |w| ==> UpperChar(s[i]) == u[i];
    if u == "AND" {
      assert KeywordIs(s, "AND");
    } else if u == "OR" {
      assert UpperChar(s[0]) == 'O';
      assert KeywordIs(s, "OR");
    } else {
      assert UpperChar(s[0]) == 'N';
      assert KeywordIs(s, "NOT");
    }
  }

  /** A keyword followed by a non-word character or by nothing is matched by
      the keyword alternative (`KeywordAtWord` covers other letter cases). */
  lemma MatchKeyword(w: string, tail: string)
    requires IsOperator(w) && (tail == [] || !IsWordChar(tail[0]))
    ensures MatchToken(w + tail) == Some(TokenMatch(3, w, |w|))
  {
    var s := w + tail;
    assert s[0] == w[0];
    LetterNotSpace(s[0]);
    MatchNoSpace(s);
    assert Upper(w) == w;
    KeywordAtWord(w, tail);
  }

  lemma LetterNotSpace(c: char)
    requires IsAsciiLetter(c)
    ensures !IsSpace(c) && c != '(' && c != ')' && c != '"'
  {
  }

  /** A word of the query language: ASCII word characters only, and not a keyword in any case. */
  predicate PlainWord(w: string) {
    |w| > 0 && (forall i :: 0 <= i < |w| ==> IsWordChar(w[i])) && !IsOperator(Upper(w))
  }

  /** A word of more than three word characters is too long to be a keyword. */
  lemma LongWordIsPlain(w: string)
    requires |w| > 3 && forall i :: 0 <= i < |w| ==> IsWordChar(w[i])
    ensures PlainWord(w)
  {
    assert |Upper(w)| == |w|;
  }

  lemma NotKeyword(w: string, tail: string, kw: string)
    requires PlainWord(w) && (tail == [] || !IsBareChar(tail[0])) && IsOperator(kw)
    ensures !KeywordIs(w + tail, kw)
  {
    var s := w + tail;
    if |w| > |kw| {
      assert s[|kw|] == w[|kw|] && IsWordChar(s[|kw|]);
    } else if |w| == |kw| {
      var u := Upper(w);
      assert u != kw && |u| == |kw|;
      var i :| 0 <= i < |kw| && u[i] != kw[i];
      assert UpperChar(s[i]) != kw[i];
    } else if |kw| <= |s| {
      assert s[|w|] == tail[0];
      assert UpperChar(s[|w|]) != kw[|w|];
    }
  }

  lemma BareRunWord(w: string, tail: string)
    requires PlainWord(w) && (tail == [] || !IsBareChar(tail[0]))
    ensures BareRun(w + tail) == |w|
  {
    var s := w + tail;
    BareRunFacts(s);
    assert forall k :: 0 <= k < |w| ==> s[k] == w[k];
    assert forall k :: 0 <= k < |w| ==> IsBareChar(s[k]);
    assert |s| == |w| || s[|w|] == tail[0];
  }

  /** A plain word followed by whitespace, a parenthesis or nothing is matched
      whole by the last alternative. */
  lemma MatchWord(w: string, tail: string)
    requires PlainWord(w) && (tail == [] || !IsBareChar(tail[0]))
    ensures MatchToken(w + tail) == Some(TokenMatch(5, w, |w|))
  {
    var s := w + tail;
    assert s[0] == w[0];
    MatchNoSpace(s);
    NotKeyword(w, tail, "AND");
    NotKeyword(w, tail, "OR");
    NotKeyword(w, tail, "NOT");
    BareRunWord(w, tail);
    assert s[..|w|] == w;
  }

  lemma QuoteIndexAfter(p: string, rest: string)
    requires forall k :: 0 <= k < |p| ==> p[k] != '"'
    ensures QuoteIndex(p + ['"'] + rest) == Some(|p|)
  {
    if p != [] {
      assert (p + ['"'] + rest)[1..] == p[1..] + ['"'] + rest;
      QuoteIndexAfter(p[1..], rest);
    }
  }

  /** A double-quoted phrase without inner quotes is one token, quotes stripped,
      whatever it contains (spaces, parentheses, keywords). */
  lemma MatchPhrase(p: string, tail: string)
    requires p != [] && forall k :: 0 <= k < |p| ==> p[k] != '"'
    ensures MatchToken(['"'] + p + ['"'] + tail) == Some(TokenMatch(4, p, |p| + 2))
  {
    var s := ['"'] + p + ['"'] + tail;
    MatchNoSpace(s);
    assert !KeywordIs(s, "AND") && !KeywordIs(s, "OR") && !KeywordIs(s, "NOT");
    assert s[1..] == p + ['"'] + tail;
    QuoteIndexAfter(p, tail);
    assert PhraseEnd(s) == Some(|p| + 1);
    assert s[1..|p| + 1] == p;
  }

  /** Leading whitespace is skipped by every alternative. */
  lemma MatchAfterSpace(c: char, s: string)
    requires IsSpace(c)
    ensures MatchToken([c] + s) == Shifted(MatchToken(s), 1)
  {
    var q := SpaceRun(s);
    SpaceRunCons(c, s);
    MatchTokenUnfold(s);
    MatchTokenUnfold([c] + s);
    var m := MatchHere(s[q..]);
    if m.Some? {
      assert Shifted(Shifted(m, q), 1) == Shifted(m, q + 1);
    }
  }

  /** A leading space adds one to the run of leading whitespace. */
  lemma SpaceRunCons(c: char, s: string)
    requires IsSpace(c)
    ensures SpaceRun([c] + s) == SpaceRun(s) + 1
    ensures ([c] + s)[SpaceRun(s) + 1..] == s[SpaceRun(s)..]
  {
    assert ([c] + s)[1..] == s;
  }

  /** `MatchToken` is the alternatives tried after the leading whitespace. */
  lemma MatchTokenUnfold(s: string)
    ensures var q := SpaceRun(s);
      && (q == |s| || !IsSpace(s[q]))
      && MatchToken(s) == Shifted(MatchHere(s[q..]), q)
  {
    SpaceRunFacts(s);
  }

  lemma MatchTokenSkipsLeadingSpace()
    ensures SkipsLeadingSpace(MatchToken)
  {
    forall c, s | IsSpace(c) ensures MatchToken([c] + s) == Shifted(MatchToken(s), 1) {
      MatchAfterSpace(c, s);
    }
  }

  lemma MatchPrintable(t: string, tail: string)
    requires Printable(t) && (tail == [] || tail[0] == ' ')
    ensures MatchToken(t + tail).Some?
    ensures TokenOf(MatchToken(t + tail).value) == t && MatchToken(t + tail).value.length == |t|
  {
    if IsOpen(t) {
      assert t == "(";
      MatchOpenParen(tail);
    } else if IsClose(t) {
      assert t == ")";
      MatchCloseParen(tail);
    } else if IsOperator(t) {
      assert Upper(t) == t;
      MatchKeyword(t, tail);
    } else {
      MatchWord(t, tail);
    }
  }

  lemma MatchTokenReadsPrintable()
    ensures ReadsPrintable(MatchToken)
  {
    forall t, tail | Printable(t) && (tail == [] || tail[0] == ' ')
      ensures MatchToken(t + tail).Some? && TokenOf(MatchToken(t + tail).value) == t
              && MatchToken(t + tail).value.length == |t|
    {
      MatchPrintable(t, tail);
    }
  }

  /** Printable tokens joined with single spaces tokenize back to the same list. */
  lemma LexJoined(ts: seq<string>)
    requires |ts| > 0 && forall i :: 0 <= i < |ts| ==> Printable(ts[i])
    ensures Lex(Join(ts, ' ')) == Success(ts)
  {
    MatchTokenConsumes();
    MatchTokenSkipsLeadingSpace();
    MatchTokenReadsPrintable();
    LexJoinedWith(MatchToken, ts);
    LexIsLexWith(Join(ts, ' '));
  }

  /** A lexeme `p` matched exactly in front of `rest`. */
  lemma LexPiece(p: string, rest: string)
    requires MatchToken(p + rest).Some? && MatchToken(p + rest).value.length == |p|
    ensures Lex(p + rest) == Prepend([TokenOf(MatchToken(p + rest).value)], |p|, Lex(rest))
  {
    MatchTokenConsumes();
    assert (p + rest)[|p|..] == rest;
  }

  lemma LexOpenParen(rest: string)
    ensures Lex("(" + rest) == Prepend(["("], 1, Lex(rest))
  {
    MatchOpenParen(rest);
    LexPiece("(", rest);
  }

  lemma LexCloseParen(rest: string)
    ensures Lex(")" + rest) == Prepend([")"], 1, Lex(rest))
  {
    MatchCloseParen(rest);
    LexPiece(")", rest);
  }

  /** A plain word, then something that ends it. */
  lemma LexWord(w: string, rest: string)
    requires PlainWord(w) && (rest == [] || !IsBareChar(rest[0]))
    ensures Lex(w + rest) == Prepend([w], |w|, Lex(rest))
  {
    MatchWord(w, rest);
    LexPiece(w, rest);
  }

  /** A blank in front of a lexeme that is matched exactly. */
  lemma LexSpaced(p: string, rest: string, m: TokenMatch)
    requires MatchToken(p + rest) == Some(m) && m.length == |p|
    ensures Lex([' '] + p + rest) == Prepend([TokenOf(m)], |p| + 1, Lex(rest))
  {
    assert [' '] + p + rest == [' '] + (p + rest);
    MatchAfterSpace(' ', p + rest);
    LexPiece([' '] + p, rest);
  }

  lemma TokenOfText(m: TokenMatch)
    requires m.group == 4 || m.group == 5
    ensures TokenOf(m) == m.text
  {
  }

  /** A blank, then a plain word. */
  lemma LexSpacedWord(w: string, rest: string)
    requires PlainWord(w) && (rest == [] || !IsBareChar(rest[0]))
    ensures Lex([' '] + w + rest) == Prepend([w], |w| + 1, Lex(rest))
  {
    MatchWord(w, rest);
    var m := TokenMatch(5, w, |w|);
    TokenOfText(m);
    LexSpaced(w, rest, m);
  }

  /** A blank, then an upper-case operator keyword. */
  lemma LexSpacedKeyword(kw: string, rest: string)
    requires IsOperator(kw) && (rest == [] || !IsWordChar(rest[0]))
    ensures Lex([' '] + kw + rest) == Prepend([kw], |kw| + 1, Lex(rest))
  {
    MatchKeyword(kw, rest);
    var m := TokenMatch(3, kw, |kw|);
    TokenOfKeyword(kw);
    LexSpaced(kw, rest, m);
  }

  lemma TokenOfKeyword(kw: string)
    requires IsOperator(kw)
    ensures TokenOf(TokenMatch(3, kw, |kw|)) == kw
  {
    assert Upper(kw) == kw;
  }

  /** A blank, then a quoted phrase: the token is the text between the quotes. */
  lemma LexSpacedPhrase(p: string, rest: string)
    requires p != [] && forall k :: 0 <= k < |p| ==> p[k] != '"'
    ensures Lex([' ', '"'] + p + ['"'] + rest) == Prepend([p], |p| + 3, Lex(rest))
  {
    MatchPhrase(p, rest);
    assert [' ', '"'] + p + ['"'] + rest == [' '] + (['"'] + p + ['"'] + rest);
    MatchAfterSpace(' ', ['"'] + p + ['"'] + rest);
    assert [' ', '"'] + p + ['"'] + rest == ([' ', '"'] + p + ['"']) + rest;
    LexPiece([' ', '"'] + p + ['"'], rest);
  }
}
