/** The whitespace tokenizers over raw bytes: every byte up to 32 (space and
    the control characters) separates tokens, every byte above 32 belongs to
    one. Tokens are kept as bytes; decoding them is not modelled. */
module TextProcessing {

  newtype byte = x: int | 0 <= x < 256

  predicate IsSeparator(b: byte) { b <= 32 }

  /** No separator in `w`. */
  predicate AllToken(w: seq<byte>) {
    forall i :: 0 <= i < |w| ==> !IsSeparator(w[i])
  }

  /** The length of the run of token bytes at the front of `s`. */
  function TokenLen(s: seq<byte>): (n: nat)
    ensures n <= |s| && AllToken(s[..n]) && (n == |s| || IsSeparator(s[n]))
    ensures s != [] && !IsSeparator(s[0]) ==> n > 0
  {
    if s == [] || IsSeparator(s[0]) then 0
    else
      var n := 1 + TokenLen(s[1..]);
      assert forall i :: 1 <= i < n ==> s[..n][i] == s[1..][..n - 1][i - 1];
      n
  }

  /** The maximal runs of token bytes of `s`, in order. */
  function Runs(s: seq<byte>): (r: seq<seq<byte>>)
    ensures forall i :: 0 <= i < |r| ==> r[i] != [] && AllToken(r[i])
    decreases |s|
  {
    if s == [] then []
    else if IsSeparator(s[0]) then Runs(s[1..])
    else
      var n := TokenLen(s);
      [s[..n]] + Runs(s[n..])
  }

  // ---------- what the runs are ----------

  /** A separator-free non-empty string is one run. */
  lemma RunsOfToken(w: seq<byte>)
    requires w != [] && AllToken(w)
    ensures Runs(w) == [w]
  {
    TokenLenAll(w);
    assert w[..|w|] == w && w[|w|..] == [];
  }

  lemma {:induction false} TokenLenAll(w: seq<byte>)
    requires AllToken(w)
    ensures TokenLen(w) == |w|
    decreases |w|
  {
    if w != [] {
      assert AllToken(w[1..]);
      TokenLenAll(w[1..]);
    }
  }

  /** A run of token bytes followed by a separator: the separator ends it. */
  lemma {:induction false} TokenLenBefore(w: seq<byte>, t: seq<byte>)
    requires AllToken(w) && (t == [] || IsSeparator(t[0]))
    ensures TokenLen(w + t) == |w|
    decreases |w|
  {
    if w != [] {
      assert (w + t)[1..] == w[1..] + t;
      TokenLenBefore(w[1..], t);
    } else {
      assert w + t == t;
    }
  }

  /** Text that ends in a separator, or nothing, splits cleanly from what follows. */
  lemma {:induction false} RunsAppend(a: seq<byte>, b: seq<byte>)
    requires a == [] || IsSeparator(a[|a| - 1])
    ensures Runs(a + b) == Runs(a) + Runs(b)
    decreases |a|
  {
    if a == [] {
      assert a + b == b;
    } else if IsSeparator(a[0]) {
      assert (a + b)[1..] == a[1..] + b;
      RunsAppend(a[1..], b);
    } else {
      var n := TokenLen(a);
      assert n < |a|;
      assert a == a[..n] + a[n..];
      assert a + b == a[..n] + (a[n..] + b);
      TokenLenBefore(a[..n], a[n..] + b);
      TokenLenBefore(a[..n], a[n..]);
      assert (a + b)[..n] == a[..n] && (a + b)[n..] == a[n..] + b;
      RunsAppend(a[n..], b);
    }
  }

  /** Adding a separator at the end adds no run. */
  lemma RunsSeparator(a: seq<byte>, b: byte)
    requires IsSeparator(b)
    ensures Runs(a + [b]) == Runs(a)
  {
    RunsUpToSeparator(a, b);
  }

  lemma {:induction false} RunsUpToSeparator(a: seq<byte>, b: byte)
    requires IsSeparator(b)
    ensures Runs(a + [b]) == Runs(a)
    decreases |a|
  {
    if a == [] {
      assert Runs([b]) == Runs([b][1..]);
    } else if IsSeparator(a[0]) {
      assert (a + [b])[1..] == a[1..] + [b];
      RunsUpToSeparator(a[1..], b);
    } else {
      var n := TokenLen(a);
      TokenLenBefore(a[..n], a[n..] + [b]);
      assert a == a[..n] + a[n..];
      assert a + [b] == a[..n] + (a[n..] + [b]);
      assert (a + [b])[..n] == a[..n] && (a + [b])[n..] == a[n..] + [b];
      TokenLenBefore(a[..n], a[n..]);
      RunsUpToSeparator(a[n..], b);
    }
  }

  /** All the runs, end to end. */
  function Flatten(ws: seq<seq<byte>>): seq<byte> {
    if ws == [] then [] else ws[0] + Flatten(ws[1..])
  }

  /** The token bytes of `s`, in order. */
  function TokenBytes(s: seq<byte>): (r: seq<byte>)
    ensures AllToken(r)
  {
    if s == [] then []
    else if IsSeparator(s[0]) then TokenBytes(s[1..])
    else [s[0]] + TokenBytes(s[1..])
  }

  lemma {:induction false} TokenBytesOfToken(w: seq<byte>, t: seq<byte>)
    requires AllToken(w)
    ensures TokenBytes(w + t) == w + TokenBytes(t)
    decreases |w|
  {
    if w == [] {
      assert w + t == t;
    } else {
      assert (w + t)[1..] == w[1..] + t;
      TokenBytesOfToken(w[1..], t);
      assert w == [w[0]] + w[1..];
    }
  }

  lemma FlattenCons(w: seq<byte>, ws: seq<seq<byte>>)
    ensures Flatten([w] + ws) == w + Flatten(ws)
  {
    assert ([w] + ws)[1..] == ws;
  }

  /** The runs, put back together, are the input without its separators. */
  lemma {:induction false} FlattenRuns(s: seq<byte>)
    ensures Flatten(Runs(s)) == TokenBytes(s)
    decreases |s|
  {
    if s != [] {
      if IsSeparator(s[0]) {
        FlattenRuns(s[1..]);
      } else {
        var n := TokenLen(s);
        FlattenRuns(s[n..]);
        FlattenCons(s[..n], Runs(s[n..]));
        assert s == s[..n] + s[n..];
        TokenBytesOfToken(s[..n], s[n..]);
      }
    }
  }

  // ---------- the byte loops ----------

  /** `_py_count_tokens_ws`: counts the bytes that start a run. */
  method PyCountTokens(data: seq<byte>) returns (cnt: nat)
    ensures cnt == |Runs(data)|
  {
    var inTok := false;
    cnt := 0;
    ghost var start := 0;
    for i := 0 to |data|
      invariant !inTok ==> cnt == |Runs(data[..i])| && (i == 0 || IsSeparator(data[i - 1]))
      invariant inTok ==> start < i && cnt == |Runs(data[..start])| + 1 && AllToken(data[start..i])
                          && (start == 0 || IsSeparator(data[start - 1]))
    {
      if IsSeparator(data[i]) {
        if inTok {
          SplitAtRunEnd(data, start, i);
        } else {
          SkipSeparator(data, i);
        }
        inTok := false;
      } else {
        if !inTok {
          cnt := cnt + 1;
          inTok := true;
          start := i;
        }
        ExtendRun(data, start, i);
      }
    }
    if inTok {
      SplitAtEnd(data, start);
    }
    assert data[..|data|] == data;
  }

  /** A separator outside a run adds no run to the prefix. */
  lemma SkipSeparator(data: seq<byte>, i: nat)
    requires i < |data| && IsSeparator(data[i])
    ensures Runs(data[..i + 1]) == Runs(data[..i])
  {
    assert data[..i + 1] == data[..i] + [data[i]];
    RunsSeparator(data[..i], data[i]);
  }

  /** A token byte lengthens the current run. */
  lemma ExtendRun(data: seq<byte>, start: nat, i: nat)
    requires start <= i < |data| && !IsSeparator(data[i]) && AllToken(data[start..i])
    ensures AllToken(data[start..i + 1])
  {
    assert data[start..i + 1] == data[start..i] + [data[i]];
  }

  /** A run of `data` from `start` up to the separator at `i`. */
  lemma SplitAtRunEnd(data: seq<byte>, start: nat, i: nat)
    requires start < i < |data| && IsSeparator(data[i]) && AllToken(data[start..i])
    requires start == 0 || IsSeparator(data[start - 1])
    ensures Runs(data[..i + 1]) == Runs(data[..start]) + [data[start..i]]
  {
    var w := data[start..i];
    assert data[..i + 1] == data[..start] + (w + [data[i]]);
    RunsAppend(data[..start], w + [data[i]]);
    RunsSeparator(w, data[i]);
    RunsOfToken(w);
  }

  /** A run that reaches the end of `data`. */
  lemma SplitAtEnd(data: seq<byte>, start: nat)
    requires start < |data| && AllToken(data[start..])
    requires start == 0 || IsSeparator(data[start - 1])
    ensures Runs(data) == Runs(data[..start]) + [data[start..]]
  {
    assert data == data[..start] + data[start..];
    RunsAppend(data[..start], data[start..]);
    RunsOfToken(data[start..]);
  }

  /** `_py_split_tokens_ws`: collects the runs, the last one even without a separator after it. */
  method PySplitTokens(data: seq<byte>) returns (buf: seq<seq<byte>>)
    ensures buf == Runs(data)
  {
    buf := [];
    var start: int := -1;
    for i := 0 to |data|
      invariant start < 0 ==> start == -1 && buf == Runs(data[..i]) && (i == 0 || IsSeparator(data[i - 1]))
      invariant start >= 0 ==> start < i && buf == Runs(data[..start]) && AllToken(data[start..i])
                               && (start == 0 || IsSeparator(data[start - 1]))
    {
      if IsSeparator(data[i]) {
        if start >= 0 {
          SplitAtRunEnd(data, start, i);
          buf := buf + [data[start..i]];
          start := -1;
        } else {
          SkipSeparator(data, i);
        }
      } else {
        if start < 0 {
          start := i;
        }
        ExtendRun(data, start, i);
      }
    }
    if start >= 0 {
      SplitAtEnd(data, start);
      buf := buf + [data[start..]];
    }
    assert data[..|data|] == data;
  }

  /** `count_tokens_ws`, taking the pure-Python path. */
  method CountTokens(data: seq<byte>) returns (n: nat)
    ensures n == |Runs(data)|
  {
    n := PyCountTokens(data);
  }

  /** `split_tokens_ws`, taking the pure-Python path. */
  method SplitTokens(data: seq<byte>) returns (ws: seq<seq<byte>>)
    ensures ws == Runs(data)
    ensures |ws| == |Runs(data)| && Flatten(ws) == TokenBytes(data)
  {
    ws := PySplitTokens(data);
    FlattenRuns(data);
  }

  // ---------- the example of the tests ----------

  const Hello: seq<byte> := [104, 101, 108, 108, 111]
  const World: seq<byte> := [119, 111, 114, 108, 100]
  const This: seq<byte> := [116, 104, 105, 115]
  const Is: seq<byte> := [105, 115]
  const A: seq<byte> := [97]
  const Test: seq<byte> := [116, 101, 115, 116]

  /** The layout of the sample: words separated by runs of spaces, a newline and a tab. */
  function Layout(h: seq<byte>, w: seq<byte>, t: seq<byte>, i: seq<byte>, a: seq<byte>, e: seq<byte>): seq<byte> {
    h + ([32] + ([32] + (w + ([10] + (t + ([9] + (i + ([32] + ([32] + (a + ([32] + (e + [10]))))))))))))
  }

  /** `b"hello  world\nthis\tis  a test\n"`. */
  function Sample(): seq<byte> {
    Layout(Hello, World, This, Is, A, Test)
  }

  /** A word and the separator after it: one run, then whatever follows. */
  lemma RunsWord(w: seq<byte>, b: byte, rest: seq<byte>)
    requires w != [] && AllToken(w) && IsSeparator(b)
    ensures Runs(w + ([b] + rest)) == [w] + Runs(rest)
  {
    assert w + ([b] + rest) == (w + [b]) + rest;
    RunsAppend(w + [b], rest);
    RunsSeparator(w, b);
    RunsOfToken(w);
  }

  /** A leading separator adds nothing. */
  lemma RunsSkip(b: byte, rest: seq<byte>)
    requires IsSeparator(b)
    ensures Runs([b] + rest) == Runs(rest)
  {
    assert ([b] + rest)[1..] == rest;
  }

  /** The last three words of the layout, "is  a test\n". */
  lemma TailRuns(i: seq<byte>, a: seq<byte>, e: seq<byte>)
    requires i != [] && a != [] && e != [] && AllToken(i) && AllToken(a) && AllToken(e)
    ensures Runs(i + ([32] + ([32] + (a + ([32] + (e + [10])))))) == [i, a, e]
  {
    RunsWord(e, 10, []);
    assert e + ([10] + []) == e + [10];
    RunsWord(a, 32, e + [10]);
    RunsSkip(32, a + ([32] + (e + [10])));
    RunsWord(i, 32, [32] + (a + ([32] + (e + [10]))));
    assert [i] + ([a] + [e]) == [i, a, e];
  }

  /** Whatever the six words, the layout splits into them. */
  lemma LayoutRuns(h: seq<byte>, w: seq<byte>, t: seq<byte>, i: seq<byte>, a: seq<byte>, e: seq<byte>)
    requires h != [] && w != [] && t != [] && i != [] && a != [] && e != []
    requires AllToken(h) && AllToken(w) && AllToken(t) && AllToken(i) && AllToken(a) && AllToken(e)
    ensures Runs(Layout(h, w, t, i, a, e)) == [h, w, t, i, a, e]
  {
    var tail := i + ([32] + ([32] + (a + ([32] + (e + [10])))));
    TailRuns(i, a, e);
    RunsWord(t, 9, tail);
    RunsWord(w, 10, t + ([9] + tail));
    RunsSkip(32, w + ([10] + (t + ([9] + tail))));
    RunsWord(h, 32, [32] + (w + ([10] + (t + ([9] + tail)))));
    assert [h] + ([w] + ([t] + [i, a, e])) == [h, w, t, i, a, e];
  }

  /** The sample splits into its six words, so the count is 6. */
  lemma SampleRuns()
    ensures Runs(Sample()) == [Hello, World, This, Is, A, Test]
    ensures |Runs(Sample())| == 6
  {
    LayoutRuns(Hello, World, This, Is, A, Test);
  }
}
