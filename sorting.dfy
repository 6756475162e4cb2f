/** Python's `sorted(xs, key=...)` and `list.sort(key=...)` are stable sorts.
    The model gives them one definition, a stable insertion sort ordered by a
    "sorts strictly before" relation, and proves what the callers rely on:
    the result is ordered, is a permutation of the input, and keeps tied
    elements in their original order. */
module Sorting {
  import opened PyText

  /** `before(a, b)` says that `a` must come before `b`: a strict weak order. */
  ghost predicate StrictWeakOrder<T(!new)>(before: (T, T) -> bool) {
    && (forall a, b :: before(a, b) ==> !before(b, a))
    && (forall a, b, c :: !before(a, b) && !before(b, c) ==> !before(a, c))
  }

  /** Neither of `a`, `b` sorts before the other. */
  predicate Tied<T>(a: T, b: T, before: (T, T) -> bool) {
    !before(a, b) && !before(b, a)
  }

  /** No later element sorts before an earlier one. */
  ghost predicate Ordered<T>(s: seq<T>, before: (T, T) -> bool) {
    forall i, j :: 0 <= i < j < |s| ==> !before(s[j], s[i])
  }

  /** Inserts `x` in front of the first element that does not sort before it. */
  function Insert<T>(x: T, s: seq<T>, before: (T, T) -> bool): (r: seq<T>)
    ensures multiset(r) == multiset(s) + multiset{x}
  {
    if s == [] || !before(s[0], x) then [x] + s
    else
      assert s == [s[0]] + s[1..];
      [s[0]] + Insert(x, s[1..], before)
  }

  /** The stable sort: each element is inserted ahead of the later elements it ties with. */
  function SortBy<T>(xs: seq<T>, before: (T, T) -> bool): (r: seq<T>)
    ensures multiset(r) == multiset(xs)
  {
    if xs == [] then []
    else
      assert xs == [xs[0]] + xs[1..];
      Insert(xs[0], SortBy(xs[1..], before), before)
  }

  /** The elements of `s` tied with `v`, in their order in `s`. */
  function TiesOf<T>(s: seq<T>, v: T, before: (T, T) -> bool): seq<T> {
    if s == [] then []
    else (if Tied(s[0], v, before) then [s[0]] else []) + TiesOf(s[1..], v, before)
  }

  lemma {:induction false} InsertOrdered<T(!new)>(x: T, s: seq<T>, before: (T, T) -> bool)
    requires StrictWeakOrder(before) && Ordered(s, before)
    ensures Ordered(Insert(x, s, before), before)
  {
    if s != [] && before(s[0], x) {
      var rest := Insert(x, s[1..], before);
      assert Ordered(s[1..], before) by {
        forall i, j | 0 <= i < j < |s| - 1 ensures !before(s[1..][j], s[1..][i]) {
          assert s[1..][j] == s[j + 1] && s[1..][i] == s[i + 1];
        }
      }
      InsertOrdered(x, s[1..], before);
      var r := [s[0]] + rest;
      forall k | 0 <= k < |rest| ensures !before(rest[k], s[0]) {
        assert rest[k] in multiset(rest);
        assert rest[k] in multiset(s[1..]) || rest[k] == x;
        if rest[k] != x {
          var m :| 0 <= m < |s[1..]| && s[1..][m] == rest[k];
          assert s[m + 1] == rest[k];
        }
      }
      forall i, j | 0 <= i < j < |r| ensures !before(r[j], r[i]) {
        if i > 0 {
          assert r[j] == rest[j - 1] && r[i] == rest[i - 1];
        } else {
          assert r[j] == rest[j - 1];
        }
      }
    } else if s != [] {
      var r := [x] + s;
      forall i, j | 0 <= i < j < |r| ensures !before(r[j], r[i]) {
        if i == 0 {
          assert !before(s[j - 1], s[0]) || j - 1 == 0;
        } else {
          assert r[j] == s[j - 1] && r[i] == s[i - 1];
        }
      }
    }
  }

  /** The sort orders its input. */
  lemma {:induction false} SortByOrdered<T(!new)>(xs: seq<T>, before: (T, T) -> bool)
    requires StrictWeakOrder(before)
    ensures Ordered(SortBy(xs, before), before)
  {
    if xs != [] {
      SortByOrdered(xs[1..], before);
      InsertOrdered(xs[0], SortBy(xs[1..], before), before);
    }
  }

  lemma {:induction false} InsertTies<T(!new)>(x: T, s: seq<T>, v: T, before: (T, T) -> bool)
    requires StrictWeakOrder(before)
    ensures TiesOf(Insert(x, s, before), v, before)
         == (if Tied(x, v, before) then [x] else []) + TiesOf(s, v, before)
  {
    var tx := if Tied(x, v, before) then [x] else [];
    if s != [] && before(s[0], x) {
      var ins := Insert(x, s[1..], before);
      var t0 := if Tied(s[0], v, before) then [s[0]] else [];
      InsertTies(x, s[1..], v, before);
      assert Insert(x, s, before) == [s[0]] + ins;
      assert ([s[0]] + ins)[1..] == ins;
      assert TiesOf([s[0]] + ins, v, before) == t0 + TiesOf(ins, v, before);
      assert TiesOf(s, v, before) == t0 + TiesOf(s[1..], v, before);
      if Tied(s[0], v, before) && Tied(x, v, before) {
        assert false;
      }
      assert t0 + tx == tx + t0;
    } else {
      assert Insert(x, s, before) == [x] + s;
      assert ([x] + s)[1..] == s;
    }
  }

  /** Stability: the elements tied with any `v` leave the sort in the order they came in. */
  lemma {:induction false} SortByStable<T(!new)>(xs: seq<T>, v: T, before: (T, T) -> bool)
    requires StrictWeakOrder(before)
    ensures TiesOf(SortBy(xs, before), v, before) == TiesOf(xs, v, before)
  {
    if xs != [] {
      SortByStable(xs[1..], v, before);
      InsertTies(xs[0], SortBy(xs[1..], before), v, before);
    }
  }

  /** Sorting an already ordered sequence changes nothing. */
  lemma {:induction false} SortByOrderedIdentity<T>(xs: seq<T>, before: (T, T) -> bool)
    requires Ordered(xs, before)
    ensures SortBy(xs, before) == xs
  {
    if xs != [] {
      assert Ordered(xs[1..], before) by {
        forall i, j | 0 <= i < j < |xs| - 1 ensures !before(xs[1..][j], xs[1..][i]) {
          assert xs[1..][j] == xs[j + 1] && xs[1..][i] == xs[i + 1];
        }
      }
      SortByOrderedIdentity(xs[1..], before);
      if |xs| > 1 {
        assert !before(xs[1], xs[0]);
      }
      assert xs == [xs[0]] + xs[1..];
    }
  }

  // ---------- ordering strings ----------

  /** `<` on `str` as the relation `sorted` orders by. */
  function StrBefore(a: string, b: string): bool {
    StrLess(a, b)
  }

  lemma StrBeforeOrder()
    ensures StrictWeakOrder(StrBefore)
  {
    forall a, b | StrBefore(a, b) ensures !StrBefore(b, a) {
      if StrLess(b, a) {
        StrLessTransitive(a, b, a);
        StrLessIrreflexive(a);
      }
    }
    forall a, b, c | !StrBefore(a, b) && !StrBefore(b, c) ensures !StrBefore(a, c) {
      StrLessTotal(a, b);
      StrLessTotal(b, c);
      if StrLess(a, c) {
        if a == b {
        } else if b == c {
        } else {
          StrLessTransitive(b, a, c);
          StrLessTransitive(c, b, a);
          StrLessIrreflexive(a);
        }
      }
    }
  }
}
