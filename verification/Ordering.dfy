/** Python's string order and its stable sort, for any total preorder. */
module Ordering {

  /** `a <= b` on strings. */
  predicate StringLeq(a: string, b: string) {
    a == [] || (b != [] && (a[0] < b[0] || (a[0] == b[0] && StringLeq(a[1..], b[1..]))))
  }

  /** One string is at most another exactly when it is a prefix of it or has the smaller
      character where they first differ. */
  lemma {:induction false} StringLeqMeans(a: string, b: string)
    ensures StringLeq(a, b) <==> a <= b || exists k :: FirstDifferSmaller(a, b, k)
    decreases |a|
  {
    if a != [] && b != [] && a[0] == b[0] {
      StringLeqMeans(a[1..], b[1..]);
      assert a <= b <==> a[1..] <= b[1..] by {
        if a[1..] <= b[1..] { assert b[..|a|] == [a[0]] + b[1..][..|a| - 1]; }
        if a <= b { assert b[1..][..|a| - 1] == a[1..]; }
      }
      if k :| FirstDifferSmaller(a[1..], b[1..], k) { assert FirstDifferSmaller(a, b, k + 1); }
      if k :| FirstDifferSmaller(a, b, k) {
        assert a[1..][..k - 1] == a[..k][1..] && b[1..][..k - 1] == b[..k][1..];
        assert FirstDifferSmaller(a[1..], b[1..], k - 1);
      }
    } else if a != [] && b != [] {
      if a[0] < b[0] { assert FirstDifferSmaller(a, b, 0); }
      if k :| FirstDifferSmaller(a, b, k) { FirstCharacters(a, b, k); }
    }
  }

  predicate FirstDifferSmaller(a: string, b: string, k: int) {
    0 <= k < |a| && k < |b| && a[..k] == b[..k] && a[k] < b[k]
  }

  lemma FirstCharacters(a: string, b: string, k: int)
    requires FirstDifferSmaller(a, b, k)
    ensures a[0] < b[0] || a[0] == b[0]
  {
    if k > 0 { assert a[..k][0] == b[..k][0]; }
  }

  lemma {:induction false} StringTotal(a: string, b: string)
    ensures StringLeq(a, b) || StringLeq(b, a)
    decreases |a|
  {
    if a != [] && b != [] { StringTotal(a[1..], b[1..]); }
  }

  lemma {:induction false} StringAntisymmetric(a: string, b: string)
    requires StringLeq(a, b) && StringLeq(b, a)
    ensures a == b
    decreases |a|
  {
    if a != [] {
      StringAntisymmetric(a[1..], b[1..]);
      assert a == [a[0]] + a[1..] && b == [b[0]] + b[1..];
    }
  }

  lemma {:induction false} StringTransitive(a: string, b: string, c: string)
    requires StringLeq(a, b) && StringLeq(b, c)
    ensures StringLeq(a, c)
    decreases |a|
  {
    if a != [] && a[0] == b[0] == c[0] { StringTransitive(a[1..], b[1..], c[1..]); }
  }

  ghost predicate IsTotal<T(!new)>(leq: (T, T) -> bool) {
    forall a, b :: leq(a, b) || leq(b, a)
  }

  ghost predicate IsTransitive<T(!new)>(leq: (T, T) -> bool) {
    forall a, b, c :: leq(a, b) && leq(b, c) ==> leq(a, c)
  }

  /** Every element of `s` is at most `x`. */
  predicate AtMost<T>(leq: (T, T) -> bool, s: seq<T>, x: T) {
    forall i :: 0 <= i < |s| ==> leq(s[i], x)
  }

  predicate IsSorted<T>(leq: (T, T) -> bool, s: seq<T>) {
    forall j :: 0 <= j < |s| ==> AtMost(leq, s[..j], s[j])
  }

  /** `x` put after every element that is not greater. */
  function Insert<T>(leq: (T, T) -> bool, x: T, s: seq<T>): seq<T> {
    if s == [] || leq(s[|s| - 1], x) then s + [x]
    else Insert(leq, x, s[..|s| - 1]) + [s[|s| - 1]]
  }

  /** `sorted(s)`: stable, so equal elements keep their order. */
  function Sort<T>(leq: (T, T) -> bool, s: seq<T>): seq<T> {
    if s == [] then [] else Insert(leq, s[|s| - 1], Sort(leq, s[..|s| - 1]))
  }

  function Filter<T>(p: T -> bool, s: seq<T>): seq<T> {
    if s == [] then [] else
    Filter(p, s[..|s| - 1]) + if p(s[|s| - 1]) then [s[|s| - 1]] else []
  }

  lemma SplitLast<T>(s: seq<T>)
    requires s != []
    ensures s == s[..|s| - 1] + [s[|s| - 1]]
    ensures multiset(s) == multiset(s[..|s| - 1]) + multiset{s[|s| - 1]}
  {
    assert s == s[..|s| - 1] + [s[|s| - 1]];
  }

  lemma SortedPrefix<T>(leq: (T, T) -> bool, s: seq<T>, n: nat)
    requires IsSorted(leq, s) && n <= |s|
    ensures IsSorted(leq, s[..n])
  {
    forall j | 0 <= j < n ensures AtMost(leq, s[..n][..j], s[..n][j]) {
      assert s[..n][..j] == s[..j];
      assert AtMost(leq, s[..j], s[j]);
    }
  }

  lemma SortedSnoc<T>(leq: (T, T) -> bool, s: seq<T>, x: T)
    requires IsSorted(leq, s) && AtMost(leq, s, x)
    ensures IsSorted(leq, s + [x])
  {
    var t := s + [x];
    forall j | 0 <= j < |t| ensures AtMost(leq, t[..j], t[j]) {
      if j < |s| {
        assert t[..j] == s[..j] && AtMost(leq, s[..j], s[j]);
      } else {
        assert t[..j] == s;
      }
    }
  }

  /** A sorted sequence is at most `x` if its last element is. */
  lemma LastBounds<T(!new)>(leq: (T, T) -> bool, s: seq<T>, x: T)
    requires IsTransitive(leq) && IsSorted(leq, s) && s != [] && leq(s[|s| - 1], x)
    ensures AtMost(leq, s, x)
  {
    var n := |s| - 1;
    assert AtMost(leq, s[..n], s[n]);
    forall i | 0 <= i < |s| ensures leq(s[i], x) {
      if i < n { assert leq(s[..n][i], s[n]); }
    }
  }

  lemma {:induction false} InsertKeepsElements<T>(leq: (T, T) -> bool, x: T, s: seq<T>)
    ensures multiset(Insert(leq, x, s)) == multiset(s) + multiset{x}
    decreases |s|
  {
    if s != [] && !leq(s[|s| - 1], x) {
      InsertKeepsElements(leq, x, s[..|s| - 1]);
      SplitLast(s);
    }
  }

  lemma {:induction false} InsertKeepsBound<T>(leq: (T, T) -> bool, x: T, s: seq<T>, top: T)
    requires AtMost(leq, s, top) && leq(x, top)
    ensures AtMost(leq, Insert(leq, x, s), top)
    decreases |s|
  {
    if s != [] && !leq(s[|s| - 1], x) { InsertKeepsBound(leq, x, s[..|s| - 1], top); }
  }

  lemma {:induction false} InsertSorts<T(!new)>(leq: (T, T) -> bool, x: T, s: seq<T>)
    requires IsTotal(leq) && IsTransitive(leq) && IsSorted(leq, s)
    ensures IsSorted(leq, Insert(leq, x, s))
    decreases |s|
  {
    if s == [] {
      SortedSnoc(leq, s, x);
    } else if leq(s[|s| - 1], x) {
      LastBounds(leq, s, x);
      SortedSnoc(leq, s, x);
    } else {
      var n := |s| - 1;
      SortedPrefix(leq, s, n);
      InsertSorts(leq, x, s[..n]);
      assert AtMost(leq, s[..n], s[n]);
      InsertKeepsBound(leq, x, s[..n], s[n]);
      SortedSnoc(leq, Insert(leq, x, s[..n]), s[n]);
    }
  }

  lemma {:induction false} SortSorts<T(!new)>(leq: (T, T) -> bool, s: seq<T>)
    requires IsTotal(leq) && IsTransitive(leq)
    ensures IsSorted(leq, Sort(leq, s))
    decreases |s|
  {
    if s != [] {
      SortSorts(leq, s[..|s| - 1]);
      InsertSorts(leq, s[|s| - 1], Sort(leq, s[..|s| - 1]));
    }
  }

  lemma {:induction false} SortKeepsElements<T>(leq: (T, T) -> bool, s: seq<T>)
    ensures multiset(Sort(leq, s)) == multiset(s)
    decreases |s|
  {
    if s != [] {
      SortKeepsElements(leq, s[..|s| - 1]);
      InsertKeepsElements(leq, s[|s| - 1], Sort(leq, s[..|s| - 1]));
      SplitLast(s);
    }
  }

  lemma {:induction false} FilterMembers<T>(p: T -> bool, s: seq<T>)
    ensures forall x :: x in Filter(p, s) <==> x in s && p(x)
    ensures forall x :: multiset(Filter(p, s))[x] == if p(x) then multiset(s)[x] else 0
    decreases |s|
  {
    if s != [] {
      FilterMembers(p, s[..|s| - 1]);
      SplitLast(s);
    }
  }

  lemma {:induction false} FilterNone<T>(p: T -> bool, s: seq<T>)
    requires forall i :: 0 <= i < |s| ==> !p(s[i])
    ensures Filter(p, s) == []
    decreases |s|
  {
    if s != [] { FilterNone(p, s[..|s| - 1]); }
  }

  lemma FilterSnoc<T>(p: T -> bool, s: seq<T>, x: T)
    ensures Filter(p, s + [x]) == Filter(p, s) + if p(x) then [x] else []
  {
    assert (s + [x])[..|s|] == s;
  }

  lemma {:induction false} FilterAppend<T>(p: T -> bool, a: seq<T>, b: seq<T>)
    ensures Filter(p, a + b) == Filter(p, a) + Filter(p, b)
    decreases |b|
  {
    if b == [] {
      assert a + b == a;
    } else {
      var n := |b| - 1;
      FilterAppend(p, a, b[..n]);
      FilterSnoc(p, a + b[..n], b[n]);
      assert a + b == a + b[..n] + [b[n]];
    }
  }

  /** Filtering keeps the last element's bound. */
  lemma FilterBound<T>(leq: (T, T) -> bool, p: T -> bool, s: seq<T>, x: T)
    requires AtMost(leq, s, x)
    ensures AtMost(leq, Filter(p, s), x)
  {
    var f := Filter(p, s);
    forall i | 0 <= i < |f| ensures leq(f[i], x) {
      FilterMember(p, s, f[i]);
    }
  }

  lemma {:induction false} FilterMember<T>(p: T -> bool, s: seq<T>, y: T)
    requires y in Filter(p, s)
    ensures exists k | 0 <= k < |s| :: s[k] == y
    decreases |s|
  {
    var n := |s| - 1;
    if y in Filter(p, s[..n]) {
      FilterMember(p, s[..n], y);
      var k :| 0 <= k < n && s[..n][k] == y;
      assert s[k] == y;
    }
  }

  lemma InsertAtEnd<T>(leq: (T, T) -> bool, x: T, s: seq<T>)
    requires AtMost(leq, s, x)
    ensures Insert(leq, x, s) == s + [x]
  {
  }

  lemma InsertBeforeLast<T>(leq: (T, T) -> bool, x: T, s: seq<T>, y: T)
    requires !leq(y, x)
    ensures Insert(leq, x, s + [y]) == Insert(leq, x, s) + [y]
  {
    assert (s + [y])[..|s|] == s;
  }

  lemma {:induction false} FilterInsert<T(!new)>(leq: (T, T) -> bool, p: T -> bool, x: T, s: seq<T>)
    requires IsTransitive(leq) && IsSorted(leq, s)
    ensures Filter(p, Insert(leq, x, s)) == if p(x) then Insert(leq, x, Filter(p, s)) else Filter(p, s)
    decreases |s|
  {
    if s == [] || leq(s[|s| - 1], x) {
      if s != [] { LastBounds(leq, s, x); }
      FilterSnoc(p, s, x);
      FilterBound(leq, p, s, x);
      InsertAtEnd(leq, x, Filter(p, s));
    } else {
      var n := |s| - 1;
      SortedPrefix(leq, s, n);
      FilterInsert(leq, p, x, s[..n]);
      var f := Filter(p, s[..n]);
      FilterSnoc(p, Insert(leq, x, s[..n]), s[n]);
      if p(s[n]) {
        InsertBeforeLast(leq, x, f, s[n]);
      } else {
        assert Filter(p, s) == f + [] == f;
        assert forall t: seq<T> :: t + [] == t;
      }
    }
  }

  lemma SortFiltered<T>(leq: (T, T) -> bool, p: T -> bool, s: seq<T>)
    requires s != []
    ensures var n := |s| - 1; var f := Filter(p, s[..n]);
      Sort(leq, Filter(p, s)) == if p(s[n]) then Insert(leq, s[n], Sort(leq, f)) else Sort(leq, f)
  {
    var n := |s| - 1;
    var f := Filter(p, s[..n]);
    if p(s[n]) {
      SortSnoc(leq, f, s[n]);
    } else {
      assert f + [] == f;
    }
  }

  /** Because the sort is stable, sorting and filtering commute. */
  lemma {:induction false} FilterSort<T(!new)>(leq: (T, T) -> bool, p: T -> bool, s: seq<T>)
    requires IsTotal(leq) && IsTransitive(leq)
    ensures Filter(p, Sort(leq, s)) == Sort(leq, Filter(p, s))
    decreases |s|
  {
    if s != [] {
      var n := |s| - 1;
      FilterSort(leq, p, s[..n]);
      SortSorts(leq, s[..n]);
      FilterInsert(leq, p, s[n], Sort(leq, s[..n]));
      SortFiltered(leq, p, s);
    }
  }

  lemma SortSnoc<T>(leq: (T, T) -> bool, s: seq<T>, x: T)
    ensures Sort(leq, s + [x]) == Insert(leq, x, Sort(leq, s))
  {
    assert (s + [x])[..|s|] == s;
  }

  /** Elements that tie are equal. */
  ghost predicate TiesAreEqual<T>(leq: (T, T) -> bool, s: seq<T>) {
    forall a, b :: a in s && b in s && leq(a, b) && leq(b, a) ==> a == b
  }

  lemma IsAtMostLast<T(!new)>(leq: (T, T) -> bool, s: seq<T>, x: T)
    requires IsTotal(leq) && IsSorted(leq, s) && x in s
    ensures leq(x, s[|s| - 1])
  {
    var n := |s| - 1;
    var i :| 0 <= i <= n && s[i] == x;
    assert AtMost(leq, s[..n], s[n]);
    if i < n { assert s[..n][i] == x; }
  }

  lemma SameWithoutLast<T>(a: seq<T>, b: seq<T>)
    requires a != [] && |a| == |b| && multiset(a) == multiset(b) && a[|a| - 1] == b[|b| - 1]
    ensures multiset(a[..|a| - 1]) == multiset(b[..|b| - 1])
  {
    SplitLast(a);
    SplitLast(b);
    assert multiset(a[..|a| - 1]) == multiset(a) - multiset{a[|a| - 1]};
  }

  /** Without ties there is only one sorted arrangement. */
  lemma {:induction false} SortedIsUnique<T(!new)>(leq: (T, T) -> bool, a: seq<T>, b: seq<T>)
    requires IsTotal(leq) && IsSorted(leq, a) && IsSorted(leq, b)
    requires multiset(a) == multiset(b) && TiesAreEqual(leq, a)
    ensures a == b
    decreases |a|
  {
    assert |a| == |multiset(a)| == |multiset(b)| == |b|;
    if a != [] {
      var n := |a| - 1;
      assert a[n] in multiset(b) && b[n] in multiset(a);
      IsAtMostLast(leq, b, a[n]);
      IsAtMostLast(leq, a, b[n]);
      assert a[n] == b[n];
      SameWithoutLast(a, b);
      SortedPrefix(leq, a, n);
      SortedPrefix(leq, b, n);
      assert TiesAreEqual(leq, a[..n]);
      SortedIsUnique(leq, a[..n], b[..n]);
      SplitLast(a);
      SplitLast(b);
    }
  }
}
