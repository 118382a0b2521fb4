/** Optional values: the source's `None` or a present value. */
module Options {
  datatype Option<+T> = None | Some(value: T)
  {
    function UnwrapOr(default: T): T {
      if Some? then value else default
    }
  }

  /** Left when present, else right: Python's `left or right` on optional values. */
  function OrElse<T>(left: Option<T>, right: Option<T>): Option<T> {
    if left.Some? then left else right
  }
}

/** Minimum, maximum and sum of integers. */
module Numbers {
  function Min(a: int, b: int): int { if a <= b then a else b }

  function Max(a: int, b: int): int { if a <= b then b else a }

  function Sum(parts: seq<int>): int {
    if parts == [] then 0 else Sum(parts[..|parts| - 1]) + parts[|parts| - 1]
  }

  /** Sums keep the order of their parts, and agree only if all parts do. */
  lemma {:induction false} SumsInOrder(a: seq<int>, b: seq<int>)
    requires |a| == |b| && forall i :: 0 <= i < |a| ==> a[i] <= b[i]
    ensures Sum(a) <= Sum(b) && (Sum(a) == Sum(b) <==> a == b)
  {
    if a != [] {
      var n := |a| - 1;
      SumsInOrder(a[..n], b[..n]);
      assert a == a[..n] + [a[n]] && b == b[..n] + [b[n]];
    }
  }
}

/** `round(x, 2)` on exact quotients: hundredths, nearest, ties to the even neighbour. */
module Rounding {
  function RoundDiv(n: int, d: int): (q: int)
    requires d > 0
    ensures -d <= 2 * (q * d - n) <= d
  {
    var q, r := n / d, n % d;
    assert n == q * d + r;
    assert (q + 1) * d == q * d + d;
    if 2 * r < d then q else if 2 * r > d then q + 1 else if q % 2 == 0 then q else q + 1
  }

  /** `q` is a nearest integer of n / d, and of two equally near ones the even one. */
  ghost predicate IsNearest(n: int, d: int, q: int) {
    var error := 2 * (q * d - n);
    -d <= error <= d && (error == d || error == -d ==> q % 2 == 0)
  }

  lemma RoundDivIsNearest(n: int, d: int)
    requires d > 0
    ensures IsNearest(n, d, RoundDiv(n, d))
  {
    var q, r := n / d, n % d;
    assert n == q * d + r;
    assert (q + 1) * d == q * d + d;
  }

  /** The rounded quotient is the nearest integer, with ties to the even neighbour, and there is no other such. */
  lemma RoundDivExactly(n: int, d: int, q: int)
    requires d > 0
    ensures q == RoundDiv(n, d) <==> IsNearest(n, d, q)
  {
    RoundDivIsNearest(n, d);
    if IsNearest(n, d, q) {
      NearestIsUnique(n, d, q, RoundDiv(n, d));
    }
  }

  lemma NearestIsUnique(n: int, d: int, a: int, b: int)
    requires d > 0 && IsNearest(n, d, a) && IsNearest(n, d, b)
    ensures a == b
  {
    var gap := a - b;
    assert gap * d == a * d - b * d;
    if gap >= 2 {
      MulLe(2, gap, d);
    } else if gap <= -2 {
      MulLe(gap, -2, d);
    }
  }

  /** The quotient and remainder of a division are determined by their defining equation. */
  lemma {:induction false} DivModUnique(n: int, d: int, q: int, r: int)
    requires d > 0 && 0 <= r < d && n == q * d + r
    ensures n / d == q && n % d == r
  {
    var diff := n / d - q;
    assert diff * d == r - n % d;
    if diff >= 1 {
      MulLe(1, diff, d);
    } else if diff <= -1 {
      MulLe(diff, -1, d);
    }
  }

  lemma MulLe(a: int, b: int, k: int)
    requires a <= b && k >= 0
    ensures a * k <= b * k
  {}

  /** Extending numerator and denominator by the same factor does not move the rounded quotient. */
  lemma {:induction false} RoundDivScale(n: int, d: int, k: int)
    requires d > 0 && k > 0
    ensures d * k > 0
    ensures RoundDiv(n * k, d * k) == RoundDiv(n, d)
  {
    var q, r := n / d, n % d;
    ScaledDivMod(n, d, k, q, r);
    if 2 * r < d {
      ScaledLess(2 * r, d, k);
    } else if 2 * r > d {
      ScaledLess(d, 2 * r, k);
    }
    assert (2 * r) * k == 2 * (r * k);
  }

  lemma {:induction false} ScaledDivMod(n: int, d: int, k: int, q: int, r: int)
    requires d > 0 && k > 0 && 0 <= r < d && n == q * d + r
    ensures d * k > 0 && (n * k) / (d * k) == q && (n * k) % (d * k) == r * k
  {
    assert n * k == (q * d) * k + r * k;
    assert (q * d) * k == q * (d * k);
    MulLe(r + 1, d, k);
    MulLe(0, r, k);
    assert (r + 1) * k == r * k + k;
    DivModUnique(n * k, d * k, q, r * k);
  }

  lemma ScaledLess(a: int, b: int, k: int)
    requires a < b && k > 0
    ensures a * k < b * k
  {}

  /** Rounding keeps the order of quotients, even with different denominators. */
  lemma {:induction false} RoundDivMonotone(n1: int, d1: int, n2: int, d2: int)
    requires d1 > 0 && d2 > 0
    requires n1 * d2 <= n2 * d1
    ensures RoundDiv(n1, d1) <= RoundDiv(n2, d2)
  {
    RoundDivScale(n1, d1, d2);
    RoundDivScale(n2, d2, d1);
    assert d1 * d2 == d2 * d1;
    RoundDivOrder(n1 * d2, n2 * d1, d1 * d2);
  }

  lemma {:induction false} RoundDivOrder(n: int, m: int, d: int)
    requires d > 0 && n <= m
    ensures RoundDiv(n, d) <= RoundDiv(m, d)
  {
    DivOrder(n, m, d);
    if n / d == m / d {
      assert n % d <= m % d;
    }
  }

  lemma {:induction false} DivOrder(n: int, m: int, d: int)
    requires d > 0 && n <= m
    ensures n / d <= m / d
    ensures n / d == m / d ==> n % d <= m % d
  {
    var qn, rn, qm, rm := n / d, n % d, m / d, m % d;
    assert n == qn * d + rn && m == qm * d + rm;
    if qn > qm {
      MulLe(qm + 1, qn, d);
    }
  }
}

/** Facts about sizes of finite sets. */
module Sets {
  lemma Any<T>(a: set<T>) returns (x: T)
    requires a != {}
    ensures x in a
  {
    x :| x in a;
  }

  lemma {:induction false} SubsetSize<T>(a: set<T>, b: set<T>)
    requires a <= b
    ensures |a| <= |b|
  {
    if a != {} {
      var x := Any(a);
      SubsetSize(a - {x}, b - {x});
    }
  }

  lemma Singleton<T>(a: set<T>) returns (x: T)
    requires |a| == 1
    ensures a == {x}
  {
    x := Any(a);
    assert |a - {x}| == 0;
    assert a - {x} == {};
  }
}

/** The library's stable `list.sort`, for a total preorder. */
module StableSort {
  ghost predicate TotalPreorder<T(!new)>(le: (T, T) -> bool) {
    && (forall a, b :: le(a, b) || le(b, a))
    && (forall a, b, c :: le(a, b) && le(b, c) ==> le(a, c))
  }

  ghost predicate Sorted<T>(s: seq<T>, le: (T, T) -> bool) {
    forall i, j :: 0 <= i < j < |s| ==> le(s[i], s[j])
  }

  function Insert<T>(x: T, s: seq<T>, le: (T, T) -> bool): seq<T> {
    if s == [] || le(x, s[0]) then [x] + s else [s[0]] + Insert(x, s[1..], le)
  }

  /** Equal elements keep their order: each one is inserted before its equals that follow it. */
  function Sort<T>(s: seq<T>, le: (T, T) -> bool): seq<T> {
    if s == [] then [] else Insert(s[0], Sort(s[1..], le), le)
  }

  lemma {:induction false} InsertPermutes<T(!new)>(x: T, s: seq<T>, le: (T, T) -> bool)
    ensures multiset(Insert(x, s, le)) == multiset(s) + multiset{x}
    ensures forall y :: y in Insert(x, s, le) <==> y == x || y in s
  {
    if s != [] && !le(x, s[0]) {
      assert s == [s[0]] + s[1..];
      InsertPermutes(x, s[1..], le);
    }
  }

  lemma {:induction false} SortPermutes<T(!new)>(s: seq<T>, le: (T, T) -> bool)
    ensures multiset(Sort(s, le)) == multiset(s)
    ensures forall y :: y in Sort(s, le) <==> y in s
    ensures |Sort(s, le)| == |s|
  {
    if s != [] {
      assert s == [s[0]] + s[1..];
      SortPermutes(s[1..], le);
      InsertPermutes(s[0], Sort(s[1..], le), le);
      assert |Sort(s, le)| == |multiset(Sort(s, le))|;
    }
  }

  lemma {:induction false} InsertSorts<T(!new)>(x: T, s: seq<T>, le: (T, T) -> bool)
    requires TotalPreorder(le) && Sorted(s, le)
    ensures Sorted(Insert(x, s, le), le)
  {
    if s == [] {
    } else if le(x, s[0]) {
      assert forall j :: 0 < j < |s| ==> le(s[0], s[j]);
    } else {
      InsertSorts(x, s[1..], le);
      InsertPermutes(x, s[1..], le);
      var rest := Insert(x, s[1..], le);
      assert le(s[0], x);
      forall y | y in rest ensures le(s[0], y) {}
    }
  }

  lemma {:induction false} SortSorts<T(!new)>(s: seq<T>, le: (T, T) -> bool)
    requires TotalPreorder(le)
    ensures Sorted(Sort(s, le), le)
  {
    if s != [] {
      SortSorts(s[1..], le);
      InsertSorts(s[0], Sort(s[1..], le), le);
    }
  }

  ghost predicate DistinctBy<T, K>(s: seq<T>, key: T -> K) {
    forall i, j :: 0 <= i < j < |s| ==> key(s[i]) != key(s[j])
  }

  lemma HeadIsDistinct<T(!new), K>(s: seq<T>, key: T -> K)
    requires s != [] && DistinctBy(s, key)
    ensures forall y :: y in s[1..] ==> key(y) != key(s[0])
  {}

  lemma {:induction false} InsertKeepsDistinct<T(!new), K>(x: T, s: seq<T>, le: (T, T) -> bool, key: T -> K)
    requires DistinctBy(s, key) && forall y :: y in s ==> key(y) != key(x)
    ensures DistinctBy(Insert(x, s, le), key)
  {
    if s != [] && !le(x, s[0]) {
      HeadIsDistinct(s, key);
      InsertKeepsDistinct(x, s[1..], le, key);
      InsertPermutes(x, s[1..], le);
      var rest := Insert(x, s[1..], le);
      forall y | y in rest ensures key(s[0]) != key(y) {
        assert s[0] in s;
        assert y == x || y in s[1..];
      }
    }
  }

  lemma {:induction false} SortKeepsDistinct<T(!new), K>(s: seq<T>, le: (T, T) -> bool, key: T -> K)
    requires DistinctBy(s, key)
    ensures DistinctBy(Sort(s, le), key)
  {
    if s != [] {
      HeadIsDistinct(s, key);
      SortKeepsDistinct(s[1..], le, key);
      SortPermutes(s[1..], le);
      forall y | y in Sort(s[1..], le) ensures key(y) != key(s[0]) {
        assert y in s[1..];
      }
      InsertKeepsDistinct(s[0], Sort(s[1..], le), le, key);
    }
  }

  function Filter<T>(s: seq<T>, keep: T -> bool): seq<T> {
    if s == [] then [] else if keep(s[0]) then [s[0]] + Filter(s[1..], keep) else Filter(s[1..], keep)
  }

  lemma {:induction false} FilterAppend<T>(a: seq<T>, b: seq<T>, keep: T -> bool)
    ensures Filter(a + b, keep) == Filter(a, keep) + Filter(b, keep)
  {
    if a == [] {
      assert a + b == b;
    } else {
      assert (a + b)[1..] == a[1..] + b;
      FilterAppend(a[1..], b, keep);
    }
  }

  lemma {:induction false} FilterMembers<T(!new)>(s: seq<T>, keep: T -> bool)
    ensures forall y :: y in Filter(s, keep) <==> y in s && keep(y)
  {
    if s != [] {
      assert s == [s[0]] + s[1..];
      FilterMembers(s[1..], keep);
    }
  }

  /** Once `x` may stand before an element, it may stand before all that follow. */
  ghost predicate FitsOnce<T>(x: T, s: seq<T>, le: (T, T) -> bool) {
    forall i, j :: 0 <= i < j < |s| && le(x, s[i]) ==> le(x, s[j])
  }

  lemma SortedFitsOnce<T(!new)>(x: T, s: seq<T>, le: (T, T) -> bool)
    requires TotalPreorder(le) && Sorted(s, le)
    ensures FitsOnce(x, s, le)
  {}

  lemma InsertAtFront<T>(x: T, s: seq<T>, le: (T, T) -> bool)
    requires forall y <- s :: le(x, y)
    ensures Insert(x, s, le) == [x] + s
  {}

  lemma InsertStep<T>(x: T, first: T, rest: seq<T>, le: (T, T) -> bool)
    ensures Insert(x, [first] + rest, le) == if le(x, first) then [x, first] + rest else [first] + Insert(x, rest, le)
  {
    assert ([first] + rest)[1..] == rest;
  }

  lemma FilterStep<T>(first: T, rest: seq<T>, keep: T -> bool)
    ensures Filter([first] + rest, keep) == if keep(first) then [first] + Filter(rest, keep) else Filter(rest, keep)
  {
    assert ([first] + rest)[1..] == rest;
  }

  lemma {:induction false} InsertFilters<T(!new)>(x: T, s: seq<T>, le: (T, T) -> bool, keep: T -> bool)
    requires FitsOnce(x, s, le)
    ensures Filter(Insert(x, s, le), keep) == if keep(x) then Insert(x, Filter(s, keep), le) else Filter(s, keep)
  {
    if s == [] || le(x, s[0]) {
      FilterMembers(s, keep);
      forall y | y in Filter(s, keep) ensures le(x, y) {
        assert y in s;
      }
      InsertAtFront(x, Filter(s, keep), le);
      FilterStep(x, s, keep);
    } else {
      InsertFilters(x, s[1..], le, keep);
      FilterStep(s[0], Insert(x, s[1..], le), keep);
      InsertStep(x, s[0], Filter(s[1..], keep), le);
    }
  }

  /** Sorting what is kept is keeping from what was sorted, ties included. */
  lemma {:induction false} SortFilters<T(!new)>(s: seq<T>, le: (T, T) -> bool, keep: T -> bool)
    requires TotalPreorder(le)
    ensures Sort(Filter(s, keep), le) == Filter(Sort(s, le), keep)
  {
    if s != [] {
      SortFilters(s[1..], le, keep);
      SortSorts(s[1..], le);
      SortedFitsOnce(s[0], Sort(s[1..], le), le);
      InsertFilters(s[0], Sort(s[1..], le), le, keep);
      assert ([s[0]] + Filter(s[1..], keep))[1..] == Filter(s[1..], keep);
    }
  }
}
