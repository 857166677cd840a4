/** Small shared definitions: optional values, error results, sums over reals
    and the ascending listing of a finite set of timestamps. */
module Util {

  /** A nullable value: `null`/`None` in the source. */
  datatype Option<+T> = None | Some(value: T)

  /** An operation that either succeeds or raises. */
  datatype Result<+T, +E> = Success(value: T) | Failure(error: E)

  /** Left-to-right sum, as a `+=` loop or `reduce((s, x) => s + x, 0)` computes it. */
  function Sum(s: seq<real>): real
  {
    if s == [] then 0.0 else Sum(s[..|s| - 1]) + s[|s| - 1]
  }

  /** Adding at the front gives the same total as adding at the back. */
  lemma {:induction false} SumCons(x: real, s: seq<real>)
    ensures Sum([x] + s) == x + Sum(s)
    decreases |s|
  {
    if s != [] {
      var t := [x] + s;
      assert t[..|t| - 1] == [x] + s[..|s| - 1];
      SumCons(x, s[..|s| - 1]);
    }
  }

  /** Extending a prefix by one element adds that element. */
  lemma SumSnoc(s: seq<real>, i: nat)
    requires i < |s|
    ensures Sum(s[..i + 1]) == Sum(s[..i]) + s[i]
  {
    assert s[..i + 1][..i] == s[..i];
  }

  /** Every element at least `lo` makes the sum at least `|s| * lo`. */
  lemma {:induction false} SumAtLeast(s: seq<real>, lo: real)
    requires forall i :: 0 <= i < |s| ==> lo <= s[i]
    ensures |s| as real * lo <= Sum(s)
    decreases |s|
  {
    if s != [] {
      SumAtLeast(s[..|s| - 1], lo);
    }
  }

  /** Every element at most `hi` makes the sum at most `|s| * hi`. */
  lemma {:induction false} SumAtMost(s: seq<real>, hi: real)
    requires forall i :: 0 <= i < |s| ==> s[i] <= hi
    ensures Sum(s) <= |s| as real * hi
    decreases |s|
  {
    if s != [] {
      SumAtMost(s[..|s| - 1], hi);
    }
  }

  /** The mean of values that all lie in `[lo, hi]` lies in `[lo, hi]`. */
  lemma MeanWithin(s: seq<real>, lo: real, hi: real)
    requires |s| > 0
    requires forall i :: 0 <= i < |s| ==> lo <= s[i] <= hi
    ensures lo <= Sum(s) / |s| as real <= hi
  {
    SumAtLeast(s, lo);
    SumAtMost(s, hi);
    DivideBounds(Sum(s), |s| as real, lo, hi);
  }

  /** A product of non-negative numbers is non-negative. */
  lemma NonNegativeProduct(a: real, b: real)
    requires a >= 0.0 && b >= 0.0
    ensures a * b >= 0.0
  {
  }

  /** Multiplying by a non-negative number keeps an inequality. */
  lemma ScaleAtMost(a: real, b: real, n: real)
    requires a <= b && n >= 0.0
    ensures a * n <= b * n
  {
    NonNegativeProduct(b - a, n);
    assert (b - a) * n == b * n - a * n;
  }

  /** Division distributes over a sum. */
  lemma DivideSum(a: real, b: real, n: real)
    requires n > 0.0
    ensures (a + b) / n == a / n + b / n
  {
  }

  /** Dividing `n * lo <= a <= n * hi` by a positive `n`. */
  lemma DivideBounds(a: real, n: real, lo: real, hi: real)
    requires n > 0.0 && n * lo <= a <= n * hi
    ensures lo <= a / n <= hi
  {
    DivideAtLeast(a, n, lo);
    DivideAtMost(a, n, hi);
  }

  /** Dividing `n * lo <= a` by a positive `n`. */
  lemma DivideAtLeast(a: real, n: real, lo: real)
    requires n > 0.0 && n * lo <= a
    ensures lo <= a / n
  {
    assert (a / n) * n == a;
  }

  /** Dividing `a <= n * hi` by a positive `n`. */
  lemma DivideAtMost(a: real, n: real, hi: real)
    requires n > 0.0 && a <= n * hi
    ensures a / n <= hi
  {
    assert (a / n) * n == a;
  }

  /** A run of `n` nulls, pushed one at a time as the indicator loops do. */
  method Nulls<T>(n: nat) returns (r: seq<Option<T>>)
    ensures |r| == n && forall j :: 0 <= j < n ==> r[j].None?
  {
    r := [];
    for i := 0 to n
      invariant |r| == i && forall j :: 0 <= j < i ==> r[j].None?
    {
      r := r + [None];
    }
  }

  /** Some element of a non-empty set. */
  lemma Element(s: set<int>) returns (y: int)
    requires s != {}
    ensures y in s
  {
    assert (forall x :: x !in s) ==> s == {};
    y :| y in s;
  }

  /** Adding `y` to a set whose least element is `m` gives least element `min(y, m)`. */
  lemma LeastOfInsert(rest: set<int>, y: int, m: int)
    requires m in rest && forall x :: x in rest ==> m <= x
    ensures var least := if y < m then y else m;
      least in rest + {y} && forall x :: x in rest + {y} ==> least <= x
  {
  }

  /** Every non-empty finite set of integers has a least element. */
  lemma {:induction false} HasMinimum(s: set<int>)
    requires s != {}
    ensures exists m :: m in s && forall x :: x in s ==> m <= x
    decreases |s|
  {
    var y := Element(s);
    if s == {y} {
      assert forall x :: x in s ==> y <= x;
    } else {
      var rest := s - {y};
      HasMinimum(rest);
      var m :| m in rest && forall x :: x in rest ==> m <= x;
      LeastOfInsert(rest, y, m);
      assert rest + {y} == s;
    }
  }

  /** The least element of a non-empty set. */
  function SetMin(s: set<int>): (m: int)
    requires s != {}
    ensures m in s && forall x :: x in s ==> m <= x
  {
    HasMinimum(s);
    var m :| m in s && forall x :: x in s ==> m <= x;
    m
  }

  /** The elements of `s` in ascending order: Python's `sorted(s)`, and the
      `orderBy: { ts: 'asc' }` of a store read. */
  function SortedSet(s: set<int>): (r: seq<int>)
    ensures |r| == |s|
    ensures forall x :: x in s <==> x in r
    ensures forall i, j :: 0 <= i < j < |r| ==> r[i] < r[j]
    decreases |s|
  {
    if s == {} then []
    else
      var m := SetMin(s);
      [m] + SortedSet(s - {m})
  }
}
