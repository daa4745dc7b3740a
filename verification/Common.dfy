// Shared result types: the source's `None` and its raised exceptions.
module Common {

  datatype Option<+T> = None | Some(value: T)
  {
    function GetOr(fallback: T): T {
      if Some? then value else fallback
    }
  }

  datatype Result<+T, +E> = Ok(value: T) | Err(error: E)

  function Min(a: int, b: int): int {
    if a < b then a else b
  }

  function Abs(a: int): nat {
    if a < 0 then -a else a
  }

  lemma SliceOfSlice<T>(s: seq<T>, a: nat, b: nat, c: nat, d: nat)
    requires a <= b <= |s| && c <= d <= b - a
    ensures s[a..b][c..d] == s[a + c..a + d]
  {
    var x, y := s[a..b][c..d], s[a + c..a + d];
    forall k | 0 <= k < |x| ensures x[k] == y[k] {
      assert s[a..b][c + k] == s[a + (c + k)];
    }
  }

  // ------------------------------------------------- filters and permutations

  function Filter<T(!new)>(p: T -> bool, s: seq<T>): (f: seq<T>)
    ensures forall x :: x in f <==> x in s && p(x)
    ensures |f| <= |s|
  {
    if |s| == 0 then []
    else
      var init := Filter(p, s[..|s| - 1]);
      var last := s[|s| - 1];
      assert s == s[..|s| - 1] + [last];
      if p(last) then init + [last] else init
  }

  lemma FilterAppend<T(!new)>(p: T -> bool, s: seq<T>, x: T)
    ensures Filter(p, s + [x]) == if p(x) then Filter(p, s) + [x] else Filter(p, s)
  {
    assert (s + [x])[..|s|] == s;
  }

  lemma {:induction false} FilterCount<T(!new)>(p: T -> bool, s: seq<T>, x: T)
    ensures multiset(Filter(p, s))[x] == if p(x) then multiset(s)[x] else 0
  {
    if |s| > 0 {
      FilterCount(p, s[..|s| - 1], x);
      assert s == s[..|s| - 1] + [s[|s| - 1]];
    }
  }

  /** Filtering commutes with permuting. */
  lemma FilterPermutes<T(!new)>(p: T -> bool, s: seq<T>, t: seq<T>)
    requires multiset(s) == multiset(t)
    ensures multiset(Filter(p, s)) == multiset(Filter(p, t))
  {
    forall x ensures multiset(Filter(p, s))[x] == multiset(Filter(p, t))[x] {
      FilterCount(p, s, x);
      FilterCount(p, t, x);
    }
  }

  /** Filters that agree on every element agree. */
  lemma {:induction false} FilterCongruent<T(!new)>(p: T -> bool, q: T -> bool, s: seq<T>)
    requires forall x :: x in s ==> p(x) == q(x)
    ensures Filter(p, s) == Filter(q, s)
  {
    if |s| > 0 {
      FilterCongruent(p, q, s[..|s| - 1]);
    }
  }

  /** Replacing an element the filter rejects, before and after, changes nothing. */
  lemma {:induction false} FilterSkipsUpdate<T(!new)>(p: T -> bool, s: seq<T>, i: nat, x: T)
    requires i < |s| && !p(s[i]) && !p(x)
    ensures Filter(p, s[i := x]) == Filter(p, s)
  {
    hide Filter;
    var n := |s| - 1;
    FilterAppend(p, s[..n], s[n]);
    assert s == s[..n] + [s[n]];
    if i == n {
      assert s[i := x] == s[..n] + [x];
      FilterAppend(p, s[..n], x);
    } else {
      assert s[i := x] == s[..n][i := x] + [s[n]];
      FilterAppend(p, s[..n][i := x], s[n]);
      FilterSkipsUpdate(p, s[..n], i, x);
    }
  }

  function Map<T, U>(f: T -> U, s: seq<T>): (m: seq<U>)
    ensures |m| == |s|
    ensures forall k :: 0 <= k < |s| ==> m[k] == f(s[k])
  {
    if |s| == 0 then [] else Map(f, s[..|s| - 1]) + [f(s[|s| - 1])]
  }

  lemma MapConcat<T, U>(f: T -> U, s: seq<T>, t: seq<T>)
    ensures Map(f, s + t) == Map(f, s) + Map(f, t)
  {
  }

  /** Mapping commutes with permuting. */
  lemma {:induction false} MapPermutes<T, U>(f: T -> U, s: seq<T>, t: seq<T>)
    requires multiset(s) == multiset(t)
    ensures multiset(Map(f, s)) == multiset(Map(f, t))
  {
    if |s| == 0 {
      assert |t| == |multiset(t)| == 0;
    } else {
      var last := s[|s| - 1];
      assert s == s[..|s| - 1] + [last];
      assert last in multiset(t);
      var k :| 0 <= k < |t| && t[k] == last;
      var a, b := t[..k], t[k + 1..];
      RemoveOne(s[..|s| - 1], a, b, last, t);
      MapPermutes(f, s[..|s| - 1], a + b);
      MapConcat(f, a, b);
      MapConcat(f, a + [last], b);
      MapConcat(f, a, [last]);
      assert Map(f, [last]) == [f(last)];
    }
  }

  lemma RemoveOne<T>(s: seq<T>, a: seq<T>, b: seq<T>, x: T, t: seq<T>)
    requires t == a + [x] + b && multiset(s + [x]) == multiset(t)
    ensures multiset(s) == multiset(a + b)
  {
    assert multiset(s + [x]) == multiset(s) + multiset{x};
    assert multiset(t) == multiset(a + b) + multiset{x};
    assert multiset(s) == multiset(s + [x]) - multiset{x};
    assert multiset(a + b) == multiset(t) - multiset{x};
  }

  function Sum(s: seq<int>): int {
    if |s| == 0 then 0 else Sum(s[..|s| - 1]) + s[|s| - 1]
  }

  lemma SumAppend(s: seq<int>, x: int)
    ensures Sum(s + [x]) == Sum(s) + x
  {
    assert (s + [x])[..|s|] == s;
  }

  lemma {:induction false} SumConcat(s: seq<int>, t: seq<int>)
    ensures Sum(s + t) == Sum(s) + Sum(t)
  {
    if |t| == 0 {
      assert s + t == s;
    } else {
      assert s + t == (s + t[..|t| - 1]) + [t[|t| - 1]];
      SumConcat(s, t[..|t| - 1]);
      SumAppend(s + t[..|t| - 1], t[|t| - 1]);
    }
  }

  lemma {:induction false} SumPermutes(s: seq<int>, t: seq<int>)
    requires multiset(s) == multiset(t)
    ensures Sum(s) == Sum(t)
  {
    if |s| == 0 {
      assert |t| == |multiset(t)| == 0;
    } else {
      var last := s[|s| - 1];
      assert s == s[..|s| - 1] + [last];
      assert last in multiset(t);
      var k :| 0 <= k < |t| && t[k] == last;
      var a, b := t[..k], t[k + 1..];
      RemoveOne(s[..|s| - 1], a, b, last, t);
      SumPermutes(s[..|s| - 1], a + b);
      SumConcat(a, b);
      SumConcat(a + [last], b);
      SumAppend(a, last);
    }
  }
}
