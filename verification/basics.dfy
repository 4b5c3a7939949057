/** Small generic building blocks shared by the dashboard model: an optional
    value, the boolean-mask row selection, a minimum and a sum. */
module Basics {

  /** A value that may be absent: a missing cell, a file that did not parse,
      a statistic that is not defined. */
  datatype Option<+T> = None | Some(value: T)

  function Min(a: int, b: int): int
  {
    if a <= b then a else b
  }

  /** The sum of a list of numbers. */
  function Total(s: seq<int>): int
  {
    if |s| == 0 then 0 else s[0] + Total(s[1..])
  }

  lemma {:induction false} TotalAppend(a: seq<int>, b: seq<int>)
    ensures Total(a + b) == Total(a) + Total(b)
  {
    if |a| == 0 {
      assert a + b == b;
    } else {
      TotalAppend(a[1..], b);
      assert (a + b)[1..] == a[1..] + b;
    }
  }

  /** No element occurs twice. */
  ghost predicate Distinct<T>(s: seq<T>)
  {
    forall i, j :: 0 <= i < j < |s| ==> s[i] != s[j]
  }

  /** The elements of `s` that satisfy `p`, in their original order: the
      row selection `frame[mask]` of a data frame. */
  function Keep<T(!new)>(s: seq<T>, p: T -> bool): (r: seq<T>)
    ensures |r| <= |s|
    ensures forall x :: x in r <==> x in s && p(x)
  {
    if |s| == 0 then []
    else
      var last := s[|s| - 1];
      assert s == s[..|s| - 1] + [last];
      Keep(s[..|s| - 1], p) + (if p(last) then [last] else [])
  }

  /** Two masks that agree on every element select the same rows. */
  lemma {:induction false} KeepSame<T(!new)>(s: seq<T>, p: T -> bool, q: T -> bool)
    requires forall x :: x in s ==> p(x) == q(x)
    ensures Keep(s, p) == Keep(s, q)
  {
    if |s| > 0 {
      assert s == s[..|s| - 1] + [s[|s| - 1]];
      KeepSame(s[..|s| - 1], p, q);
    }
  }

  /** A mask every element passes selects everything. */
  lemma {:induction false} KeepAll<T(!new)>(s: seq<T>, p: T -> bool)
    requires forall x :: x in s ==> p(x)
    ensures Keep(s, p) == s
  {
    if |s| > 0 {
      assert s == s[..|s| - 1] + [s[|s| - 1]];
      KeepAll(s[..|s| - 1], p);
    }
  }

  /** Appending one element appends it to the selection when it passes. */
  lemma KeepSnoc<T(!new)>(s: seq<T>, x: T, p: T -> bool)
    ensures p(x) ==> Keep(s + [x], p) == Keep(s, p) + [x]
    ensures !p(x) ==> Keep(s + [x], p) == Keep(s, p)
  {
    assert (s + [x])[..|s|] == s;
    assert Keep(s, p) + [] == Keep(s, p);
  }

  /** A row the mask passes is kept as often as it occurs, any other row
      not at all. */
  lemma {:induction false} KeepCount<T(!new)>(s: seq<T>, p: T -> bool)
    ensures forall x :: multiset(Keep(s, p))[x] == if p(x) then multiset(s)[x] else 0
  {
    if |s| > 0 {
      var init, last := s[..|s| - 1], s[|s| - 1];
      assert s == init + [last];
      KeepCount(init, p);
      KeepSnoc(init, last, p);
    }
  }

  /** Filtering twice is filtering once by the conjunction. */
  lemma {:induction false} KeepTwice<T(!new)>(s: seq<T>, p: T -> bool, q: T -> bool, both: T -> bool)
    requires forall x :: x in s ==> both(x) == (p(x) && q(x))
    ensures Keep(Keep(s, p), q) == Keep(s, both)
  {
    if |s| > 0 {
      var init, last := s[..|s| - 1], s[|s| - 1];
      assert s == init + [last];
      assert last in s;
      KeepTwice(init, p, q, both);
      KeepSnoc(init, last, p);
      KeepSnoc(init, last, both);
      if p(last) {
        KeepSnoc(Keep(init, p), last, q);
      }
    }
  }

  /** A mask and its complement split the sequence: every element lands on
      exactly one side. */
  lemma {:induction false} KeepSplit<T(!new)>(s: seq<T>, p: T -> bool, q: T -> bool)
    requires forall x :: q(x) == !p(x)
    ensures |Keep(s, p)| + |Keep(s, q)| == |s|
  {
    if |s| > 0 {
      KeepSplit(s[..|s| - 1], p, q);
    }
  }

}
