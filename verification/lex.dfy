/** The order Python uses to compare and `sorted` strings: lexicographic by
    code point, a proper prefix first. (Dafny's own `<` on sequences means
    "proper prefix", so it is defined here.) */
module Lex {
  import opened Basics

  predicate Less(a: string, b: string)
    decreases |a|
  {
    if |a| == 0 then |b| > 0
    else if |b| == 0 then false
    else if a[0] != b[0] then a[0] < b[0]
    else Less(a[1..], b[1..])
  }

  lemma {:induction false} Irreflexive(a: string)
    ensures !Less(a, a)
  {
    if |a| > 0 {
      Irreflexive(a[1..]);
    }
  }

  lemma {:induction false} Transitive(a: string, b: string, c: string)
    requires Less(a, b) && Less(b, c)
    ensures Less(a, c)
    decreases |a|
  {
    if |a| > 0 && a[0] == b[0] && b[0] == c[0] {
      Transitive(a[1..], b[1..], c[1..]);
    }
  }

  lemma {:induction false} Total(a: string, b: string)
    ensures Less(a, b) || a == b || Less(b, a)
    decreases |a|
  {
    if |a| > 0 && |b| > 0 && a[0] == b[0] {
      Total(a[1..], b[1..]);
      if a[1..] == b[1..] {
        assert a == [a[0]] + a[1..];
        assert b == [b[0]] + b[1..];
      }
    }
  }

  lemma Asymmetric(a: string, b: string)
    requires Less(a, b)
    ensures !Less(b, a)
  {
    if Less(b, a) {
      Transitive(a, b, a);
      Irreflexive(a);
    }
  }

  /** Ascending without repeats: the shape of `sorted(column.unique())`. */
  predicate StrictlySorted(s: seq<string>)
  {
    forall i, j :: 0 <= i < j < |s| ==> Less(s[i], s[j])
  }

  lemma StrictlySortedDistinct(s: seq<string>)
    requires StrictlySorted(s)
    ensures Distinct(s)
  {
    forall i, j | 0 <= i < j < |s|
      ensures s[i] != s[j]
    {
      Irreflexive(s[i]);
    }
  }

  lemma AboveHead(x: string, s: seq<string>)
    requires StrictlySorted(s) && |s| > 0 && Less(x, s[0])
    ensures forall j :: 0 <= j < |s| ==> Less(x, s[j])
  {
    forall j | 0 < j < |s|
      ensures Less(x, s[j])
    {
      Transitive(x, s[0], s[j]);
    }
  }

  /** In an ascending list the last element is above every other one, and
      the one before it is above all the rest. */
  lemma LastTwo(s: seq<string>)
    requires StrictlySorted(s) && |s| >= 2
    ensures Less(s[|s| - 2], s[|s| - 1])
    ensures forall x :: x in s && x != s[|s| - 1] ==> Less(x, s[|s| - 1])
    ensures forall x :: x in s && x != s[|s| - 1] && x != s[|s| - 2] ==> Less(x, s[|s| - 2])
  {
    var n := |s|;
    forall x | x in s && x != s[n - 1]
      ensures Less(x, s[n - 1]) && (x != s[n - 2] ==> Less(x, s[n - 2]))
    {
      var i :| 0 <= i < n && s[i] == x;
    }
  }

  /** Two repetition-free lists with the same members have the same length. */
  lemma SameKeysSameCount(a: seq<string>, b: seq<string>)
    requires Distinct(a) && Distinct(b)
    requires forall k :: k in a <==> k in b
    ensures |a| == |b|
  {
    DistinctCardinality(a);
    DistinctCardinality(b);
    assert (set k | k in a) == (set k | k in b);
  }

  /** Inserts `x` into an ascending list, unless it is already there. */
  function InsertUnique(x: string, s: seq<string>): (r: seq<string>)
    requires StrictlySorted(s)
    ensures StrictlySorted(r)
    ensures forall y :: y in r <==> y == x || y in s
  {
    if |s| == 0 then [x]
    else if x == s[0] then s
    else if Less(x, s[0]) then
      AboveHead(x, s);
      [x] + s
    else
      Total(x, s[0]);
      var r := InsertUnique(x, s[1..]);
      assert forall y :: y in s[1..] ==> Less(s[0], y);
      [s[0]] + r
  }

  /** The distinct values of `xs` in ascending order. */
  function SortedDistinct(xs: seq<string>): (r: seq<string>)
    ensures StrictlySorted(r)
    ensures forall y :: y in r <==> y in xs
  {
    if |xs| == 0 then []
    else
      assert xs == xs[..|xs| - 1] + [xs[|xs| - 1]];
      InsertUnique(xs[|xs| - 1], SortedDistinct(xs[..|xs| - 1]))
  }

  /** A list without repeats has as many entries as its set of values: the
      length of a sorted-distinct list is the `nunique` of its source. */
  lemma {:induction false} DistinctCardinality(s: seq<string>)
    requires Distinct(s)
    ensures |set x | x in s| == |s|
  {
    if |s| > 0 {
      var tail := s[1..];
      DistinctCardinality(tail);
      assert (set x | x in s) == {s[0]} + (set x | x in tail);
      assert s[0] !in tail;
    }
  }

  /** `nunique`: the sorted distinct list has one entry per distinct value. */
  lemma SortedDistinctCount(xs: seq<string>)
    ensures |SortedDistinct(xs)| == |set x | x in xs|
  {
    var r := SortedDistinct(xs);
    StrictlySortedDistinct(r);
    DistinctCardinality(r);
    assert (set x | x in r) == (set x | x in xs);
  }
}
