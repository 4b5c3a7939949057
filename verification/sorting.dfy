/** Ranking a sequence by a score, largest first, equal scores in ascending
    name order.

    Every ranking of the dashboard is a ranking of groups that come out of a
    group-by in ascending key order. A stable descending sort of such a list,
    which is what `nlargest` and `idxmax` amount to (first occurrence wins a
    tie), is exactly the order "score descending, then name ascending", so the
    model sorts by that composite order directly. */
module Sorting {
  import opened Basics
  import Lex

  /** `a` ranks strictly ahead of `b`. */
  predicate Ahead<T>(a: T, b: T, score: T -> real, name: T -> string)
  {
    score(a) > score(b) || (score(a) == score(b) && Lex.Less(name(a), name(b)))
  }

  /** No later element ranks ahead of an earlier one. */
  predicate Ranked<T>(s: seq<T>, score: T -> real, name: T -> string)
  {
    forall i, j :: 0 <= i < j < |s| ==> !Ahead(s[j], s[i], score, name)
  }

  predicate NamesDistinct<T>(s: seq<T>, name: T -> string)
  {
    forall i, j :: 0 <= i < j < |s| ==> name(s[i]) != name(s[j])
  }

  lemma AheadAsymmetric<T>(a: T, b: T, score: T -> real, name: T -> string)
    requires Ahead(a, b, score, name)
    ensures !Ahead(b, a, score, name)
  {
    if score(a) == score(b) {
      Lex.Asymmetric(name(a), name(b));
    }
  }

  /** Between differently named elements, "not behind" is "ahead". */
  lemma AheadTotal<T>(a: T, b: T, score: T -> real, name: T -> string)
    requires !Ahead(b, a, score, name) && name(a) != name(b)
    ensures Ahead(a, b, score, name)
  {
    Lex.Total(name(a), name(b));
  }

  lemma NotAheadTransitive<T>(a: T, b: T, c: T, score: T -> real, name: T -> string)
    requires !Ahead(b, a, score, name) && !Ahead(c, b, score, name)
    ensures !Ahead(c, a, score, name)
  {
    if Ahead(c, a, score, name) {
      var na, nb, nc := name(a), name(b), name(c);
      assert score(a) == score(b) == score(c) && Lex.Less(nc, na);
      Lex.Total(na, nb);
      Lex.Total(nb, nc);
      if na == nb {
        Lex.Asymmetric(nc, na);
      } else if nb == nc {
        Lex.Asymmetric(nc, na);
      } else {
        Lex.Transitive(na, nb, nc);
        Lex.Asymmetric(na, nc);
      }
    }
  }

  /** Places `x` in front of the first element it is not behind. */
  function Insert<T>(x: T, s: seq<T>, score: T -> real, name: T -> string): (r: seq<T>)
    ensures |r| == |s| + 1
    ensures multiset(r) == multiset(s) + multiset{x}
  {
    if |s| == 0 || !Ahead(s[0], x, score, name) then [x] + s
    else
      assert s == [s[0]] + s[1..];
      [s[0]] + Insert(x, s[1..], score, name)
  }

  lemma {:induction false} InsertRanked<T>(x: T, s: seq<T>, score: T -> real, name: T -> string)
    requires Ranked(s, score, name)
    ensures Ranked(Insert(x, s, score, name), score, name)
  {
    if |s| == 0 {
    } else if !Ahead(s[0], x, score, name) {
      forall j | 0 < j < |s|
        ensures !Ahead(s[j], x, score, name)
      {
        NotAheadTransitive(x, s[0], s[j], score, name);
      }
    } else {
      var r := Insert(x, s[1..], score, name);
      InsertRanked(x, s[1..], score, name);
      AheadAsymmetric(s[0], x, score, name);
      forall j | 0 <= j < |r|
        ensures !Ahead(r[j], s[0], score, name)
      {
        assert r[j] in multiset(r);
        if r[j] != x {
          assert r[j] in multiset(s[1..]);
          var k :| 0 <= k < |s[1..]| && s[1..][k] == r[j];
          assert s[k + 1] == r[j];
        }
      }
    }
  }

  lemma {:induction false} InsertNamesDistinct<T>(x: T, s: seq<T>, score: T -> real, name: T -> string)
    requires NamesDistinct(s, name)
    requires forall i :: 0 <= i < |s| ==> name(s[i]) != name(x)
    ensures NamesDistinct(Insert(x, s, score, name), name)
  {
    if |s| > 0 && Ahead(s[0], x, score, name) {
      var r := Insert(x, s[1..], score, name);
      InsertNamesDistinct(x, s[1..], score, name);
      forall j | 0 <= j < |r|
        ensures name(r[j]) != name(s[0])
      {
        assert r[j] in multiset(r);
        if r[j] != x {
          assert r[j] in multiset(s[1..]);
          var k :| 0 <= k < |s[1..]| && s[1..][k] == r[j];
          assert s[k + 1] == r[j];
        }
      }
    }
  }

  /** Insertion sort into rank order. */
  function Rank<T>(s: seq<T>, score: T -> real, name: T -> string): (r: seq<T>)
    ensures |r| == |s|
    ensures multiset(r) == multiset(s)
    ensures Ranked(r, score, name)
  {
    if |s| == 0 then []
    else
      var rest := Rank(s[1..], score, name);
      InsertRanked(s[0], rest, score, name);
      assert s == [s[0]] + s[1..];
      Insert(s[0], rest, score, name)
  }

  lemma {:induction false} RankNamesDistinct<T>(s: seq<T>, score: T -> real, name: T -> string)
    ensures NamesDistinct(s, name) ==> NamesDistinct(Rank(s, score, name), name)
  {
    if |s| > 0 && NamesDistinct(s, name) {
      var rest := Rank(s[1..], score, name);
      RankNamesDistinct(s[1..], score, name);
      forall i | 0 <= i < |rest|
        ensures name(rest[i]) != name(s[0])
      {
        assert rest[i] in multiset(rest);
        assert rest[i] in multiset(s[1..]);
        var k :| 0 <= k < |s[1..]| && s[1..][k] == rest[i];
        assert s[k + 1] == rest[i];
      }
      InsertNamesDistinct(s[0], rest, score, name);
    }
  }

  /** Ranking what is already ranked changes nothing. */
  lemma {:induction false} RankRanked<T>(s: seq<T>, score: T -> real, name: T -> string)
    requires Ranked(s, score, name)
    ensures Rank(s, score, name) == s
  {
    if |s| > 0 {
      RankRanked(s[1..], score, name);
      assert s == [s[0]] + s[1..];
    }
  }

  /** The first `n` entries of the ranking (all of them when fewer). */
  function Top<T(!new)>(s: seq<T>, n: nat, score: T -> real, name: T -> string): (r: seq<T>)
    ensures |r| == Min(n, |s|)
    ensures Ranked(r, score, name)
    ensures forall x :: x in r ==> x in s
    ensures |s| <= n ==> forall x :: x in s ==> x in r
    ensures forall x, y :: x in r && y in s && y !in r ==> !Ahead(y, x, score, name)
    ensures NamesDistinct(s, name) ==> NamesDistinct(r, name)
  {
    var ranked := Rank(s, score, name);
    var r := ranked[..Min(n, |s|)];
    assert forall x :: x in ranked <==> x in s by {
      forall x
        ensures x in ranked <==> x in s
      {
        assert x in ranked <==> x in multiset(ranked);
      }
    }
    assert forall x, y :: x in r && y in s && y !in r ==> !Ahead(y, x, score, name) by {
      forall x, y | x in r && y in s && y !in r
        ensures !Ahead(y, x, score, name)
      {
        var i :| 0 <= i < |r| && r[i] == x;
        var j :| 0 <= j < |ranked| && ranked[j] == y;
        assert j >= |r|;
      }
    }
    RankNamesDistinct(s, score, name);
    r
  }

  /** Taking the top `n` of a top-`n` list returns it unchanged. */
  lemma TopIdempotent<T(!new)>(s: seq<T>, n: nat, score: T -> real, name: T -> string)
    ensures Top(Top(s, n, score, name), n, score, name) == Top(s, n, score, name)
  {
    var t := Top(s, n, score, name);
    RankRanked(t, score, name);
    assert Rank(t, score, name)[..Min(n, |t|)] == t;
  }
}
