/** The detail tabs: the country-by-service pivot behind the heat map, kept
    to the fifteen largest countries, and the monthly volume lines of the
    five largest sign-up cohorts. */
module CrossTab {
  import opened Basics
  import opened Records
  import Lex
  import Grouping
  import Filtering

  // ---------------------------------------------------------------------
  // Country-by-service pivot
  // ---------------------------------------------------------------------

  /** `heatmap_df`: the rows of the fifteen countries with the largest
      volume (`nlargest(15)`), in their original order. */
  function HeatmapRows(rows: seq<Record>): (h: seq<Record>)
    ensures forall r :: r in h <==> r in rows && r.country in Grouping.LargestKeys(rows, Country, 15)
  {
    var top := Grouping.LargestKeys(rows, Country, 15);
    var h := Filtering.Restrict(rows, Country, top);
    assert forall r :: Key(r, Country) == r.country;
    h
  }

  /** A row of the fifteen countries is kept as many times as it occurs,
      and every other row is dropped. */
  lemma HeatmapRowsCount(rows: seq<Record>)
    ensures forall x ::
      multiset(HeatmapRows(rows))[x] == if x.country in Grouping.LargestKeys(rows, Country, 15) then multiset(rows)[x] else 0
  {
    Filtering.RestrictCount(rows, Country, Grouping.LargestKeys(rows, Country, 15));
    assert forall r :: Key(r, Country) == r.country;
  }

  /** The volume of the rows whose `d` is `a` and whose `e` is `b`. */
  function Cell(rows: seq<Record>, d: Dim, a: string, e: Dim, b: string): int
  {
    Sum(Select(Select(rows, d, a), e, b), Volume)
  }

  /** A pivot table: row labels, column labels, and one line of cells per
      row label. */
  datatype Pivot = Pivot(rowKeys: seq<string>, colKeys: seq<string>, cells: seq<seq<int>>)

  function PivotLine(rows: seq<Record>, a: string, cols: seq<string>): (line: seq<int>)
    ensures |line| == |cols|
    ensures forall j :: 0 <= j < |cols| ==> line[j] == Cell(rows, Country, a, Service, cols[j])
  {
    seq(|cols|, j requires 0 <= j < |cols| => Cell(rows, Country, a, Service, cols[j]))
  }

  /** `pivot_table(values='VOLUMN', index='country',
      columns='PAYMENT_SERVICE_DIV', aggfunc='sum', fill_value=0)`: a row per
      country and a column per service, both sorted, each cell the volume of
      that pair, 0 for a pair with no rows. */
  function PivotTable(rows: seq<Record>): (p: Pivot)
    ensures p.rowKeys == Domain(rows, Country) && p.colKeys == Domain(rows, Service)
    ensures |p.cells| == |p.rowKeys|
    ensures forall i :: 0 <= i < |p.cells| ==> |p.cells[i]| == |p.colKeys|
    ensures forall i, j :: 0 <= i < |p.rowKeys| && 0 <= j < |p.colKeys| ==>
      p.cells[i][j] == Cell(rows, Country, p.rowKeys[i], Service, p.colKeys[j])
  {
    var ks := Domain(rows, Country);
    var cols := Domain(rows, Service);
    Pivot(ks, cols, seq(|ks|, i requires 0 <= i < |ks| => PivotLine(rows, ks[i], cols)))
  }

  /** Only a pair that has rows shows a volume; every other cell holds the
      fill value 0. */
  lemma NonZeroCellHasRows(rows: seq<Record>, a: string, b: string)
    ensures Cell(rows, Country, a, Service, b) != 0 ==>
      exists r :: r in rows && r.country == a && r.service == b
  {
    var both := Select(Select(rows, Country, a), Service, b);
    if |both| > 0 {
      var r := both[0];
      assert r in both;
      assert r in rows && r.country == a && r.service == b;
    }
  }

  lemma {:induction false} LineTotal(rows: seq<Record>, a: string, cols: seq<string>)
    ensures Total(PivotLine(rows, a, cols)) == SumOver(Select(rows, Country, a), Service, cols, Volume)
  {
    if |cols| > 0 {
      LineTotal(rows, a, cols[1..]);
      assert PivotLine(rows, a, cols)[1..] == PivotLine(rows, a, cols[1..]);
    }
  }

  /** Each pivot row adds up to its country's volume: spreading a country
      over the services loses nothing. */
  lemma RowTotal(rows: seq<Record>, i: nat)
    requires i < |PivotTable(rows).rowKeys|
    ensures var p := PivotTable(rows);
      Total(p.cells[i]) == GroupVolume(rows, Country, p.rowKeys[i])
  {
    var p := PivotTable(rows);
    var a := p.rowKeys[i];
    var sel := Select(rows, Country, a);
    LineTotal(rows, a, p.colKeys);
    Lex.StrictlySortedDistinct(p.colKeys);
    forall r | r in sel
      ensures Key(r, Service) in p.colKeys
    {
      assert r in rows;
    }
    SumOverKeys(sel, Service, p.colKeys, Volume);
  }

  /** The row sums of the pivot. */
  function RowSums(p: Pivot): (s: seq<int>)
    ensures |s| == |p.cells|
    ensures forall i :: 0 <= i < |s| ==> s[i] == Total(p.cells[i])
  {
    seq(|p.cells|, i requires 0 <= i < |p.cells| => Total(p.cells[i]))
  }

  /** The volumes of the countries `ks`, in order. */
  function KeyVolumes(rows: seq<Record>, ks: seq<string>): seq<int>
  {
    seq(|ks|, i requires 0 <= i < |ks| => GroupVolume(rows, Country, ks[i]))
  }

  lemma {:induction false} GroupTotals(rows: seq<Record>, ks: seq<string>)
    ensures Total(KeyVolumes(rows, ks)) == SumOver(rows, Country, ks, Volume)
  {
    if |ks| > 0 {
      GroupTotals(rows, ks[1..]);
      assert KeyVolumes(rows, ks)[1..] == KeyVolumes(rows, ks[1..]);
    }
  }

  lemma RowSumsAreVolumes(rows: seq<Record>)
    ensures RowSums(PivotTable(rows)) == KeyVolumes(rows, PivotTable(rows).rowKeys)
  {
    var p := PivotTable(rows);
    forall i | 0 <= i < |p.rowKeys|
      ensures RowSums(p)[i] == KeyVolumes(rows, p.rowKeys)[i]
    {
      RowTotal(rows, i);
    }
  }

  /** The whole pivot adds up to the volume of its rows. */
  lemma GrandTotal(rows: seq<Record>)
    ensures Total(RowSums(PivotTable(rows))) == Sum(rows, Volume)
  {
    var ks := PivotTable(rows).rowKeys;
    RowSumsAreVolumes(rows);
    GroupTotals(rows, ks);
    Lex.StrictlySortedDistinct(ks);
    SumOverKeys(rows, Country, ks, Volume);
  }

  /** The heat map shows the fifteen largest countries, or all of them when
      there are fewer, and nothing else. */
  lemma HeatmapCountries(rows: seq<Record>)
    ensures var p := PivotTable(HeatmapRows(rows));
      && |p.rowKeys| == Min(15, |Domain(rows, Country)|)
      && forall k :: k in p.rowKeys <==> k in Grouping.LargestKeys(rows, Country, 15)
  {
    var ks := Domain(HeatmapRows(rows), Country);
    HeatmapKeys(rows);
    Lex.StrictlySortedDistinct(ks);
    TopDistinct(rows, 15);
    Lex.SameKeysSameCount(ks, Grouping.LargestKeys(rows, Country, 15));
  }

  /** The countries of the heat-map rows are exactly the fifteen largest. */
  lemma HeatmapKeys(rows: seq<Record>)
    ensures forall k :: k in Domain(HeatmapRows(rows), Country) <==> k in Grouping.LargestKeys(rows, Country, 15)
  {
    var top := Grouping.LargestKeys(rows, Country, 15);
    var h := HeatmapRows(rows);
    var ks := Domain(h, Country);
    forall k | k in ks
      ensures k in top
    {
      DomainSound(h, Country, k);
      var i :| 0 <= i < |h| && Key(h[i], Country) == k;
      assert h[i] in h;
    }
    forall k | k in top
      ensures k in ks
    {
      DomainSound(rows, Country, k);
      var i :| 0 <= i < |rows| && Key(rows[i], Country) == k;
      assert rows[i] in h;
    }
  }


  /** The keys of `LargestKeys` are distinct. */
  lemma TopDistinct(rows: seq<Record>, n: nat)
    ensures Distinct(Grouping.LargestKeys(rows, Country, n))
  {
    var top := Grouping.LargestKeys(rows, Country, n);
    forall i, j | 0 <= i < j < |top|
      ensures top[i] != top[j]
    {
      assert Grouping.Precedes(rows, Country, top[i], top[j]);
      Lex.Irreflexive(top[i]);
    }
  }

  // ---------------------------------------------------------------------
  // Cohort lines
  // ---------------------------------------------------------------------

  /** One point of a cohort line: the volume of a sign-up cohort in one
      transaction month. */
  datatype Point = Point(cohort: string, month: string, volume: int)

  /** The order of `groupby([cohort, month])`: by cohort, then by month. */
  predicate PointBefore(a: Point, b: Point)
  {
    Lex.Less(a.cohort, b.cohort) || (a.cohort == b.cohort && Lex.Less(a.month, b.month))
  }

  predicate PointsSorted(ps: seq<Point>)
  {
    forall i, j :: 0 <= i < j < |ps| ==> PointBefore(ps[i], ps[j])
  }

  /** The points of cohort `k` in the months `ms`, in the order of `ms`. */
  function PointsOf(rows: seq<Record>, k: string, ms: seq<string>): (ps: seq<Point>)
    requires Lex.StrictlySorted(ms)
    ensures PointsSorted(ps)
    ensures forall pt :: pt in ps <==>
      pt.cohort == k && pt.month in ms && pt.volume == Cell(rows, Cohort, k, Month, pt.month)
  {
    var ps := seq(|ms|, i requires 0 <= i < |ms| => Point(k, ms[i], Cell(rows, Cohort, k, Month, ms[i])));
    forall m | m in ms
      ensures Point(k, m, Cell(rows, Cohort, k, Month, m)) in ps
    {
      var i :| 0 <= i < |ms| && ms[i] == m;
      assert ps[i] == Point(k, m, Cell(rows, Cohort, k, Month, m));
    }
    ps
  }

  /** The points of cohort `k`: one per month it has rows in, months ascending. */
  function CohortLine(rows: seq<Record>, k: string): (ps: seq<Point>)
    ensures PointsSorted(ps)
    ensures forall pt :: pt in ps <==>
      pt.cohort == k && pt.month in Domain(Select(rows, Cohort, k), Month)
      && pt.volume == Cell(rows, Cohort, k, Month, pt.month)
  {
    PointsOf(rows, k, Domain(Select(rows, Cohort, k), Month))
  }

  lemma ConcatSorted(a: seq<Point>, b: seq<Point>)
    requires PointsSorted(a) && PointsSorted(b)
    requires forall x, y :: x in a && y in b ==> PointBefore(x, y)
    ensures PointsSorted(a + b)
  {
    var ab := a + b;
    forall i, j | 0 <= i < j < |ab|
      ensures PointBefore(ab[i], ab[j])
    {
      if j < |a| {
        assert ab[i] == a[i] && ab[j] == a[j];
      } else if i >= |a| {
        assert ab[i] == b[i - |a|] && ab[j] == b[j - |a|];
      } else {
        assert ab[i] == a[i] && ab[j] == b[j - |a|];
        assert a[i] in a && b[j - |a|] in b;
      }
    }
  }

  /** The lines of the cohorts of `ks` that are among `top`, cohort after
      cohort. */
  function Lines(rows: seq<Record>, ks: seq<string>, top: seq<string>): (ps: seq<Point>)
    requires Lex.StrictlySorted(ks)
    ensures PointsSorted(ps)
    ensures forall pt :: pt in ps <==>
      pt.cohort in ks && pt.cohort in top
      && pt.month in Domain(Select(rows, Cohort, pt.cohort), Month)
      && pt.volume == Cell(rows, Cohort, pt.cohort, Month, pt.month)
  {
    if |ks| == 0 then []
    else
      var k := ks[0];
      assert Lex.StrictlySorted(ks[1..]) by {
        forall i, j | 0 <= i < j < |ks[1..]|
          ensures Lex.Less(ks[1..][i], ks[1..][j])
        {
          assert ks[1..][i] == ks[i + 1] && ks[1..][j] == ks[j + 1];
        }
      }
      var rest := Lines(rows, ks[1..], top);
      var here := if k in top then CohortLine(rows, k) else [];
      assert forall x :: x in ks <==> x == k || x in ks[1..];
      assert forall x, y :: x in here && y in rest ==> PointBefore(x, y) by {
        forall x, y | x in here && y in rest
          ensures PointBefore(x, y)
        {
          var j :| 0 <= j < |ks[1..]| && ks[1..][j] == y.cohort;
          assert ks[j + 1] == y.cohort;
        }
      }
      assert forall y :: y in rest ==> y.cohort != k by {
        forall y | y in rest
          ensures y.cohort != k
        {
          var j :| 0 <= j < |ks[1..]| && ks[1..][j] == y.cohort;
          assert Lex.Less(ks[0], ks[j + 1]);
          Lex.Irreflexive(k);
        }
      }
      ConcatSorted(here, rest);
      here + rest
  }

  /** The cohort chart. It is drawn only when the table has both month
      columns and there are rows; it then shows, for each of the five cohorts
      with the largest volume (`nlargest(5)`), the volume of every month the
      cohort has rows in, ordered by cohort and then month. */
  function CohortTrends(schema: Schema, rows: seq<Record>): (c: Option<seq<Point>>)
    ensures c.Some? <==> schema.hasMonth && schema.hasCohort && |rows| > 0
    ensures c.Some? ==> PointsSorted(c.value)
    ensures c.Some? ==> forall pt :: pt in c.value <==>
      pt.cohort in Grouping.LargestKeys(rows, Cohort, 5)
      && pt.month in Domain(Select(rows, Cohort, pt.cohort), Month)
      && pt.volume == Cell(rows, Cohort, pt.cohort, Month, pt.month)
  {
    if schema.hasMonth && schema.hasCohort && |rows| > 0 then
      var top := Grouping.LargestKeys(rows, Cohort, 5);
      Some(Lines(rows, Domain(rows, Cohort), top))
    else None
  }

  lemma {:induction false} LineVolumes(rows: seq<Record>, k: string, ms: seq<string>)
    ensures Total(seq(|ms|, i requires 0 <= i < |ms| => Cell(rows, Cohort, k, Month, ms[i])))
         == SumOver(Select(rows, Cohort, k), Month, ms, Volume)
  {
    if |ms| > 0 {
      LineVolumes(rows, k, ms[1..]);
      var s := seq(|ms|, i requires 0 <= i < |ms| => Cell(rows, Cohort, k, Month, ms[i]));
      assert s[1..] == seq(|ms[1..]|, i requires 0 <= i < |ms[1..]| => Cell(rows, Cohort, k, Month, ms[1..][i]));
    }
  }

  function Volumes(ps: seq<Point>): seq<int>
  {
    seq(|ps|, i requires 0 <= i < |ps| => ps[i].volume)
  }

  /** A cohort's line adds up to the cohort's volume: every row of the
      cohort lands in exactly one month. */
  lemma CohortLineTotal(rows: seq<Record>, k: string)
    ensures Total(Volumes(CohortLine(rows, k))) == GroupVolume(rows, Cohort, k)
  {
    var sel := Select(rows, Cohort, k);
    var ms := Domain(sel, Month);
    assert Volumes(CohortLine(rows, k)) == seq(|ms|, i requires 0 <= i < |ms| => Cell(rows, Cohort, k, Month, ms[i]));
    LineVolumes(rows, k, ms);
    Lex.StrictlySortedDistinct(ms);
    SumOverKeys(sel, Month, ms, Volume);
  }
}
