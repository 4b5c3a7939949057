/** The headline figures of the overview tab: totals, averages guarded
    against empty denominators, the leading country and service, distinct
    counts, and the change from the previous month to the latest one. */
module Kpi {
  import opened Basics
  import opened Records
  import Lex
  import Grouping

  /** `(cur - prev) / prev * 100`: the percentage change from `prev` to `cur`. */
  function Pct(cur: int, prev: int): (p: real)
    requires prev != 0
    ensures p * prev as real == (cur - prev) as real * 100.0
  {
    ((cur - prev) as real / prev as real) * 100.0
  }

  /** The change can be undone: growing `prev` by `Pct(cur, prev)` percent
      gives back `cur`. */
  lemma PctInverse(cur: int, prev: int)
    requires prev != 0
    ensures prev as real + prev as real * Pct(cur, prev) / 100.0 == cur as real
  {
  }

  /** On a positive base the sign of the change is the sign of the growth. */
  lemma PctSign(cur: int, prev: int)
    requires prev > 0
    ensures Pct(cur, prev) > 0.0 <==> cur > prev
    ensures Pct(cur, prev) == 0.0 <==> cur == prev
  {
    var p := Pct(cur, prev);
    assert p * prev as real == (cur - prev) as real * 100.0;
    if p > 0.0 {
      assert p * prev as real > 0.0;
    } else if p < 0.0 {
      assert p * prev as real < 0.0;
    }
  }

  /** `m` is the average `a / b` when `b` is positive, and 0 otherwise. */
  predicate IsMean(m: real, a: int, b: int)
  {
    (b > 0 ==> m * b as real == a as real) && (b <= 0 ==> m == 0.0)
  }

  /** `a / b if b > 0 else 0`. */
  function Mean(a: int, b: int): (m: real)
    ensures IsMean(m, a, b)
  {
    if b > 0 then a as real / b as real else 0.0
  }

  /** The customer ids present in the rows, in row order; missing ids are
      skipped as `nunique` skips NaN. */
  function CustomerIds(rows: seq<Record>): (ids: seq<string>)
    ensures forall c :: c in ids ==> exists i :: 0 <= i < |rows| && rows[i].customer == Some(c)
    ensures forall i :: 0 <= i < |rows| && rows[i].customer.Some? ==> rows[i].customer.value in ids
  {
    if |rows| == 0 then []
    else
      var init := rows[..|rows| - 1];
      var last := rows[|rows| - 1];
      var ids := CustomerIds(init);
      assert forall i :: 0 <= i < |init| ==> init[i] == rows[i];
      ids + (if last.customer.Some? then [last.customer.value] else [])
  }

  /** The distinct customers of the rows. */
  ghost function Customers(rows: seq<Record>): set<string>
  {
    set r | r in rows && r.customer.Some? :: r.customer.value
  }

  /** `rows['CUSTOMERID'].nunique()`. */
  function DistinctCustomers(rows: seq<Record>): (n: nat)
    ensures n == |Customers(rows)|
  {
    var ids := CustomerIds(rows);
    Lex.SortedDistinctCount(ids);
    assert (set x | x in ids) == Customers(rows) by {
      forall c | c in ids
        ensures c in Customers(rows)
      {
        var i :| 0 <= i < |rows| && rows[i].customer == Some(c);
        assert rows[i] in rows;
      }
      forall r | r in rows && r.customer.Some?
        ensures r.customer.value in ids
      {
        var i :| 0 <= i < |rows| && rows[i] == r;
      }
    }
    |Lex.SortedDistinct(ids)|
  }

  /** The eight cards of the overview. */
  datatype Kpis = Kpis(
    totalVolume: int,
    totalTrx: int,
    avgPerRow: real,
    avgPerTrx: real,
    topCountry: string,
    uniqueCustomers: nat,
    topService: string,
    uniqueCountries: nat)

  /** The cards over the filtered rows; `schema` says which optional
      columns the table has. */
  function Overview(schema: Schema, rows: seq<Record>): (k: Kpis)
    ensures k.totalVolume == Sum(rows, Volume) && k.totalTrx == Sum(rows, Trx)
    ensures IsMean(k.avgPerRow, k.totalVolume, |rows|)
    ensures IsMean(k.avgPerTrx, k.totalVolume, k.totalTrx)
    ensures k.topCountry == Grouping.TopKey(rows, Country) && k.topService == Grouping.TopKey(rows, Service)
    ensures k.uniqueCustomers == if schema.hasCustomer then |Customers(rows)| else 0
    ensures k.uniqueCountries == |set r | r in rows :: r.country|
  {
    var vol := Sum(rows, Volume);
    var trx := Sum(rows, Trx);
    var avgRow := Mean(vol, |rows|);
    var avgTrx := Mean(vol, trx);
    var topCountry := Grouping.TopKey(rows, Country);
    var topService := Grouping.TopKey(rows, Service);
    CountryCount(rows);
    Kpis(
      vol, trx,
      avgRow,
      avgTrx,
      topCountry,
      if schema.hasCustomer then DistinctCustomers(rows) else 0,
      topService,
      |Domain(rows, Country)|)
  }

  /** `country.nunique()` counts the groups of `groupby('country')`. */
  lemma CountryCount(rows: seq<Record>)
    ensures |Domain(rows, Country)| == |set r | r in rows :: r.country|
  {
    DomainCount(rows, Country);
    assert (set r | r in rows :: Key(r, Country)) == (set r | r in rows :: r.country);
  }

  /** The latest month and the one before it, when the table has months and
      the rows span at least two of them. */
  function LatestTwo(schema: Schema, rows: seq<Record>): (m: Option<(string, string)>)
    ensures m.Some? <==> schema.hasMonth && |Domain(rows, Month)| >= 2
    ensures m.Some? ==>
      var (latest, previous) := m.value;
      && latest in Domain(rows, Month) && previous in Domain(rows, Month)
      && Lex.Less(previous, latest)
      && (forall x :: x in Domain(rows, Month) && x != latest ==> Lex.Less(x, latest))
      && (forall x :: x in Domain(rows, Month) && x != latest && x != previous ==> Lex.Less(x, previous))
  {
    if schema.hasMonth then LastPair(Domain(rows, Month)) else None
  }

  /** `months[-1], months[-2]` of an ascending list with two or more
      entries. */
  function LastPair(ms: seq<string>): (m: Option<(string, string)>)
    requires Lex.StrictlySorted(ms)
    ensures m.Some? <==> |ms| >= 2
    ensures m.Some? ==>
      var (latest, previous) := m.value;
      && latest in ms && previous in ms
      && Lex.Less(previous, latest)
      && (forall x :: x in ms && x != latest ==> Lex.Less(x, latest))
      && (forall x :: x in ms && x != latest && x != previous ==> Lex.Less(x, previous))
  {
    if |ms| >= 2 then
      Lex.LastTwo(ms);
      Some((ms[|ms| - 1], ms[|ms| - 2]))
    else None
  }


  /** A change that is shown only on a positive base. */
  function Change(cur: int, prev: int): (d: Option<real>)
    ensures d.Some? <==> prev > 0
    ensures d.Some? ==> d.value == Pct(cur, prev)
  {
    if prev > 0 then Some(Pct(cur, prev)) else None
  }

  /** The month-over-month deltas of the KPI cards. */
  datatype Deltas = Deltas(
    latest: string,
    previous: string,
    volume: Option<real>,
    trx: Option<real>,
    customers: Option<real>)

  function MonthOverMonth(schema: Schema, rows: seq<Record>): (d: Option<Deltas>)
    ensures d.Some? <==> LatestTwo(schema, rows).Some?
    ensures d.Some? ==> (d.value.latest, d.value.previous) == LatestTwo(schema, rows).value
    ensures d.Some? ==>
      var cur := Select(rows, Month, d.value.latest);
      var prev := Select(rows, Month, d.value.previous);
      && (d.value.volume.Some? <==> Sum(prev, Volume) > 0)
      && (d.value.volume.Some? ==> d.value.volume.value == Pct(Sum(cur, Volume), Sum(prev, Volume)))
      && (d.value.trx.Some? <==> Sum(prev, Trx) > 0)
      && (d.value.trx.Some? ==> d.value.trx.value == Pct(Sum(cur, Trx), Sum(prev, Trx)))
      && (d.value.customers.Some? <==> schema.hasCustomer && |Customers(prev)| > 0)
      && (d.value.customers.Some? ==> d.value.customers.value == Pct(|Customers(cur)|, |Customers(prev)|))
  {
    match LatestTwo(schema, rows)
    case None => None
    case Some((latest, previous)) =>
      var cur := Select(rows, Month, latest);
      var prev := Select(rows, Month, previous);
      Some(Deltas(
        latest, previous,
        Change(Sum(cur, Volume), Sum(prev, Volume)),
        Change(Sum(cur, Trx), Sum(prev, Trx)),
        if schema.hasCustomer then Change(DistinctCustomers(cur), DistinctCustomers(prev)) else None))
  }
}
