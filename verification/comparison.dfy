/** The month-to-month comparison section: the five countries that grew
    fastest between the previous and the latest month, and every service's
    volume in both months side by side. */
module Comparison {
  import opened Basics
  import opened Records
  import Lex
  import Sorting
  import Kpi

  /** One entry of the growth table. */
  datatype Growth = Growth(country: string, previous: int, current: int, pct: real)

  /** A country takes part in the growth table when it has rows in both
      months and a positive volume in the previous one. */
  predicate Eligible(cur: seq<Record>, prev: seq<Record>, k: string)
  {
    k in Domain(cur, Country) && k in Domain(prev, Country) && GroupVolume(prev, Country, k) > 0
  }

  function GrowthOf(cur: seq<Record>, prev: seq<Record>, k: string): Growth
    requires GroupVolume(prev, Country, k) > 0
  {
    var p := GroupVolume(prev, Country, k);
    var c := GroupVolume(cur, Country, k);
    Growth(k, p, c, Kpi.Pct(c, p))
  }

  function GrowthScore(g: Growth): real
  {
    g.pct
  }

  function GrowthName(g: Growth): string
  {
    g.country
  }

  /** `growth_data`: the growth entries of the eligible countries of `ks`. */
  function Candidates(ks: seq<string>, cur: seq<Record>, prev: seq<Record>): (gs: seq<Growth>)
    ensures forall g :: g in gs ==> g.country in ks && Eligible(cur, prev, g.country) && g == GrowthOf(cur, prev, g.country)
    ensures forall k :: k in ks && Eligible(cur, prev, k) ==> GrowthOf(cur, prev, k) in gs
  {
    if |ks| == 0 then []
    else
      var k := ks[0];
      var rest := Candidates(ks[1..], cur, prev);
      assert ks == [k] + ks[1..];
      if Eligible(cur, prev, k) then [GrowthOf(cur, prev, k)] + rest else rest
  }

  /** Distinct countries give distinct growth entries: one per country. */
  lemma {:induction false} CandidatesDistinct(ks: seq<string>, cur: seq<Record>, prev: seq<Record>)
    requires Lex.StrictlySorted(ks)
    ensures Sorting.NamesDistinct(Candidates(ks, cur, prev), GrowthName)
  {
    if |ks| > 0 {
      var k := ks[0];
      var rest := Candidates(ks[1..], cur, prev);
      CandidatesDistinct(ks[1..], cur, prev);
      forall g | g in rest
        ensures g.country != k
      {
        var i :| 0 <= i < |ks[1..]| && ks[1..][i] == g.country;
        assert Lex.Less(ks[0], ks[i + 1]);
        Lex.Irreflexive(k);
      }
      if Eligible(cur, prev, k) {
        var gs := [GrowthOf(cur, prev, k)] + rest;
        forall i, j | 0 <= i < j < |gs|
          ensures gs[i].country != gs[j].country
        {
          assert gs[j] == rest[j - 1];
          if i > 0 {
            assert gs[i] == rest[i - 1];
          } else {
            assert rest[j - 1] in rest;
          }
        }
      }
    }
  }

  /** The growth entries ranked, largest growth first, ties by name. */
  function Ranked(cur: seq<Record>, prev: seq<Record>): seq<Growth>
  {
    Sorting.Top(Candidates(Domain(cur, Country), cur, prev), 5, GrowthScore, GrowthName)
  }

  lemma RankedMembers(cur: seq<Record>, prev: seq<Record>)
    ensures var r := Ranked(cur, prev);
      && |r| <= 5
      && (forall g :: g in r ==> Eligible(cur, prev, g.country) && g == GrowthOf(cur, prev, g.country))
      && (|r| < 5 ==> forall k :: Eligible(cur, prev, k) ==> GrowthOf(cur, prev, k) in r)
  {
  }

  lemma RankedOrder(cur: seq<Record>, prev: seq<Record>)
    ensures var r := Ranked(cur, prev);
      forall i, j :: 0 <= i < j < |r| ==> r[i].country != r[j].country && r[i].pct >= r[j].pct
  {
    var r := Ranked(cur, prev);
    CandidatesDistinct(Domain(cur, Country), cur, prev);
    forall i, j | 0 <= i < j < |r|
      ensures r[i].country != r[j].country && r[i].pct >= r[j].pct
    {
      assert !Sorting.Ahead(r[j], r[i], GrowthScore, GrowthName);
    }
  }

  lemma RankedExcluded(cur: seq<Record>, prev: seq<Record>)
    ensures var r := Ranked(cur, prev);
      forall k, g :: Eligible(cur, prev, k) && GrowthOf(cur, prev, k) !in r && g in r ==>
        GrowthOf(cur, prev, k).pct <= g.pct
  {
    var all := Candidates(Domain(cur, Country), cur, prev);
    var r := Ranked(cur, prev);
    forall k, g | Eligible(cur, prev, k) && GrowthOf(cur, prev, k) !in r && g in r
      ensures GrowthOf(cur, prev, k).pct <= g.pct
    {
      assert GrowthOf(cur, prev, k) in all;
      assert !Sorting.Ahead(GrowthOf(cur, prev, k), g, GrowthScore, GrowthName);
    }
  }

  /** `sort_values('성장률', ascending=False).head(5)` over `growth_data`.
      The sort is not stable, so the contract fixes the chosen countries and
      the descending order of growth, not the order among equal growths. */
  function GrowthRanking(cur: seq<Record>, prev: seq<Record>): (r: seq<Growth>)
    ensures |r| <= 5
    ensures forall g :: g in r ==> Eligible(cur, prev, g.country) && g == GrowthOf(cur, prev, g.country)
    ensures forall i, j :: 0 <= i < j < |r| ==> r[i].country != r[j].country && r[i].pct >= r[j].pct
    ensures |r| < 5 ==> forall k :: Eligible(cur, prev, k) ==> GrowthOf(cur, prev, k) in r
    ensures forall k, g :: Eligible(cur, prev, k) && GrowthOf(cur, prev, k) !in r && g in r ==>
      GrowthOf(cur, prev, k).pct <= g.pct
  {
    RankedMembers(cur, prev);
    RankedOrder(cur, prev);
    RankedExcluded(cur, prev);
    Ranked(cur, prev)
  }

  /** One row of the service table. */
  datatype ServiceChange = ServiceChange(service: string, current: int, previous: int, change: int, rate: real)

  /** `(cur - prev) / prev.replace(0, 1) * 100`: a zero base is read as 1,
      while the numerator keeps the true previous value. */
  function Rate(cur: int, prev: int): (r: real)
    ensures prev != 0 ==> r == Kpi.Pct(cur, prev)
    ensures prev == 0 ==> r == cur as real * 100.0
  {
    var base := if prev == 0 then 1 else prev;
    ((cur - prev) as real / base as real) * 100.0
  }

  /** The services of the outer merge: those of either month, in ascending
      order. */
  function Services(cur: seq<Record>, prev: seq<Record>): (ks: seq<string>)
    ensures Lex.StrictlySorted(ks)
    ensures forall k :: k in ks <==> k in Domain(cur, Service) || k in Domain(prev, Service)
  {
    Lex.SortedDistinct(Domain(cur, Service) + Domain(prev, Service))
  }

  function ChangeOf(cur: seq<Record>, prev: seq<Record>, k: string): ServiceChange
  {
    var c := GroupVolume(cur, Service, k);
    var p := GroupVolume(prev, Service, k);
    ServiceChange(k, c, p, c - p, Rate(c, p))
  }

  /** `compare_svc`: the outer merge of the two months' service volumes on
      the service, missing sides filled with 0. */
  function CompareServices(cur: seq<Record>, prev: seq<Record>): (cs: seq<ServiceChange>)
    ensures |cs| == |Services(cur, prev)|
    ensures forall i :: 0 <= i < |cs| ==> cs[i].service == Services(cur, prev)[i]
    ensures forall i :: 0 <= i < |cs| ==>
      && cs[i].current == GroupVolume(cur, Service, cs[i].service)
      && cs[i].previous == GroupVolume(prev, Service, cs[i].service)
      && cs[i].change == cs[i].current - cs[i].previous
      && cs[i].rate == Rate(cs[i].current, cs[i].previous)
  {
    var ks := Services(cur, prev);
    seq(|ks|, i requires 0 <= i < |ks| => ChangeOf(cur, prev, ks[i]))
  }

  /** A service with no rows in a month shows 0 for that month. */
  lemma AbsentIsZero(cur: seq<Record>, prev: seq<Record>, i: nat)
    requires i < |CompareServices(cur, prev)|
    ensures var c := CompareServices(cur, prev)[i];
      (c.service !in Domain(cur, Service) ==> c.current == 0)
      && (c.service !in Domain(prev, Service) ==> c.previous == 0)
  {
    var c := CompareServices(cur, prev)[i];
    DomainSelect(cur, Service, c.service);
    DomainSelect(prev, Service, c.service);
  }

  function CurrentTotal(cs: seq<ServiceChange>): int
  {
    if |cs| == 0 then 0 else cs[0].current + CurrentTotal(cs[1..])
  }

  function PreviousTotal(cs: seq<ServiceChange>): int
  {
    if |cs| == 0 then 0 else cs[0].previous + PreviousTotal(cs[1..])
  }

  lemma {:induction false} TotalsOver(cur: seq<Record>, prev: seq<Record>, ks: seq<string>)
    ensures var cs := seq(|ks|, i requires 0 <= i < |ks| => ChangeOf(cur, prev, ks[i]));
      CurrentTotal(cs) == SumOver(cur, Service, ks, Volume)
      && PreviousTotal(cs) == SumOver(prev, Service, ks, Volume)
  {
    if |ks| > 0 {
      TotalsOver(cur, prev, ks[1..]);
      var cs := seq(|ks|, i requires 0 <= i < |ks| => ChangeOf(cur, prev, ks[i]));
      assert cs[1..] == seq(|ks[1..]|, i requires 0 <= i < |ks[1..]| => ChangeOf(cur, prev, ks[1..][i]));
    }
  }

  /** The outer merge loses no volume: each month's column adds up to that
      month's total. */
  lemma CompareKeepsTotals(cur: seq<Record>, prev: seq<Record>)
    ensures CurrentTotal(CompareServices(cur, prev)) == Sum(cur, Volume)
    ensures PreviousTotal(CompareServices(cur, prev)) == Sum(prev, Volume)
  {
    var ks := Services(cur, prev);
    TotalsOver(cur, prev, ks);
    Lex.StrictlySortedDistinct(ks);
    SumOverKeys(cur, Service, ks, Volume);
    SumOverKeys(prev, Service, ks, Volume);
  }

  /** The comparison section: the latest month and the one before it,
      the growth table and the service table over those months' rows. */
  datatype Section = Section(latest: string, previous: string, growth: seq<Growth>, services: seq<ServiceChange>)

  /** The section is drawn when the table has months and the rows span at
      least two of them; both tables compare the rows of the latest month
      with those of the month before. */
  function MonthComparison(schema: Schema, rows: seq<Record>): (c: Option<Section>)
    ensures c.Some? <==> schema.hasMonth && |Domain(rows, Month)| >= 2
    ensures c.Some? ==> (c.value.latest, c.value.previous) == Kpi.LatestTwo(schema, rows).value
    ensures c.Some? ==>
      var cur := Select(rows, Month, c.value.latest);
      var prev := Select(rows, Month, c.value.previous);
      && c.value.growth == GrowthRanking(cur, prev)
      && c.value.services == CompareServices(cur, prev)
  {
    match Kpi.LatestTwo(schema, rows)
    case None => None
    case Some((latest, previous)) =>
      var cur := Select(rows, Month, latest);
      var prev := Select(rows, Month, previous);
      Some(Section(latest, previous, GrowthRanking(cur, prev), CompareServices(cur, prev)))
  }

  /** The service table's two columns add up to the volumes of the latest
      and the previous month, and the rows compared are all of the table's
      rows of those two months. */
  lemma ComparisonTotals(schema: Schema, rows: seq<Record>)
    requires MonthComparison(schema, rows).Some?
    ensures var c := MonthComparison(schema, rows).value;
      && CurrentTotal(c.services) == GroupVolume(rows, Month, c.latest)
      && PreviousTotal(c.services) == GroupVolume(rows, Month, c.previous)
      && c.latest != c.previous
  {
    var c := MonthComparison(schema, rows).value;
    CompareKeepsTotals(Select(rows, Month, c.latest), Select(rows, Month, c.previous));
    Lex.Irreflexive(c.previous);
  }
}
