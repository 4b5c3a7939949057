/** The distribution section: every country's summed volume placed in one of
    five bands relative to the largest country, and the countries split into
    four tiers by rank. */
module Distribution {
  import opened Basics
  import opened Records
  import Sorting
  import Grouping

  // ---------------------------------------------------------------------
  // Magnitude bands
  // ---------------------------------------------------------------------

  /** The labels of the five bands, lowest first. */
  datatype Band = Bottom | LowerMid | Mid | UpperMid | Top

  /** The position of a band in the category order of the cut. */
  function Level(b: Band): nat
  {
    match b
    case Bottom => 0
    case LowerMid => 1
    case Mid => 2
    case UpperMid => 3
    case Top => 4
  }

  /** The left edge of a band, as a fraction of the largest volume. */
  function Lower(b: Band): real
  {
    match b
    case Bottom => 0.0
    case LowerMid => 0.01
    case Mid => 0.05
    case UpperMid => 0.2
    case Top => 0.5
  }

  /** The right edge of a band, as a fraction of the largest volume. */
  function Upper(b: Band): real
  {
    match b
    case Bottom => 0.01
    case LowerMid => 0.05
    case Mid => 0.2
    case UpperMid => 0.5
    case Top => 1.1
  }

  /** `x` falls in band `b` of a cut whose largest volume is `m`: the
      intervals are closed on the right, and the lowest one is closed on the
      left as well (`include_lowest`). */
  predicate Within(b: Band, x: real, m: real)
  {
    (if b == Bottom then 0.0 <= x else Lower(b) * m < x) && x <= Upper(b) * m
  }

  /** `pd.cut` of one volume on the edges 0, 1%, 5%, 20%, 50% and 110% of
      `max`; a volume outside every interval gets no label. */
  function BandOf(v: int, max: int): (b: Option<Band>)
    requires max > 0
    ensures b.Some? <==> 0 <= v && v as real <= 1.1 * max as real
    ensures b.Some? ==> Within(b.value, v as real, max as real)
  {
    var x, m := v as real, max as real;
    if x < 0.0 || x > 1.1 * m then None
    else if x <= 0.01 * m then Some(Bottom)
    else if x <= 0.05 * m then Some(LowerMid)
    else if x <= 0.2 * m then Some(Mid)
    else if x <= 0.5 * m then Some(UpperMid)
    else Some(Top)
  }

  /** The bands do not overlap: a volume lies in at most one of them. */
  lemma WithinUnique(b: Band, b': Band, x: real, m: real)
    requires m > 0.0 && Within(b, x, m) && Within(b', x, m)
    ensures b == b'
  {
    if Level(b) < Level(b') {
      assert Upper(b) <= Lower(b');
    } else if Level(b') < Level(b) {
      assert Upper(b') <= Lower(b);
    }
  }

  /** The label the cut gives is exactly the band that contains the volume. */
  lemma BandOfExact(v: int, max: int, b: Band)
    requires max > 0
    ensures BandOf(v, max) == Some(b) <==> Within(b, v as real, max as real)
  {
    if Within(b, v as real, max as real) {
      assert 0 <= v && v as real <= 1.1 * max as real;
      WithinUnique(BandOf(v, max).value, b, v as real, max as real);
    }
  }

  /** A larger volume never gets a lower band. */
  lemma BandMonotone(v: int, w: int, max: int)
    requires max > 0 && 0 <= v <= w <= max
    ensures BandOf(v, max).Some? && BandOf(w, max).Some?
    ensures Level(BandOf(v, max).value) <= Level(BandOf(w, max).value)
  {
  }

  /** The largest country lands in the top band, a zero volume in the lowest. */
  lemma BandExtremes(max: int)
    requires max > 0
    ensures BandOf(max, max) == Some(Top)
    ensures BandOf(0, max) == Some(Bottom)
  {
  }

  /** One country of the cut: its summed volume and its label. */
  datatype Placed = Placed(country: string, volume: int, band: Option<Band>)

  /** `country_volumes['VOLUMN'].max()`: the summed volume of the leading
      country. */
  function Peak(rows: seq<Record>): int
  {
    GroupVolume(rows, Country, Grouping.TopKey(rows, Country))
  }

  /** No country's summed volume exceeds the peak. */
  lemma PeakIsMax(rows: seq<Record>, k: string)
    requires k in Domain(rows, Country)
    ensures GroupVolume(rows, Country, k) <= Peak(rows)
  {
    Grouping.TopKeyLeads(rows, Country);
  }

  /** The banded country volumes. `None` when there are no rows (the section
      is not drawn) and when the peak is not positive: the edges are then not
      increasing and the cut raises. */
  function Histogram(rows: seq<Record>): (p: Option<seq<Placed>>)
    ensures p.Some? <==> |rows| > 0 && Peak(rows) > 0
    ensures p.Some? ==>
      var ks := Domain(rows, Country);
      |p.value| == |ks|
      && forall i :: 0 <= i < |ks| ==>
        && p.value[i].country == ks[i]
        && p.value[i].volume == GroupVolume(rows, Country, ks[i])
        && (p.value[i].band.Some? <==> p.value[i].volume >= 0)
        && (p.value[i].band.Some? ==> Within(p.value[i].band.value, p.value[i].volume as real, Peak(rows) as real))
  {
    if |rows| == 0 || Peak(rows) <= 0 then None
    else
      var ks := Domain(rows, Country);
      var max := Peak(rows);
      var p := seq(|ks|, i requires 0 <= i < |ks| =>
        Placed(ks[i], GroupVolume(rows, Country, ks[i]), BandOf(GroupVolume(rows, Country, ks[i]), max)));
      assert forall i :: 0 <= i < |ks| ==> p[i].volume <= max by {
        forall i | 0 <= i < |ks|
          ensures p[i].volume <= max
        {
          PeakIsMax(rows, ks[i]);
        }
      }
      Some(p)
  }

  /** The countries of band `b`. */
  function Count(p: seq<Placed>, b: Band): nat
  {
    if |p| == 0 then 0
    else Count(p[..|p| - 1], b) + (if p[|p| - 1].band == Some(b) then 1 else 0)
  }

  /** The summed volume of the countries of band `b`. */
  function VolumeIn(p: seq<Placed>, b: Band): int
  {
    if |p| == 0 then 0
    else VolumeIn(p[..|p| - 1], b) + (if p[|p| - 1].band == Some(b) then p[|p| - 1].volume else 0)
  }

  /** The countries that got a label at all. */
  function Labelled(p: seq<Placed>): nat
  {
    if |p| == 0 then 0
    else Labelled(p[..|p| - 1]) + (if p[|p| - 1].band.Some? then 1 else 0)
  }

  /** One bar of the band chart: a band, its number of countries and their
      summed volume. */
  datatype Bar = Bar(band: Band, countries: nat, volume: int)

  /** No band comes twice and the bands go from low to high. */
  predicate Ascending(bs: seq<Band>)
  {
    forall i, j :: 0 <= i < j < |bs| ==> Level(bs[i]) < Level(bs[j])
  }

  /** The bar of band `b`. */
  function BarOf(p: seq<Placed>, b: Band): Bar
  {
    Bar(b, Count(p, b), VolumeIn(p, b))
  }

  /** The bars of the bands of `bs` that hold a country, in the order of `bs`. */
  function BarsOf(p: seq<Placed>, bs: seq<Band>): (bars: seq<Bar>)
    ensures forall bar :: bar in bars ==> bar.band in bs && bar.countries > 0 && bar == BarOf(p, bar.band)
    ensures forall b :: b in bs && Count(p, b) > 0 ==> BarOf(p, b) in bars
  {
    if |bs| == 0 then []
    else
      var rest := BarsOf(p, bs[1..]);
      assert forall x :: x in bs ==> x == bs[0] || x in bs[1..];
      if Count(p, bs[0]) > 0 then [BarOf(p, bs[0])] + rest else rest
  }

  /** The bars go from the lowest band to the highest. */
  predicate InOrder(bars: seq<Bar>)
  {
    forall i, j :: 0 <= i < j < |bars| ==> Level(bars[i].band) < Level(bars[j].band)
  }

  lemma AscendingTail(bs: seq<Band>)
    requires Ascending(bs) && |bs| > 0
    ensures Ascending(bs[1..])
    ensures forall b :: b in bs[1..] ==> Level(bs[0]) < Level(b)
  {
    forall i, j | 0 <= i < j < |bs[1..]|
      ensures Level(bs[1..][i]) < Level(bs[1..][j])
    {
      assert bs[1..][i] == bs[i + 1] && bs[1..][j] == bs[j + 1];
    }
    forall b | b in bs[1..]
      ensures Level(bs[0]) < Level(b)
    {
      var k :| 0 <= k < |bs[1..]| && bs[1..][k] == b;
      assert bs[k + 1] == b;
    }
  }

  lemma ConsInOrder(bar: Bar, rest: seq<Bar>)
    requires InOrder(rest)
    requires forall r :: r in rest ==> Level(bar.band) < Level(r.band)
    ensures InOrder([bar] + rest)
  {
    var bars := [bar] + rest;
    forall i, j | 0 <= i < j < |bars|
      ensures Level(bars[i].band) < Level(bars[j].band)
    {
      assert bars[j] == rest[j - 1];
      assert rest[j - 1] in rest;
      if i > 0 {
        assert bars[i] == rest[i - 1];
      }
    }
  }

  /** Bars come in the order of their bands. */
  lemma {:induction false} BarsOrdered(p: seq<Placed>, bs: seq<Band>)
    requires Ascending(bs)
    ensures InOrder(BarsOf(p, bs))
  {
    if |bs| > 0 {
      var rest := BarsOf(p, bs[1..]);
      AscendingTail(bs);
      BarsOrdered(p, bs[1..]);
      if Count(p, bs[0]) > 0 {
        ConsInOrder(BarOf(p, bs[0]), rest);
      }
    }
  }

  /** The bands in category order. */
  const AllBands: seq<Band> := [Bottom, LowerMid, Mid, UpperMid, Top]

  /** `dist_summary`: one bar per band that holds a country (`observed=True`),
      lowest band first. */
  function Summary(p: seq<Placed>): (bars: seq<Bar>)
    ensures forall bar :: bar in bars ==> bar.countries > 0 && bar == BarOf(p, bar.band)
    ensures forall b :: Count(p, b) > 0 ==> BarOf(p, b) in bars
    ensures InOrder(bars)
  {
    forall b: Band
      ensures b in AllBands
    {
      assert AllBands[Level(b)] == b;
    }
    assert Ascending(AllBands);
    var bars := BarsOf(p, AllBands);
    BarsOrdered(p, AllBands);
    bars
  }

  function CountryTotal(bars: seq<Bar>): int
  {
    if |bars| == 0 then 0 else bars[0].countries + CountryTotal(bars[1..])
  }

  function BandTotal(p: seq<Placed>, bs: seq<Band>): int
  {
    if |bs| == 0 then 0 else Count(p, bs[0]) + BandTotal(p, bs[1..])
  }

  lemma {:induction false} BarsTotal(p: seq<Placed>, bs: seq<Band>)
    ensures CountryTotal(BarsOf(p, bs)) == BandTotal(p, bs)
  {
    if |bs| > 0 {
      BarsTotal(p, bs[1..]);
      var rest := BarsOf(p, bs[1..]);
      if Count(p, bs[0]) > 0 {
        var bars := [BarOf(p, bs[0])] + rest;
        assert bars[1..] == rest;
      }
    }
  }

  /** Every labelled country is counted in exactly one band. */
  lemma {:induction false} BandsPartition(p: seq<Placed>)
    ensures Count(p, Bottom) + Count(p, LowerMid) + Count(p, Mid) + Count(p, UpperMid) + Count(p, Top) == Labelled(p)
  {
    if |p| > 0 {
      var init, last := p[..|p| - 1], p[|p| - 1];
      BandsPartition(init);
      assert Labelled(p) == Labelled(init) + (if last.band.Some? then 1 else 0);
      assert Count(p, Bottom) == Count(init, Bottom) + (if last.band == Some(Bottom) then 1 else 0);
      assert Count(p, LowerMid) == Count(init, LowerMid) + (if last.band == Some(LowerMid) then 1 else 0);
      assert Count(p, Mid) == Count(init, Mid) + (if last.band == Some(Mid) then 1 else 0);
      assert Count(p, UpperMid) == Count(init, UpperMid) + (if last.band == Some(UpperMid) then 1 else 0);
      assert Count(p, Top) == Count(init, Top) + (if last.band == Some(Top) then 1 else 0);
      match last.band {
        case None =>
        case Some(b) =>
          match b {
            case Bottom =>
            case LowerMid =>
            case Mid =>
            case UpperMid =>
            case Top =>
          }
      }
    }
  }

  /** The bars count every labelled country once. */
  lemma SummaryCounts(p: seq<Placed>)
    ensures CountryTotal(Summary(p)) == Labelled(p)
  {
    BarsTotal(p, AllBands);
    var bs := AllBands;
    assert BandTotal(p, bs) == Count(p, Bottom) + BandTotal(p, bs[1..]);
    assert BandTotal(p, bs[1..]) == Count(p, LowerMid) + BandTotal(p, bs[2..]);
    assert BandTotal(p, bs[2..]) == Count(p, Mid) + BandTotal(p, bs[3..]);
    assert BandTotal(p, bs[3..]) == Count(p, UpperMid) + BandTotal(p, bs[4..]);
    assert BandTotal(p, bs[4..]) == Count(p, Top) + BandTotal(p, bs[5..]);
    BandsPartition(p);
  }

  /** A country is labelled when its summed volume is not negative. */
  lemma {:induction false} LabelledCount(p: seq<Placed>)
    requires forall i :: 0 <= i < |p| ==> (p[i].band.Some? <==> p[i].volume >= 0)
    ensures (forall i :: 0 <= i < |p| ==> p[i].volume >= 0) ==> Labelled(p) == |p|
  {
    if |p| > 0 {
      LabelledCount(p[..|p| - 1]);
    }
  }

  lemma {:induction false} SumNonNegative(rows: seq<Record>, m: Measure)
    requires forall r :: r in rows ==> Amount(r, m) >= 0
    ensures Sum(rows, m) >= 0
  {
    if |rows| > 0 {
      assert rows[|rows| - 1] in rows;
      assert forall r :: r in rows[..|rows| - 1] ==> r in rows;
      SumNonNegative(rows[..|rows| - 1], m);
    }
  }

  /** With no negative volumes every country lands in a band, so the bars
      add up to the number of countries. */
  lemma EveryCountryBanded(rows: seq<Record>)
    requires forall r :: r in rows ==> r.volume >= 0
    ensures Histogram(rows).Some? ==>
      CountryTotal(Summary(Histogram(rows).value)) == |Domain(rows, Country)|
  {
    if Histogram(rows).None? { return; }
    var p := Histogram(rows).value;
    var ks := Domain(rows, Country);
    forall i | 0 <= i < |p|
      ensures p[i].volume >= 0
    {
      SumNonNegative(Select(rows, Country, ks[i]), Volume);
    }
    LabelledCount(p);
    SummaryCounts(p);
  }

  // ---------------------------------------------------------------------
  // Tiers
  // ---------------------------------------------------------------------

  /** A value for each of the four tiers. */
  datatype Tiers = Tiers(t1: int, t2: int, t3: int, t4: int)

  function Max1(n: int): int
  {
    if n < 1 then 1 else n
  }

  /** The largest power of two not above `x`. */
  function PowerBelow(x: nat): (p: nat)
    requires x >= 1
    ensures 1 <= p <= x < 2 * p
  {
    if x == 1 then 1 else 2 * PowerBelow(x / 2)
  }

  /** `int(n * 0.35)`, the product taken in double precision, for `n`
      below 2^50. The double nearest 0.35 is 0.35 - 0.4 / 2^54, so the exact
      product of `n` with it lies below 0.35 n, by less than 0.025 under
      that bound. Rounding it to a double cannot pass a whole number, which
      is itself a double, and it moves up by at most half the spacing of
      the doubles, 2^-5 below 2^49; a fractional 0.35 n is at least 0.05
      from the next whole number, so its product truncates to the exact
      floor. What remains is 0.35 n a whole number m, that is n = 20 j and
      m = 7 j. The exact product is then m - j / 2^51. With
      2^e <= m < 2^(e+1), the doubles just below m are 2^(e-52) apart, so
      the product rounds back to m when j / 2^51 <= 2^(e-53), that is
      4 j <= 2^e (a tie goes to m, whose last mantissa bit is even).
      Otherwise it stays below m and truncates to m - 1. From about 1.6 *
      10^15 on, the spacing is 2^-3 and a product just below a whole number
      can round up onto it, which this closed form does not follow. */
  function Trunc35(n: nat): (t: nat)
    ensures t <= n * 35 / 100
    ensures n * 35 / 100 <= t + 1
  {
    var m := n * 35 / 100;
    if n > 0 && n % 20 == 0 && 4 * (n / 20) > PowerBelow(7 * (n / 20)) then
      assert n >= 20;
      m - 1
    else m
  }

  /** The tier sizes as the table states them: 10%, 25% and 35% of the
      countries, each truncated but at least 1, and the remainder. The
      products with 0.10 and 0.25 truncate to the exact floors: 0.25 is a
      double, and the double nearest 0.10 lies above it, so the product
      never falls below a whole number. */
  function StatedCounts(k: nat): (t: Tiers)
    ensures t.t1 >= 1 && t.t2 >= 1 && t.t3 >= 1
    ensures t.t1 + t.t2 + t.t3 + t.t4 == k
  {
    var t1 := Max1(k * 10 / 100);
    var t2 := Max1(k * 25 / 100);
    var t3 := Max1(Trunc35(k));
    Tiers(t1, t2, t3, k - t1 - t2 - t3)
  }

  /** The first two stated counts are the exact floors of 10% and 25%; the
      third is the floor of 35% or, when 35% is a whole number, possibly
      one less. */
  lemma StatedCountsTruncate(k: nat)
    ensures StatedCounts(k).t1 == Max1(k / 10) && StatedCounts(k).t2 == Max1(k / 4)
    ensures var t3 := StatedCounts(k).t3;
      t3 == Max1(k * 35 / 100) || (k % 20 == 0 && t3 == k * 35 / 100 - 1)
  {
  }

  /** The double product shows at 180 countries: 35% of them is 63, but
      `int(180 * 0.35)` is 62. At 20 countries the product is exact. */
  lemma ThirdTierRounding()
    ensures 180 * 35 / 100 == 63 && StatedCounts(180).t3 == 62
    ensures 20 * 35 / 100 == 7 && StatedCounts(20).t3 == 7
  {
    assert PowerBelow(1) == 1;
    assert PowerBelow(3) == 2;
    assert PowerBelow(7) == 4;
    assert PowerBelow(15) == 8;
    assert PowerBelow(31) == 16;
    assert PowerBelow(63) == 32;
  }

  /** From three countries on, the first three tiers fit, so the remainder
      is not negative. */
  lemma StatedCountsFit(k: nat)
    requires k >= 3
    ensures StatedCounts(k).t4 >= 0
  {
  }

  /** Where the tiers end in the volumes: the stated counts added up and
      cut off at the end, as `head` and `iloc` cut them off. */
  function Cuts(k: nat): (c: (nat, nat, nat))
    ensures c.0 <= c.1 <= c.2 <= k
  {
    var t := StatedCounts(k);
    (Min(t.t1, k), Min(t.t1 + t.t2, k), Min(t.t1 + t.t2 + t.t3, k))
  }

  /** The countries of each tier, from the volumes in descending order:
      `head(t1)`, `iloc[t1:t1+t2]`, `iloc[t1+t2:t1+t2+t3]`, and `tail(t4)`
      when `t4` is positive. */
  function Split<T>(xs: seq<T>): (parts: seq<seq<T>>)
    ensures |parts| == 4
    ensures parts[0] + parts[1] + parts[2] + parts[3] == xs
    ensures StatedCounts(|xs|).t4 <= 0 ==> parts[3] == []
  {
    var t := StatedCounts(|xs|);
    var (a, b, c) := Cuts(|xs|);
    var last := if t.t4 > 0 then xs[|xs| - t.t4..] else [];
    assert last == xs[c..];
    assert xs[..a] + xs[a..b] == xs[..b];
    assert xs[..b] + xs[b..c] == xs[..c];
    assert xs[..c] + xs[c..] == xs;
    [xs[..a], xs[a..b], xs[b..c], last]
  }

  /** The tier volumes `head(t1).sum()`, ... of the table: each tier's
      volume is the sum of its run of the descending volumes. */
  function TierVolumes(vols: seq<int>): (v: Tiers)
    ensures var (a, b, c) := Cuts(|vols|);
      v == Tiers(Total(vols[..a]), Total(vols[a..b]), Total(vols[b..c]), Total(vols[c..]))
    ensures v.t1 + v.t2 + v.t3 + v.t4 == Total(vols)
  {
    SplitSlices(vols);
    var parts := Split(vols);
    TotalAppend(parts[0], parts[1]);
    TotalAppend(parts[0] + parts[1], parts[2]);
    TotalAppend(parts[0] + parts[1] + parts[2], parts[3]);
    Tiers(Total(parts[0]), Total(parts[1]), Total(parts[2]), Total(parts[3]))
  }

  /** The number of countries in each tier. */
  function TierSizes(k: nat): (t: Tiers)
    ensures t.t1 >= 0 && t.t2 >= 0 && t.t3 >= 0 && t.t4 >= 0
    ensures t.t1 + t.t2 + t.t3 + t.t4 == k
  {
    var (a, b, c) := Cuts(k);
    Tiers(a, b - a, c - b, k - c)
  }

  /** `TierSizes` counts what `Split` puts in each tier. */
  lemma SizesMatchSplit(vols: seq<int>)
    ensures var parts := Split(vols);
      TierSizes(|vols|) == Tiers(|parts[0]|, |parts[1]|, |parts[2]|, |parts[3]|)
  {
  }

  /** The stated counts are right from three countries on. */
  lemma SizesAgree(k: nat)
    requires k >= 3
    ensures TierSizes(k) == StatedCounts(k)
  {
    StatedCountsFit(k);
  }

  /** With a single country the table states 1, 1, 1 and -2 countries, while
      the first tier holds the one country and the others none. */
  lemma StatedCountsWrong()
    ensures StatedCounts(1) == Tiers(1, 1, 1, -2)
    ensures var parts := Split([7]); |parts[0]| == 1 && |parts[1]| == 0 && |parts[2]| == 0 && |parts[3]| == 0
    ensures StatedCounts(1) != TierSizes(1)
  {
  }

  /** Each tier's share of the total volume, in percent. */
  datatype Shares = Shares(s1: real, s2: real, s3: real, s4: real)

  /** `거래금액 / 거래금액.sum() * 100`; `None` when the volumes add up to
      zero and the division is undefined. */
  function ShareOf(v: Tiers): (s: Option<Shares>)
    ensures s.Some? <==> v.t1 + v.t2 + v.t3 + v.t4 != 0
    ensures s.Some? ==>
      var total := (v.t1 + v.t2 + v.t3 + v.t4) as real;
      && s.value.s1 * total == v.t1 as real * 100.0
      && s.value.s2 * total == v.t2 as real * 100.0
      && s.value.s3 * total == v.t3 as real * 100.0
      && s.value.s4 * total == v.t4 as real * 100.0
  {
    var total := (v.t1 + v.t2 + v.t3 + v.t4) as real;
    if total == 0.0 then None
    else
      Some(Shares(v.t1 as real / total * 100.0, v.t2 as real / total * 100.0,
                  v.t3 as real / total * 100.0, v.t4 as real / total * 100.0))
  }

  /** The four shares make up the whole. */
  lemma SharesComplete(v: Tiers)
    requires ShareOf(v).Some?
    ensures var s := ShareOf(v).value; s.s1 + s.s2 + s.s3 + s.s4 == 100.0
  {
    var s := ShareOf(v).value;
    var total := (v.t1 + v.t2 + v.t3 + v.t4) as real;
    var sum := s.s1 + s.s2 + s.s3 + s.s4;
    assert sum * total == s.s1 * total + s.s2 * total + s.s3 * total + s.s4 * total;
    assert (sum - 100.0) * total == 0.0;
  }

  /** The volume column of a list of groups. */
  function Volumes(gs: seq<Grouping.Group>): (vs: seq<int>)
    ensures |vs| == |gs|
  {
    seq(|gs|, i requires 0 <= i < |gs| => gs[i].volume)
  }

  lemma {:induction false} VolumesTotal(gs: seq<Grouping.Group>)
    ensures Total(Volumes(gs)) == Grouping.TotalVolume(gs)
  {
    if |gs| > 0 {
      VolumesTotal(gs[1..]);
      assert Volumes(gs)[1..] == Volumes(gs[1..]);
    }
  }

  /** `groupby('country')['VOLUMN'].sum().sort_values(ascending=False)`:
      every country once, with its summed volume, largest volume first. */
  function CountryRanking(rows: seq<Record>): (gs: seq<Grouping.Group>)
    ensures |gs| == |Domain(rows, Country)|
    ensures forall i :: 0 <= i < |gs| ==>
      gs[i].key in Domain(rows, Country) && gs[i].volume == GroupVolume(rows, Country, gs[i].key)
    ensures forall k :: k in Domain(rows, Country) ==> k in Grouping.Keys(gs)
    ensures forall i, j :: 0 <= i < j < |gs| ==> gs[i].key != gs[j].key && gs[i].volume >= gs[j].volume
  {
    var all := Grouping.GroupBy(rows, Country);
    var gs := Grouping.TopGroups(rows, Country, |Domain(rows, Country)|);
    assert gs == Sorting.Top(all, |all|, Grouping.Score, Grouping.Name);
    forall k | k in Domain(rows, Country)
      ensures k in Grouping.Keys(gs)
    {
      var g := Grouping.GroupOf(rows, Country, k);
      Grouping.GroupByMember(rows, Country, g);
      var i :| 0 <= i < |gs| && gs[i] == g;
      assert Grouping.Keys(gs)[i] == k;
    }
    assert forall i :: 0 <= i < |gs| ==> gs[i] in gs;
    gs
  }

  /** The ranking is the group-by in rank order, so it keeps the total. */
  lemma RankingTotal(rows: seq<Record>)
    ensures Grouping.TotalVolume(CountryRanking(rows)) == Sum(rows, Volume)
  {
    var all := Grouping.GroupBy(rows, Country);
    var ranked := Sorting.Rank(all, Grouping.Score, Grouping.Name);
    assert CountryRanking(rows) == ranked[..|all|] == ranked;
    Grouping.TotalVolumeRank(all);
    Grouping.GroupByTotal(rows, Country);
  }

  /** The volume column of the country ranking: each entry is the summed
      volume of the country ranked there, largest first, and together they
      make up the total volume. */
  function CountryVolumes(rows: seq<Record>): (vols: seq<int>)
    ensures |vols| == |Domain(rows, Country)|
    ensures forall i :: 0 <= i < |vols| ==> vols[i] == GroupVolume(rows, Country, CountryRanking(rows)[i].key)
    ensures forall i, j :: 0 <= i < j < |vols| ==> vols[i] >= vols[j]
    ensures Total(vols) == Sum(rows, Volume)
  {
    var ranked := CountryRanking(rows);
    VolumesTotal(ranked);
    RankingTotal(rows);
    Volumes(ranked)
  }

  /** Every volume of `xs` is at least every volume of `ys`. */
  predicate Before(xs: seq<int>, ys: seq<int>)
  {
    forall x, y :: x in xs && y in ys ==> x >= y
  }

  lemma SliceBefore(vols: seq<int>, lo: nat, mid: nat, lo': nat, hi: nat)
    requires forall i, j :: 0 <= i < j < |vols| ==> vols[i] >= vols[j]
    requires lo <= mid <= lo' <= hi <= |vols|
    ensures Before(vols[lo..mid], vols[lo'..hi])
  {
    forall x, y | x in vols[lo..mid] && y in vols[lo'..hi]
      ensures x >= y
    {
      var i :| 0 <= i < |vols[lo..mid]| && vols[lo..mid][i] == x;
      var j :| 0 <= j < |vols[lo'..hi]| && vols[lo'..hi][j] == y;
      assert vols[lo + i] == x && vols[lo' + j] == y;
    }
  }

  /** The tiers are consecutive runs of the volumes. */
  lemma SplitSlices<T>(xs: seq<T>)
    ensures var (a, b, c) := Cuts(|xs|);
      Split(xs) == [xs[..a], xs[a..b], xs[b..c], xs[c..]]
  {
  }

  /** A later tier never holds a larger volume than an earlier one. */
  lemma SplitOrdered(vols: seq<int>)
    requires forall i, j :: 0 <= i < j < |vols| ==> vols[i] >= vols[j]
    ensures var parts := Split(vols);
      && Before(parts[0], parts[1]) && Before(parts[0], parts[2]) && Before(parts[0], parts[3])
      && Before(parts[1], parts[2]) && Before(parts[1], parts[3])
      && Before(parts[2], parts[3])
  {
    var (a, b, c) := Cuts(|vols|);
    var k := |vols|;
    SplitSlices(vols);
    assert vols[..a] == vols[0..a] && vols[c..] == vols[c..k];
    SliceBefore(vols, 0, a, a, b);
    SliceBefore(vols, 0, a, b, c);
    SliceBefore(vols, 0, a, c, k);
    SliceBefore(vols, a, b, b, c);
    SliceBefore(vols, a, b, c, k);
    SliceBefore(vols, b, c, c, k);
  }

  /** `names[j]` is a country whose summed volume is `vols[j]`, for
      every position. */
  ghost predicate Paired(rows: seq<Record>, names: seq<string>, vols: seq<int>)
  {
    |names| == |vols| && forall j :: 0 <= j < |vols| ==> vols[j] == GroupVolume(rows, Country, names[j])
  }

  lemma PairedSlice(rows: seq<Record>, names: seq<string>, vols: seq<int>, lo: nat, hi: nat)
    requires Paired(rows, names, vols) && lo <= hi <= |vols|
    ensures Paired(rows, names[lo..hi], vols[lo..hi])
  {
    forall j | 0 <= j < hi - lo
      ensures vols[lo..hi][j] == GroupVolume(rows, Country, names[lo..hi][j])
    {
      assert vols[lo..hi][j] == vols[lo + j] && names[lo..hi][j] == names[lo + j];
    }
  }

  /** Each tier of names is paired with the same tier of volumes. */
  ghost predicate PairedTiers(rows: seq<Record>, names: seq<seq<string>>, vols: seq<seq<int>>)
  {
    && |names| == 4 && |vols| == 4
    && Paired(rows, names[0], vols[0]) && Paired(rows, names[1], vols[1])
    && Paired(rows, names[2], vols[2]) && Paired(rows, names[3], vols[3])
  }

  /** Cutting two paired lists at the same places pairs the tiers. */
  lemma SplitPaired(rows: seq<Record>, names: seq<string>, vols: seq<int>)
    requires Paired(rows, names, vols)
    ensures PairedTiers(rows, Split(names), Split(vols))
  {
    var (a, b, c) := Cuts(|vols|);
    var k := |vols|;
    SplitSlices(vols);
    SplitSlices(names);
    assert names[..a] == names[0..a] && vols[..a] == vols[0..a];
    assert names[c..] == names[c..k] && vols[c..] == vols[c..k];
    PairedSlice(rows, names, vols, 0, a);
    PairedSlice(rows, names, vols, a, b);
    PairedSlice(rows, names, vols, b, c);
    PairedSlice(rows, names, vols, c, k);
  }

  /** The ranked country names: each country once, next to its volume. */
  lemma RankingNames(rows: seq<Record>)
    ensures var names := Grouping.Keys(CountryRanking(rows));
      && Paired(rows, names, CountryVolumes(rows))
      && Distinct(names)
      && forall k :: k in names <==> k in Domain(rows, Country)
  {
    var ranked := CountryRanking(rows);
    var names := Grouping.Keys(ranked);
    forall k | k in names
      ensures k in Domain(rows, Country)
    {
      var i :| 0 <= i < |names| && names[i] == k;
    }
  }

  /** The country lists of the tier expander: the ranked countries cut by
      the same `head`, `iloc` and `tail` as the volumes. Every country is in
      exactly one tier, and each tier lists the countries whose volumes make
      up that tier's run of the volume list. */
  function TierCountries(rows: seq<Record>): (tiers: seq<seq<string>>)
    ensures |tiers| == 4
    ensures PairedTiers(rows, tiers, Split(CountryVolumes(rows)))
    ensures Distinct(tiers[0] + tiers[1] + tiers[2] + tiers[3])
    ensures forall k :: k in tiers[0] + tiers[1] + tiers[2] + tiers[3] <==> k in Domain(rows, Country)
  {
    var names := Grouping.Keys(CountryRanking(rows));
    RankingNames(rows);
    SplitPaired(rows, names, CountryVolumes(rows));
    Split(names)
  }

  /** The tier table: the number of countries of each tier, their volume
      and their share. */
  datatype TierTable = TierTable(counts: Tiers, volumes: Tiers, shares: Option<Shares>)

  /** The tier table over the filtered rows; `None` when there are none and
      the section is not drawn. The counts are the sizes of the tiers as
      `Split` forms them (see `StatedCountsWrong` for the stated ones). */
  function TierBreakdown(rows: seq<Record>): (t: Option<TierTable>)
    ensures t.Some? <==> |rows| > 0
    ensures t.Some? ==>
      var parts := Split(CountryVolumes(rows));
      && t.value.counts == TierSizes(|Domain(rows, Country)|)
      && t.value.counts.t1 + t.value.counts.t2 + t.value.counts.t3 + t.value.counts.t4 == |Domain(rows, Country)|
      && t.value.volumes == Tiers(Total(parts[0]), Total(parts[1]), Total(parts[2]), Total(parts[3]))
      && t.value.volumes.t1 + t.value.volumes.t2 + t.value.volumes.t3 + t.value.volumes.t4 == Sum(rows, Volume)
      && (t.value.shares.Some? <==> Sum(rows, Volume) != 0)
      && t.value.shares == ShareOf(t.value.volumes)
  {
    if |rows| == 0 then None
    else
      var vols := CountryVolumes(rows);
      var volumes := TierVolumes(vols);
      SizesMatchSplit(vols);
      Some(TierTable(TierSizes(|vols|), volumes, ShareOf(volumes)))
  }
}
