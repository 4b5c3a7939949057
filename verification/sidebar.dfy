/** The sidebar: the option lists the merged table offers, the four
    selections the user holds, and the preset buttons that overwrite them. */
module Sidebar {
  import opened Basics
  import opened Records
  import Grouping
  import Lex

  /** The option lists of the four multiselects and the Top-10 default. */
  datatype Catalog = Catalog(
    countries: seq<string>,
    services: seq<string>,
    months: seq<string>,
    sources: seq<string>,
    topTen: seq<string>)

  /** `month_list`: the sorted distinct months, none without the month column. */
  function MonthList(t: Table): (ms: seq<string>)
    ensures |ms| > 0 <==> t.schema.hasMonth && |t.rows| > 0
    ensures forall r :: r in t.rows && t.schema.hasMonth ==> r.month in ms
    ensures Lex.StrictlySorted(ms)
    ensures forall m :: m in ms ==> t.schema.hasMonth && exists i :: 0 <= i < |t.rows| && t.rows[i].month == m
  {
    if t.schema.hasMonth then
      DomainEmpty(t.rows, Month);
      forall m | m in Domain(t.rows, Month)
        ensures exists i :: 0 <= i < |t.rows| && t.rows[i].month == m
      {
        DomainSound(t.rows, Month, m);
      }
      Domain(t.rows, Month)
    else []
  }

  /** The option lists, and `top_10_countries`: the ten countries with the
      largest summed volume, ties to the smaller name. The source column is
      always present, since the loader adds it to every row. */
  function Build(t: Table): (c: Catalog)
    ensures |c.countries| == 0 <==> |t.rows| == 0
    ensures |c.sources| == 0 <==> |t.rows| == 0
    ensures |c.topTen| == Min(10, |c.countries|)
    ensures forall k :: k in c.topTen ==> k in c.countries
    ensures Describes(c, t)
  {
    DomainEmpty(t.rows, Country);
    DomainEmpty(t.rows, Source);
    var countries := Domain(t.rows, Country);
    var services := Domain(t.rows, Service);
    var sources := Domain(t.rows, Source);
    var topTen := Grouping.LargestKeys(t.rows, Country, 10);
    Catalog(countries, services, MonthList(t), sources, topTen)
  }

  /** `c` holds the sorted distinct values of `t`'s columns as option
      lists, and as Top-10 list the ten countries with the largest summed
      volume in ranking order (all of them when there are fewer). */
  ghost predicate Describes(c: Catalog, t: Table)
  {
    Offers(c, t) && c.topTen == Grouping.LargestKeys(t.rows, Country, 10)
  }

  /** `c`'s option lists are the sorted distinct values of `t`'s columns. */
  ghost predicate Offers(c: Catalog, t: Table)
  {
    && c.countries == Domain(t.rows, Country)
    && c.services == Domain(t.rows, Service)
    && c.months == MonthList(t)
    && c.sources == Domain(t.rows, Source)
  }

  lemma BuildDescribes(t: Table)
    ensures Describes(Build(t), t)
  {
  }

  /** Every row's country, service and source file is among the options. */
  lemma Covers(c: Catalog, t: Table, r: Record)
    requires Offers(c, t) && r in t.rows
    ensures r.country in c.countries && r.service in c.services && r.source in c.sources
    ensures t.schema.hasMonth ==> r.month in c.months
  {
    assert Key(r, Country) == r.country && Key(r, Service) == r.service && Key(r, Source) == r.source;
    assert Key(r, Country) in Domain(t.rows, Country);
    assert Key(r, Service) in Domain(t.rows, Service);
    assert Key(r, Source) in Domain(t.rows, Source);
  }

  /** What the four multiselects currently hold. */
  datatype Selection = Selection(
    countries: seq<string>,
    services: seq<string>,
    months: seq<string>,
    sources: seq<string>)

  datatype Facet = Countries | Services | Months | Sources

  function Chosen(s: Selection, f: Facet): seq<string>
  {
    match f
    case Countries => s.countries
    case Services => s.services
    case Months => s.months
    case Sources => s.sources
  }

  function Options(c: Catalog, f: Facet): seq<string>
  {
    match f
    case Countries => c.countries
    case Services => c.services
    case Months => c.months
    case Sources => c.sources
  }

  /** The source-file block is drawn only for more than one file, the month
      block only when there are months. */
  predicate Shown(c: Catalog, f: Facet)
  {
    match f
    case Sources => |c.sources| > 1
    case Months => |c.months| > 0
    case _ => true
  }

  /** The multiselects' `default=` values. */
  function Defaults(c: Catalog): Selection
  {
    Selection(c.topTen, c.services, c.months, c.sources)
  }

  /** The sidebar buttons: "all" and "clear" of one block, the country
      block's "Top 10", and "reset every filter". */
  datatype Preset = SelectAll(facet: Facet) | ClearAll(facet: Facet) | TopTen | ResetAll

  function Replace(s: Selection, f: Facet, v: seq<string>): Selection
  {
    match f
    case Countries => s.(countries := v)
    case Services => s.(services := v)
    case Months => s.(months := v)
    case Sources => s.(sources := v)
  }

  /** The selection after pressing `p`. A button of a block that is not
      drawn cannot be pressed and changes nothing. `reset_filters` leaves the
      source selection alone when there is no source file. */
  function Press(c: Catalog, s: Selection, p: Preset): (r: Selection)
    ensures p.SelectAll? && Shown(c, p.facet) ==> Chosen(r, p.facet) == Options(c, p.facet)
    ensures p.ClearAll? && Shown(c, p.facet) ==> Chosen(r, p.facet) == []
    ensures (p.SelectAll? || p.ClearAll?) ==>
      forall f :: f != p.facet ==> Chosen(r, f) == Chosen(s, f)
    ensures (p.SelectAll? || p.ClearAll?) && !Shown(c, p.facet) ==> r == s
    ensures p.TopTen? ==> r.countries == c.topTen && forall f :: f != Countries ==> Chosen(r, f) == Chosen(s, f)
    ensures p.ResetAll? && |c.sources| > 0 ==> r == Defaults(c)
    ensures p.ResetAll? && |c.sources| == 0 ==> r == Defaults(c).(sources := s.sources)
  {
    match p
    case SelectAll(f) => if Shown(c, f) then Replace(s, f, Options(c, f)) else s
    case ClearAll(f) => if Shown(c, f) then Replace(s, f, []) else s
    case TopTen => s.(countries := c.topTen)
    case ResetAll =>
      var r := s.(countries := c.topTen, services := c.services, months := c.months);
      if |c.sources| > 0 then r.(sources := c.sources) else r
  }

  /** Pressing reset twice is pressing it once. */
  lemma ResetIdempotent(c: Catalog, s: Selection)
    ensures Press(c, Press(c, s, ResetAll), ResetAll) == Press(c, s, ResetAll)
  {
  }

  /** Whatever was selected before, reset restores the multiselect defaults
      once there is data. */
  lemma ResetRestoresDefaults(t: Table, s: Selection)
    requires |t.rows| > 0
    ensures Press(Build(t), s, ResetAll) == Defaults(Build(t))
  {
  }

  /** Selecting all of a block and then clearing it is the same as clearing
      it, and the other way round: the later button wins. */
  lemma LaterPresetWins(c: Catalog, s: Selection, f: Facet)
    ensures Press(c, Press(c, s, SelectAll(f)), ClearAll(f)) == Press(c, s, ClearAll(f))
    ensures Press(c, Press(c, s, ClearAll(f)), SelectAll(f)) == Press(c, s, SelectAll(f))
  {
  }
}
