/** The filter engine: the selection of the sidebar turned into row masks,
    applied one after another to the merged table. */
module Filtering {
  import opened Basics
  import opened Records
  import Lex
  import Sidebar

  /** The mask `rows[d].isin(sel)`. */
  function Selecting(d: Dim, sel: seq<string>): Record -> bool
  {
    x => Key(x, d) in sel
  }

  /** `rows[rows[d].isin(sel)]`: the rows whose `d` column is among `sel`,
      in their original order. */
  function Restrict(rows: seq<Record>, d: Dim, sel: seq<string>): (r: seq<Record>)
    ensures |r| <= |rows|
    ensures forall x :: x in r <==> x in rows && Key(x, d) in sel
  {
    Keep(rows, Selecting(d, sel))
  }

  /** `isin` keeps a selected row as many times as it occurs and drops
      every other row. */
  lemma RestrictCount(rows: seq<Record>, d: Dim, sel: seq<string>)
    ensures forall x :: multiset(Restrict(rows, d, sel))[x] == if Key(x, d) in sel then multiset(rows)[x] else 0
  {
    KeepCount(rows, Selecting(d, sel));
  }

  /** One `isin` mask. */
  datatype Stage = Stage(dim: Dim, sel: seq<string>)

  /** The masks the page applies, in its order: country and service
      together, then the source files when any are selected, then the months
      when the month block is drawn and some month is selected. An empty
      country, service or source selection is replaced by the full list, and
      the source list stands in for the selection when the source block is
      not drawn. */
  function Plan(c: Sidebar.Catalog, s: Sidebar.Selection): seq<Stage>
  {
    [Stage(Country, Effective(s.countries, c.countries)), Stage(Service, Effective(s.services, c.services))]
    + SourceStages(c, s) + MonthStages(c, s)
  }

  /** `if not selected: selected = full_list`. */
  function Effective(sel: seq<string>, full: seq<string>): seq<string>
  {
    if |sel| == 0 then full else sel
  }

  /** The source mask, present when any source file is selected. */
  function SourceStages(c: Sidebar.Catalog, s: Sidebar.Selection): seq<Stage>
  {
    var shown := if Sidebar.Shown(c, Sidebar.Sources) then s.sources else c.sources;
    var sources := Effective(shown, c.sources);
    if |sources| > 0 then [Stage(Source, sources)] else []
  }

  /** The month mask, present when the month block is drawn and a month is
      selected; without the block the selection is `None`. */
  function MonthStages(c: Sidebar.Catalog, s: Sidebar.Selection): seq<Stage>
  {
    if Sidebar.Shown(c, Sidebar.Months) && |s.months| > 0 then [Stage(Month, s.months)] else []
  }

  /** The masks applied one after another. */
  function Staged(rows: seq<Record>, stages: seq<Stage>): seq<Record>
  {
    if |stages| == 0 then rows
    else
      var st := stages[|stages| - 1];
      Restrict(Staged(rows, stages[..|stages| - 1]), st.dim, st.sel)
  }

  /** `filtered_df`. */
  function Apply(t: Table, s: Sidebar.Selection): seq<Record>
  {
    Staged(t.rows, Plan(Sidebar.Build(t), s))
  }

  /** A selection lets `x` through: nothing selected, or `x` selected. */
  predicate Allows(sel: seq<string>, x: string)
  {
    |sel| == 0 || x in sel
  }

  /** The filter as a single condition on a row: country and service
      allowed; the source file allowed when there is a choice of files; the
      month allowed when the table has months. */
  predicate Admits(t: Table, s: Sidebar.Selection, r: Record)
  {
    && Allows(s.countries, r.country)
    && Allows(s.services, r.service)
    && (|Domain(t.rows, Source)| > 1 ==> Allows(s.sources, r.source))
    && (t.schema.hasMonth ==> Allows(s.months, r.month))
  }

  function Admitting(t: Table, s: Sidebar.Selection): Record -> bool
  {
    x => Admits(t, s, x)
  }

  /** The rows of `rows` the filter admits, in order. */
  function Admitted(rows: seq<Record>, t: Table, s: Sidebar.Selection): (r: seq<Record>)
    ensures |r| <= |rows|
    ensures forall x :: x in r <==> x in rows && Admits(t, s, x)
  {
    Keep(rows, Admitting(t, s))
  }

  /** The filter keeps an admitted row as many times as it occurs and
      drops every other row. */
  lemma AdmittedCount(rows: seq<Record>, t: Table, s: Sidebar.Selection)
    ensures forall x :: multiset(Admitted(rows, t, s))[x] == if Admits(t, s, x) then multiset(rows)[x] else 0
  {
    KeepCount(rows, Admitting(t, s));
  }

  /** A row passes every mask of a plan. */
  predicate Passes(stages: seq<Stage>, r: Record)
  {
    forall i :: 0 <= i < |stages| ==> Key(r, stages[i].dim) in stages[i].sel
  }

  function Passing(stages: seq<Stage>): Record -> bool
  {
    x => Passes(stages, x)
  }

  /** The rows passing every mask, in one sweep. */
  function Matching(rows: seq<Record>, stages: seq<Stage>): seq<Record>
  {
    Keep(rows, Passing(stages))
  }

  lemma MatchingNone(rows: seq<Record>)
    ensures Matching(rows, []) == rows
  {
    KeepAll(rows, Passing([]));
  }

  /** One more mask on the sweep's output is one more condition in it. */
  lemma MatchingStage(rows: seq<Record>, stages: seq<Stage>, st: Stage)
    ensures Restrict(Matching(rows, stages), st.dim, st.sel) == Matching(rows, stages + [st])
  {
    forall x | x in rows
      ensures Passing(stages + [st])(x) == (Passing(stages)(x) && Selecting(st.dim, st.sel)(x))
    {
      PassesAppend(stages, [st], x);
      PassesOne(st, x);
    }
    KeepTwice(rows, Passing(stages), Selecting(st.dim, st.sel), Passing(stages + [st]));
  }

  /** Applying the masks one after another is one sweep with all of them. */
  lemma {:induction false} StagedMatching(rows: seq<Record>, stages: seq<Stage>)
    ensures Staged(rows, stages) == Matching(rows, stages)
  {
    if |stages| == 0 {
      MatchingNone(rows);
    } else {
      var init := stages[..|stages| - 1];
      StagedMatching(rows, init);
      MatchingStage(rows, init, stages[|stages| - 1]);
      assert init + [stages[|stages| - 1]] == stages;
    }
  }

  /** Two sweeps with the same verdict on every row keep the same rows. */
  lemma MatchingAdmitted(rows: seq<Record>, stages: seq<Stage>, t: Table, s: Sidebar.Selection)
    requires forall r :: r in rows ==> (Passes(stages, r) <==> Admits(t, s, r))
    ensures Matching(rows, stages) == Admitted(rows, t, s)
  {
    KeepSame(rows, Passing(stages), Admitting(t, s));
  }

  lemma PassesAppend(a: seq<Stage>, b: seq<Stage>, r: Record)
    ensures Passes(a + b, r) <==> Passes(a, r) && Passes(b, r)
  {
    if Passes(a, r) && Passes(b, r) {
      forall i | 0 <= i < |a + b|
        ensures Key(r, (a + b)[i].dim) in (a + b)[i].sel
      {
        if i >= |a| {
          assert (a + b)[i] == b[i - |a|];
        }
      }
    }
    if Passes(a + b, r) {
      forall i | 0 <= i < |a|
        ensures Key(r, a[i].dim) in a[i].sel
      {
        assert (a + b)[i] == a[i];
      }
      forall i | 0 <= i < |b|
        ensures Key(r, b[i].dim) in b[i].sel
      {
        assert (a + b)[|a| + i] == b[i];
      }
    }
  }

  /** A single mask passes exactly the rows whose key it selects. */
  lemma PassesOne(st: Stage, r: Record)
    ensures Passes([st], r) <==> Key(r, st.dim) in st.sel
  {
    assert [st][0] == st;
  }

  lemma SourceStagesAdmit(c: Sidebar.Catalog, t: Table, s: Sidebar.Selection, r: Record)
    requires Sidebar.Offers(c, t) && r in t.rows
    ensures Passes(SourceStages(c, s), r) <==> (|Domain(t.rows, Source)| > 1 ==> Allows(s.sources, r.source))
  {
    Sidebar.Covers(c, t, r);
    var shown := if Sidebar.Shown(c, Sidebar.Sources) then s.sources else c.sources;
    var sources := Effective(shown, c.sources);
    var st := Stage(Source, sources);
    assert sources == c.sources || sources == s.sources;
    assert SourceStages(c, s) == [st];
    PassesOne(st, r);
    assert Key(r, Source) == r.source;
  }

  lemma MonthStagesAdmit(c: Sidebar.Catalog, t: Table, s: Sidebar.Selection, r: Record)
    requires Sidebar.Offers(c, t) && r in t.rows
    ensures Passes(MonthStages(c, s), r) <==> (t.schema.hasMonth ==> Allows(s.months, r.month))
  {
    Sidebar.Covers(c, t, r);
    if Sidebar.Shown(c, Sidebar.Months) && |s.months| > 0 {
      var st := Stage(Month, s.months);
      PassesOne(st, r);
      assert Key(r, Month) == r.month;
    }
  }

  /** The plan's masks pass a row of the table exactly when the filter
      admits it. */
  lemma PlanAdmits(c: Sidebar.Catalog, t: Table, s: Sidebar.Selection, r: Record)
    requires Sidebar.Offers(c, t) && r in t.rows
    ensures Passes(Plan(c, s), r) <==> Admits(t, s, r)
  {
    Sidebar.Covers(c, t, r);
    var head := [Stage(Country, Effective(s.countries, c.countries)), Stage(Service, Effective(s.services, c.services))];
    assert Key(r, Country) == r.country && Key(r, Service) == r.service;
    assert Passes(head, r) <==> Allows(s.countries, r.country) && Allows(s.services, r.service) by {
      assert head[0].dim == Country && head[1].dim == Service;
    }
    PassesAppend(head, SourceStages(c, s), r);
    PassesAppend(head + SourceStages(c, s), MonthStages(c, s), r);
    SourceStagesAdmit(c, t, s, r);
    MonthStagesAdmit(c, t, s, r);
  }

  /** Run against a catalog of the table, the masks keep exactly the rows
      the filter admits, in their original order. */
  lemma StagedAdmitted(c: Sidebar.Catalog, t: Table, s: Sidebar.Selection)
    requires Sidebar.Offers(c, t)
    ensures Staged(t.rows, Plan(c, s)) == Admitted(t.rows, t, s)
  {
    StagedMatching(t.rows, Plan(c, s));
    forall r | r in t.rows
      ensures Passes(Plan(c, s), r) <==> Admits(t, s, r)
    {
      PlanAdmits(c, t, s, r);
    }
    MatchingAdmitted(t.rows, Plan(c, s), t, s);
  }

  /** The filtered rows are exactly the rows of the table the filter
      admits, in their original order. */
  lemma ApplyAdmitted(t: Table, s: Sidebar.Selection)
    ensures Apply(t, s) == Admitted(t.rows, t, s)
  {
    Sidebar.BuildDescribes(t);
    StagedAdmitted(Sidebar.Build(t), t, s);
  }

  /** Two selections that agree on every row keep the same rows. */
  lemma AdmittedSame(rows: seq<Record>, t: Table, s1: Sidebar.Selection, s2: Sidebar.Selection)
    requires forall r :: r in rows ==> (Admits(t, s1, r) <==> Admits(t, s2, r))
    ensures Admitted(rows, t, s1) == Admitted(rows, t, s2)
  {
    KeepSame(rows, Admitting(t, s1), Admitting(t, s2));
  }

  /** A selection that admits every row keeps them all. */
  lemma AdmittedAll(rows: seq<Record>, t: Table, s: Sidebar.Selection)
    requires forall r :: r in rows ==> Admits(t, s, r)
    ensures Admitted(rows, t, s) == rows
  {
    KeepAll(rows, Admitting(t, s));
  }

  /** Clearing a block filters exactly like selecting all of it: an empty
      selection falls back to the whole option list. */
  lemma ClearIsSelectAll(t: Table, s: Sidebar.Selection, f: Sidebar.Facet)
    ensures var c := Sidebar.Build(t);
      Apply(t, Sidebar.Press(c, s, Sidebar.ClearAll(f))) == Apply(t, Sidebar.Press(c, s, Sidebar.SelectAll(f)))
  {
    var c := Sidebar.Build(t);
    Sidebar.BuildDescribes(t);
    ApplyAdmitted(t, Sidebar.Press(c, s, Sidebar.ClearAll(f)));
    ApplyAdmitted(t, Sidebar.Press(c, s, Sidebar.SelectAll(f)));
    ClearLikeSelect(c, t, s, f);
  }

  /** Over the option lists of the table, "clear" and "all" of one block
      admit the same rows. */
  lemma ClearLikeSelect(c: Sidebar.Catalog, t: Table, s: Sidebar.Selection, f: Sidebar.Facet)
    requires Sidebar.Offers(c, t)
    ensures Admitted(t.rows, t, Sidebar.Press(c, s, Sidebar.ClearAll(f)))
      == Admitted(t.rows, t, Sidebar.Press(c, s, Sidebar.SelectAll(f)))
  {
    var cleared := Sidebar.Press(c, s, Sidebar.ClearAll(f));
    var full := Sidebar.Press(c, s, Sidebar.SelectAll(f));
    forall r | r in t.rows
      ensures Admits(t, cleared, r) <==> Admits(t, full, r)
    {
      Sidebar.Covers(c, t, r);
    }
    AdmittedSame(t.rows, t, cleared, full);
  }

  /** With nothing selected anywhere, nothing is filtered out. */
  lemma NothingSelected(t: Table)
    ensures Apply(t, Sidebar.Selection([], [], [], [])) == t.rows
  {
    var s := Sidebar.Selection([], [], [], []);
    ApplyAdmitted(t, s);
    AdmittedAll(t.rows, t, s);
  }

  /** With every option selected, nothing is filtered out either. */
  lemma EverythingSelected(t: Table)
    ensures var c := Sidebar.Build(t);
      Apply(t, Sidebar.Selection(c.countries, c.services, c.months, c.sources)) == t.rows
  {
    var c := Sidebar.Build(t);
    Sidebar.BuildDescribes(t);
    var s := Sidebar.Selection(c.countries, c.services, c.months, c.sources);
    forall r | r in t.rows
      ensures Admits(t, s, r)
    {
      Sidebar.Covers(c, t, r);
    }
    ApplyAdmitted(t, s);
    AdmittedAll(t.rows, t, s);
  }

  /** After "reset every filter" the page shows exactly the rows of the
      Top-10 countries, in their original order. */
  lemma ResetShowsTopTen(t: Table, s: Sidebar.Selection)
    ensures var c := Sidebar.Build(t);
      Apply(t, Sidebar.Press(c, s, Sidebar.ResetAll)) == Restrict(t.rows, Country, c.topTen)
  {
    var c := Sidebar.Build(t);
    Sidebar.BuildDescribes(t);
    var reset := Sidebar.Press(c, s, Sidebar.ResetAll);
    var st := Stage(Country, c.topTen);
    forall r | r in t.rows
      ensures Passes([st], r) <==> Admits(t, reset, r)
    {
      Sidebar.Covers(c, t, r);
      PassesOne(st, r);
      assert Key(r, Country) == r.country;
    }
    ApplyAdmitted(t, reset);
    MatchingAdmitted(t.rows, [st], t, reset);
    StagedMatching(t.rows, [st]);
    assert [st][..0] == [];
  }

  /** Narrowing the country selection never brings a row in. */
  lemma NarrowerCountries(t: Table, s: Sidebar.Selection, fewer: seq<string>)
    requires |fewer| > 0 && forall k :: k in fewer ==> k in s.countries
    ensures forall r :: r in Apply(t, s.(countries := fewer)) ==> r in Apply(t, s)
  {
    ApplyAdmitted(t, s.(countries := fewer));
    ApplyAdmitted(t, s);
  }

  /** Filtering the filtered rows again with the same selection changes
      nothing, although the option lists of the smaller table may be
      shorter and hide the source block. */
  lemma ApplyIdempotent(t: Table, s: Sidebar.Selection)
    ensures Apply(Table(t.schema, Apply(t, s)), s) == Apply(t, s)
  {
    var rows := Apply(t, s);
    var t' := Table(t.schema, rows);
    ApplyAdmitted(t, s);
    ApplyAdmitted(t', s);
    DomainShrinks(t.rows, rows, Source);
    AdmittedAll(rows, t', s);
  }

  /** A table drawn from another's rows cannot have more than one key of a
      column unless the other does. */
  lemma DomainShrinks(rows: seq<Record>, sub: seq<Record>, d: Dim)
    requires forall r :: r in sub ==> r in rows
    ensures |Domain(sub, d)| > 1 ==> |Domain(rows, d)| > 1
  {
    var ks := Domain(sub, d);
    if |ks| > 1 {
      var a, b := ks[0], ks[1];
      assert a != b by {
        Lex.Irreflexive(a);
      }
      DomainSound(sub, d, a);
      DomainSound(sub, d, b);
      var i :| 0 <= i < |sub| && Key(sub[i], d) == a;
      var j :| 0 <= j < |sub| && Key(sub[j], d) == b;
      assert sub[i] in rows && sub[j] in rows;
      TwoMembers(Domain(rows, d), a, b);
    }
  }

  lemma TwoMembers(s: seq<string>, a: string, b: string)
    requires a in s && b in s && a != b
    ensures |s| > 1
  {
  }
}
