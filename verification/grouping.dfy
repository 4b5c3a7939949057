/** `groupby` with summed volume and transaction count, and the rankings
    built on it: `sort_values(...).head(n)`, `nlargest(n)` and `idxmax()`. */
module Grouping {
  import opened Basics
  import opened Records
  import Lex
  import Sorting

  /** One group of a `groupby(...).agg({'VOLUMN': 'sum', 'TRX_COUNT': 'sum'})`. */
  datatype Group = Group(key: string, volume: int, trx: int)

  function GroupOf(rows: seq<Record>, d: Dim, k: string): Group
  {
    Group(k, GroupVolume(rows, d, k), Sum(Select(rows, d, k), Trx))
  }

  /** The groups of the keys `ks`, in the order of `ks`. */
  function GroupsOf(rows: seq<Record>, d: Dim, ks: seq<string>): (gs: seq<Group>)
    ensures |gs| == |ks|
    ensures forall i :: 0 <= i < |ks| ==> gs[i] == GroupOf(rows, d, ks[i])
  {
    seq(|ks|, i requires 0 <= i < |ks| => GroupOf(rows, d, ks[i]))
  }

  /** The groups of `groupby(d)`, in ascending key order. */
  function GroupBy(rows: seq<Record>, d: Dim): seq<Group>
  {
    GroupsOf(rows, d, Domain(rows, d))
  }

  function Keys(gs: seq<Group>): seq<string>
  {
    seq(|gs|, i requires 0 <= i < |gs| => gs[i].key)
  }

  function TotalVolume(gs: seq<Group>): int
  {
    if |gs| == 0 then 0 else gs[0].volume + TotalVolume(gs[1..])
  }

  /** The ranking order of groups: summed volume. */
  function Score(g: Group): real
  {
    g.volume as real
  }

  function Name(g: Group): string
  {
    g.key
  }

  /** Group `a` comes before group `b` in `nlargest`/`idxmax` order: larger
      volume first and, on a tie, the key that comes first in the sorted
      group-by output. */
  predicate Precedes(rows: seq<Record>, d: Dim, a: string, b: string)
  {
    GroupVolume(rows, d, a) > GroupVolume(rows, d, b)
    || (GroupVolume(rows, d, a) == GroupVolume(rows, d, b) && Lex.Less(a, b))
  }

  lemma GroupByMember(rows: seq<Record>, d: Dim, g: Group)
    ensures g in GroupBy(rows, d) <==> g.key in Domain(rows, d) && g == GroupOf(rows, d, g.key)
  {
    var ks := Domain(rows, d);
    var gs := GroupBy(rows, d);
    assert |gs| == |ks|;
    if g in gs {
      var i :| 0 <= i < |gs| && gs[i] == g;
      assert gs[i] == GroupOf(rows, d, ks[i]);
    }
    if g.key in ks && g == GroupOf(rows, d, g.key) {
      var i :| 0 <= i < |ks| && ks[i] == g.key;
      assert gs[i] == g;
    }
  }

  lemma GroupByDistinct(rows: seq<Record>, d: Dim)
    ensures Sorting.NamesDistinct(GroupBy(rows, d), Name)
  {
    var ks := Domain(rows, d);
    forall i, j | 0 <= i < j < |ks|
      ensures ks[i] != ks[j]
    {
      Lex.Irreflexive(ks[i]);
    }
  }

  lemma {:induction false} GroupsTotal(rows: seq<Record>, d: Dim, ks: seq<string>)
    ensures TotalVolume(GroupsOf(rows, d, ks)) == SumOver(rows, d, ks, Volume)
  {
    if |ks| > 0 {
      GroupsTotal(rows, d, ks[1..]);
      assert GroupsOf(rows, d, ks)[1..] == GroupsOf(rows, d, ks[1..]);
    }
  }


  /** Grouping never loses or double-counts a row: the group volumes add up
      to the volume of the whole selection. */
  lemma GroupByTotal(rows: seq<Record>, d: Dim)
    ensures TotalVolume(GroupBy(rows, d)) == Sum(rows, Volume)
  {
    var ks := Domain(rows, d);
    GroupsTotal(rows, d, ks);
    Lex.StrictlySortedDistinct(ks);
    SumOverKeys(rows, d, ks, Volume);
  }

  /** Inserting a group into a ranking adds exactly its volume. */
  lemma {:induction false} TotalVolumeInsert(x: Group, s: seq<Group>)
    ensures TotalVolume(Sorting.Insert(x, s, Score, Name)) == x.volume + TotalVolume(s)
  {
    if |s| == 0 || !Sorting.Ahead(s[0], x, Score, Name) {
      assert ([x] + s)[1..] == s;
    } else {
      var r := Sorting.Insert(x, s[1..], Score, Name);
      TotalVolumeInsert(x, s[1..]);
      assert ([s[0]] + r)[1..] == r;
    }
  }

  /** Ranking the groups does not change their total volume. */
  lemma {:induction false} TotalVolumeRank(s: seq<Group>)
    ensures TotalVolume(Sorting.Rank(s, Score, Name)) == TotalVolume(s)
  {
    if |s| > 0 {
      TotalVolumeRank(s[1..]);
      TotalVolumeInsert(s[0], Sorting.Rank(s[1..], Score, Name));
    }
  }

  /** Every group of a ranked prefix is a real group of the selection. */
  lemma TopMembers(rows: seq<Record>, d: Dim, n: nat)
    ensures var top := Sorting.Top(GroupBy(rows, d), n, Score, Name);
      forall g :: g in top ==> g.key in Domain(rows, d) && g == GroupOf(rows, d, g.key)
  {
    var top := Sorting.Top(GroupBy(rows, d), n, Score, Name);
    forall g | g in top
      ensures g.key in Domain(rows, d) && g == GroupOf(rows, d, g.key)
    {
      GroupByMember(rows, d, g);
    }
  }

  /** A ranked prefix lists its keys in `Precedes` order. */
  lemma TopOrder(rows: seq<Record>, d: Dim, n: nat)
    ensures var top := Sorting.Top(GroupBy(rows, d), n, Score, Name);
      && Sorting.NamesDistinct(top, Name)
      && forall i, j :: 0 <= i < j < |top| ==> Precedes(rows, d, top[i].key, top[j].key)
  {
    var top := Sorting.Top(GroupBy(rows, d), n, Score, Name);
    GroupByDistinct(rows, d);
    TopMembers(rows, d, n);
    forall i, j | 0 <= i < j < |top|
      ensures Precedes(rows, d, top[i].key, top[j].key)
    {
      assert top[i] in top && top[j] in top;
      Sorting.AheadTotal(top[i], top[j], Score, Name);
    }
  }

  /** Every group left out of a ranked prefix comes after every group in it. */
  lemma TopExcluded(rows: seq<Record>, d: Dim, n: nat)
    ensures var top := Sorting.Top(GroupBy(rows, d), n, Score, Name);
      forall k, g :: k in Domain(rows, d) && k !in Keys(top) && g in top ==> Precedes(rows, d, g.key, k)
  {
    var all := GroupBy(rows, d);
    var top := Sorting.Top(all, n, Score, Name);
    TopMembers(rows, d, n);
    forall k, g | k in Domain(rows, d) && k !in Keys(top) && g in top
      ensures Precedes(rows, d, g.key, k)
    {
      var gk := GroupOf(rows, d, k);
      GroupByMember(rows, d, gk);
      KeysExclude(top, k);
      assert gk in all && gk !in top;
      assert !Sorting.Ahead(gk, g, Score, Name);
      Sorting.AheadTotal(g, gk, Score, Name);
    }
  }

  /** Every listed key is the key of one of the groups. */
  lemma KeysInclude(gs: seq<Group>)
    ensures forall k :: k in Keys(gs) ==> exists g :: g in gs && g.key == k
  {
    forall k | k in Keys(gs)
      ensures exists g :: g in gs && g.key == k
    {
      var i :| 0 <= i < |gs| && Keys(gs)[i] == k;
      assert gs[i] in gs;
    }
  }

  /** A key missing from the key list belongs to none of the groups. */
  lemma KeysExclude(gs: seq<Group>, k: string)
    requires k !in Keys(gs)
    ensures forall g :: g in gs ==> g.key != k
  {
    forall g | g in gs
      ensures g.key != k
    {
      var i :| 0 <= i < |gs| && gs[i] == g;
      assert Keys(gs)[i] == g.key;
    }
  }

  lemma TopOfGroups(rows: seq<Record>, d: Dim, n: nat)
    ensures var top := Sorting.Top(GroupBy(rows, d), n, Score, Name);
      && |top| == Min(n, |Domain(rows, d)|)
      && Sorting.NamesDistinct(top, Name)
      && (forall g :: g in top ==> g.key in Domain(rows, d) && g == GroupOf(rows, d, g.key))
      && (forall i, j :: 0 <= i < j < |top| ==> Precedes(rows, d, top[i].key, top[j].key))
      && (forall k, g :: k in Domain(rows, d) && k !in Keys(top) && g in top ==> Precedes(rows, d, g.key, k))
  {
    TopMembers(rows, d, n);
    TopOrder(rows, d, n);
    TopExcluded(rows, d, n);
  }

  /** `groupby(d).agg(sum).sort_values('VOLUMN', ascending=False).head(n)`.
      The sort is not stable, so only the descending order of volumes and
      the choice of groups are promised, not the order among equal volumes. */
  function TopGroups(rows: seq<Record>, d: Dim, n: nat): (r: seq<Group>)
    ensures |r| == Min(n, |Domain(rows, d)|)
    ensures forall g :: g in r ==>
      g.key in Domain(rows, d)
      && g.volume == GroupVolume(rows, d, g.key)
      && g.trx == Sum(Select(rows, d, g.key), Trx)
    ensures forall i, j :: 0 <= i < j < |r| ==> r[i].key != r[j].key && r[i].volume >= r[j].volume
    ensures forall k, g :: k in Domain(rows, d) && k !in Keys(r) && g in r ==> GroupVolume(rows, d, k) <= g.volume
  {
    TopOfGroups(rows, d, n);
    Sorting.Top(GroupBy(rows, d), n, Score, Name)
  }

  /** `groupby(d)['VOLUMN'].sum().nlargest(n).index.tolist()`: the `n` keys
      with the largest volume, largest first, a tie going to the key that
      comes first in the sorted group-by output. */
  function LargestKeys(rows: seq<Record>, d: Dim, n: nat): (ks: seq<string>)
    ensures |ks| == Min(n, |Domain(rows, d)|)
    ensures forall k :: k in ks ==> k in Domain(rows, d)
    ensures forall i, j :: 0 <= i < j < |ks| ==> Precedes(rows, d, ks[i], ks[j])
    ensures forall k, k' :: k in ks && k' in Domain(rows, d) && k' !in ks ==> Precedes(rows, d, k, k')
  {
    var top := Sorting.Top(GroupBy(rows, d), n, Score, Name);
    TopOfGroups(rows, d, n);
    KeysInclude(top);
    Keys(top)
  }

  /** `groupby(d)['VOLUMN'].sum().idxmax()` on a non-empty selection, "-"
      on an empty one: the key whose summed volume is the largest, the first
      such key in sorted order on a tie. */
  function TopKey(rows: seq<Record>, d: Dim): (k: string)
    ensures |rows| == 0 ==> k == "-"
    ensures |rows| > 0 ==> k in Domain(rows, d)
    ensures |rows| > 0 ==> forall k' :: k' in Domain(rows, d) && k' != k ==> Precedes(rows, d, k, k')
  {
    if |rows| == 0 then "-"
    else
      DomainEmpty(rows, d);
      var top := LargestKeys(rows, d, 1);
      assert top[0] in top;
      top[0]
  }

  /** The leading key's volume is at least every group's volume. */
  lemma TopKeyLeads(rows: seq<Record>, d: Dim)
    ensures |rows| > 0 ==> forall k :: k in Domain(rows, d) ==> GroupVolume(rows, d, k) <= GroupVolume(rows, d, TopKey(rows, d))
  {
    var top := TopKey(rows, d);
    forall k | |rows| > 0 && k in Domain(rows, d) && k != top
      ensures GroupVolume(rows, d, k) <= GroupVolume(rows, d, top)
    {
      assert Precedes(rows, d, top, k);
    }
  }

  /** Ranking the top-`n` list again by the same key keeps it as it is. */
  lemma TopGroupsIdempotent(rows: seq<Record>, d: Dim, n: nat)
    ensures Sorting.Top(TopGroups(rows, d, n), n, Score, Name) == TopGroups(rows, d, n)
  {
    Sorting.TopIdempotent(GroupBy(rows, d), n, Score, Name);
  }
}
