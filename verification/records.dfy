/** The unified transaction table: one record per row of the merged upload,
    the columns the pipeline reads, and sums over row selections. */
module Records {
  import opened Basics
  import Lex

  /** Which optional columns the merged table has (`CUSTOMERID`,
      `TRANSACTION_APPROVED_MONTH`, `CUSTOMER_CREATEDDATE_MONTH`). */
  datatype Schema = Schema(hasCustomer: bool, hasMonth: bool, hasCohort: bool)

  /** One row. `month` and `cohort` hold the text the month columns are
      coerced to (a missing cell reads "nan"); they mean something only when
      the schema has the column. `customer` stays optional because distinct
      counts skip missing customers. `source` is the `_source_file` tag. */
  datatype Record = Record(
    country: string,
    service: string,
    volume: int,
    trx: int,
    customer: Option<string>,
    month: string,
    cohort: string,
    source: string)

  datatype Table = Table(schema: Schema, rows: seq<Record>)

  /** The text columns rows are grouped and filtered by. */
  datatype Dim = Country | Service | Month | Cohort | Source

  /** The numeric columns that are summed: `VOLUMN` and `TRX_COUNT`. */
  datatype Measure = Volume | Trx

  function Key(r: Record, d: Dim): string
  {
    match d
    case Country => r.country
    case Service => r.service
    case Month => r.month
    case Cohort => r.cohort
    case Source => r.source
  }

  function Amount(r: Record, m: Measure): int
  {
    match m
    case Volume => r.volume
    case Trx => r.trx
  }

  /** `rows[m].sum()`; 0 for no rows. */
  function Sum(rows: seq<Record>, m: Measure): int
  {
    if |rows| == 0 then 0
    else Sum(rows[..|rows| - 1], m) + Amount(rows[|rows| - 1], m)
  }

  /** The rows whose `d` column equals `k`. */
  function Select(rows: seq<Record>, d: Dim, k: string): seq<Record>
  {
    Keep(rows, r => Key(r, d) == k)
  }

  /** The summed volume of group `k` of `groupby(d)`. */
  function GroupVolume(rows: seq<Record>, d: Dim, k: string): int
  {
    Sum(Select(rows, d, k), Volume)
  }

  /** `sorted(rows[d].unique())`: the keys of `groupby(d)`, in their order.
      That every key comes from some row is `DomainSound`, kept out of the
      contract so that key lists of several columns do not feed each other. */
  function Domain(rows: seq<Record>, d: Dim): (ks: seq<string>)
    ensures Lex.StrictlySorted(ks)
    ensures forall r :: r in rows ==> Key(r, d) in ks
  {
    if |rows| == 0 then []
    else
      var last := rows[|rows| - 1];
      assert rows == rows[..|rows| - 1] + [last];
      Lex.InsertUnique(Key(last, d), Domain(rows[..|rows| - 1], d))
  }

  /** Every key of `groupby(d)` is carried by some row. */
  lemma {:induction false} DomainSound(rows: seq<Record>, d: Dim, k: string)
    requires k in Domain(rows, d)
    ensures exists i :: 0 <= i < |rows| && Key(rows[i], d) == k
  {
    var init := rows[..|rows| - 1];
    if k != Key(rows[|rows| - 1], d) {
      DomainSound(init, d, k);
      var i :| 0 <= i < |init| && Key(init[i], d) == k;
      assert rows[i] == init[i];
    }
  }

  /** `rows[d].nunique()`: there are as many groups as distinct keys. */
  lemma DomainCount(rows: seq<Record>, d: Dim)
    ensures |Domain(rows, d)| == |set r | r in rows :: Key(r, d)|
  {
    var ks := Domain(rows, d);
    Lex.StrictlySortedDistinct(ks);
    Lex.DistinctCardinality(ks);
    forall k | k in ks
      ensures k in (set r | r in rows :: Key(r, d))
    {
      DomainSound(rows, d, k);
      var i :| 0 <= i < |rows| && Key(rows[i], d) == k;
      assert rows[i] in rows;
    }
    assert (set k | k in ks) == (set r | r in rows :: Key(r, d));
  }

  lemma DomainEmpty(rows: seq<Record>, d: Dim)
    ensures |Domain(rows, d)| == 0 <==> |rows| == 0
  {
    if |rows| > 0 {
      assert Key(rows[0], d) in Domain(rows, d);
    }
  }

  /** A key is a group of `groupby(d)` exactly when some row carries it. */
  lemma DomainSelect(rows: seq<Record>, d: Dim, k: string)
    ensures k in Domain(rows, d) <==> |Select(rows, d, k)| > 0
  {
    if |Select(rows, d, k)| > 0 {
      assert Select(rows, d, k)[0] in Select(rows, d, k);
    }
    if k in Domain(rows, d) {
      DomainSound(rows, d, k);
      var i :| 0 <= i < |rows| && Key(rows[i], d) == k;
      assert rows[i] in Select(rows, d, k);
    }
  }

  lemma {:induction false} SumAppend(a: seq<Record>, b: seq<Record>, m: Measure)
    ensures Sum(a + b, m) == Sum(a, m) + Sum(b, m)
  {
    if |b| == 0 {
      assert a + b == a;
    } else {
      var b' := b[..|b| - 1];
      assert (a + b)[..|a + b| - 1] == a + b';
      SumAppend(a, b', m);
    }
  }

  /** A selection and its complement split the sum. */
  lemma {:induction false} SumSplit(rows: seq<Record>, m: Measure, p: Record -> bool, q: Record -> bool)
    requires forall x :: q(x) == !p(x)
    ensures Sum(rows, m) == Sum(Keep(rows, p), m) + Sum(Keep(rows, q), m)
  {
    if |rows| > 0 {
      var init, last := rows[..|rows| - 1], rows[|rows| - 1];
      SumSplit(init, m, p, q);
      assert Sum(rows, m) == Sum(init, m) + Amount(last, m);
      if p(last) {
        assert Keep(rows, p) == Keep(init, p) + [last];
        assert Keep(rows, q) == Keep(init, q);
        SumAppend(Keep(init, p), [last], m);
      } else {
        assert Keep(rows, q) == Keep(init, q) + [last];
        assert Keep(rows, p) == Keep(init, p);
        SumAppend(Keep(init, q), [last], m);
      }
    }
  }

  /** The sum of every row of `ks`' groups, one group after another. */
  function SumOver(rows: seq<Record>, d: Dim, ks: seq<string>, m: Measure): int
  {
    if |ks| == 0 then 0
    else Sum(Select(rows, d, ks[0]), m) + SumOver(rows, d, ks[1..], m)
  }

  lemma {:induction false} SumOverSame(a: seq<Record>, b: seq<Record>, d: Dim, ks: seq<string>, m: Measure)
    requires forall k :: k in ks ==> Sum(Select(a, d, k), m) == Sum(Select(b, d, k), m)
    ensures SumOver(a, d, ks, m) == SumOver(b, d, ks, m)
  {
    if |ks| > 0 {
      SumOverSame(a, b, d, ks[1..], m);
    }
  }

  /** The rows whose `d` column differs from `k`. */
  function Reject(rows: seq<Record>, d: Dim, k: string): seq<Record>
  {
    Keep(rows, r => Key(r, d) != k)
  }

  /** Group `k` and the rest split the sum. */
  lemma {:induction false} SumSelectReject(rows: seq<Record>, d: Dim, k: string, m: Measure)
    ensures Sum(rows, m) == Sum(Select(rows, d, k), m) + Sum(Reject(rows, d, k), m)
  {
    if |rows| > 0 {
      var init, last := rows[..|rows| - 1], rows[|rows| - 1];
      SumSelectReject(init, d, k, m);
      if Key(last, d) == k {
        assert Select(rows, d, k) == Select(init, d, k) + [last];
        assert Reject(rows, d, k) == Reject(init, d, k);
        SumAppend(Select(init, d, k), [last], m);
      } else {
        assert Reject(rows, d, k) == Reject(init, d, k) + [last];
        assert Select(rows, d, k) == Select(init, d, k);
        SumAppend(Reject(init, d, k), [last], m);
      }
    }
  }

  /** Removing group `k` leaves every other group as it was. */
  lemma {:induction false} SelectAfterReject(rows: seq<Record>, d: Dim, k: string, k': string)
    requires k' != k
    ensures Select(Reject(rows, d, k), d, k') == Select(rows, d, k')
  {
    if |rows| > 0 {
      var init, last := rows[..|rows| - 1], rows[|rows| - 1];
      SelectAfterReject(init, d, k, k');
      var rest := Reject(init, d, k);
      if Key(last, d) != k {
        assert Reject(rows, d, k) == rest + [last];
        var rest' := rest + [last];
        assert rest'[..|rest'| - 1] == rest;
      } else {
        assert Reject(rows, d, k) == rest;
      }
    }
  }

  /** Grouping neither loses nor double-counts rows: summing the groups of
      a list of distinct keys that covers every row's key gives the total. */
  lemma {:induction false} SumOverKeys(rows: seq<Record>, d: Dim, ks: seq<string>, m: Measure)
    requires Distinct(ks)
    requires forall r :: r in rows ==> Key(r, d) in ks
    ensures SumOver(rows, d, ks, m) == Sum(rows, m)
    decreases |ks|
  {
    if |ks| == 0 {
      assert forall i :: 0 <= i < |rows| ==> rows[i] in rows;
    } else {
      var k := ks[0];
      var rest := Reject(rows, d, k);
      SumSelectReject(rows, d, k, m);
      forall k' | k' in ks[1..]
        ensures Sum(Select(rows, d, k'), m) == Sum(Select(rest, d, k'), m)
      {
        SelectAfterReject(rows, d, k, k');
      }
      SumOverSame(rows, rest, d, ks[1..], m);
      forall r | r in rest
        ensures Key(r, d) in ks[1..]
      {
        assert Key(r, d) in ks && Key(r, d) != ks[0];
      }
      SumOverKeys(rest, d, ks[1..], m);
    }
  }
}
