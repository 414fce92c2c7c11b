/**
 * The single-country page (`loadCountry`): the rows of one country are sorted
 * in place by period, then split into the chart's labels and values.
 */
module SingleCountry {
  import opened Wrappers
  import opened LexOrder
  import opened InsertScan
  import opened Records
  import opened Extract

  /** Rows in ascending period order. */
  predicate SortedByPeriod(s: seq<Row>) {
    forall k, l :: 0 <= k < l < |s| ==> LexLe(s[k].period, s[l].period)
  }

  /** No two rows share a period. */
  predicate DistinctPeriods(s: seq<Row>) {
    forall k, l :: 0 <= k < l < |s| ==> s[k].period != s[l].period
  }

  /** The set of periods of the rows. */
  function PeriodsOf(rows: seq<Row>): set<string> {
    set r | r in rows :: r.period
  }

  /**
   * `data.sort((a, b) => a.period.localeCompare(b.period))`: an insertion sort
   * that moves a row left past every row with a later period. Stability is not
   * stated: the rows of one country have distinct periods (`Records.RowPerPeriod`),
   * so being sorted and a permutation already fixes the result.
   */
  method SortByPeriod(a: array<Row>)
    modifies a
    ensures SortedByPeriod(a[..])
    ensures multiset(a[..]) == multiset(old(a[..]))
  {
    var i := 0;
    while i < a.Length
      invariant i <= a.Length
      invariant forall k, l :: 0 <= k < l < i ==> LexLe(a[k].period, a[l].period)
      invariant multiset(a[..]) == multiset(old(a[..]))
    {
      InsertRow(a, i);
      i := i + 1;
    }
  }

  /**
   * One pass of the insertion sort: the row at `i` moves left past every row
   * with a later period, after which the first `i + 1` rows are sorted.
   */
  method InsertRow(a: array<Row>, i: int)
    modifies a
    requires 0 <= i < a.Length
    requires forall k, l :: 0 <= k < l < i ==> LexLe(a[k].period, a[l].period)
    ensures forall k, l :: 0 <= k < l <= i ==> LexLe(a[k].period, a[l].period)
    ensures multiset(a[..]) == multiset(old(a[..]))
  {
    var j := i;
    while j > 0 && !LexLe(a[j - 1].period, a[j].period)
      invariant 0 <= j <= i
      invariant forall k, l :: 0 <= k < l <= i && k != j && l != j ==> LexLe(a[k].period, a[l].period)
      invariant forall l :: j < l <= i ==> LexLe(a[j].period, a[l].period)
      invariant multiset(a[..]) == multiset(old(a[..]))
    {
      LexLeTotal(a[j - 1].period, a[j].period);
      a[j], a[j - 1] := a[j - 1], a[j];
      j := j - 1;
    }
    forall k | 0 <= k < j ensures LexLe(a[k].period, a[j].period) {
      if k < j - 1 {
        LexLeTransitive(a[k].period, a[j - 1].period, a[j].period);
      }
    }
  }

  /** Two equal entries at different positions make the entry occur at least twice. */
  lemma CountTwo(s: seq<Row>, k: nat, l: nat)
    requires k < l < |s|
    ensures s[k] == s[l] ==> multiset(s)[s[k]] >= 2
  {
    if s[k] == s[l] {
      assert s == s[..l] + [s[l]] + s[l + 1..];
      assert s[k] in s[..l];
    }
  }

  /** Rows with distinct periods occur at most once each. */
  lemma {:induction false} CountOne(s: seq<Row>, x: Row)
    requires DistinctPeriods(s)
    ensures multiset(s)[x] <= 1
  {
    if s != [] {
      var pre := s[..|s| - 1];
      assert s == pre + [s[|s| - 1]];
      assert DistinctPeriods(pre) by {
        forall k, l | 0 <= k < l < |pre| ensures pre[k].period != pre[l].period {
          assert pre[k] == s[k] && pre[l] == s[l];
        }
      }
      CountOne(pre, x);
      if x == s[|s| - 1] {
        forall k | 0 <= k < |pre| ensures pre[k] != x {
          assert pre[k].period == s[k].period != s[|s| - 1].period;
        }
      }
    }
  }

  /** A permutation of rows with distinct periods has distinct periods too. */
  lemma PermutationKeepsDistinct(s: seq<Row>, t: seq<Row>)
    requires DistinctPeriods(s) && multiset(s) == multiset(t)
    ensures DistinctPeriods(t)
  {
    forall k, l | 0 <= k < l < |t| ensures t[k].period != t[l].period {
      CountTwo(t, k, l);
      CountOne(s, t[k]);
      assert t[k] != t[l];
      assert t[k] in multiset(s) && t[l] in multiset(s);
      var a :| 0 <= a < |s| && s[a] == t[k];
      var b :| 0 <= b < |s| && s[b] == t[l];
      assert a != b;
      if a < b { assert s[a].period != s[b].period; } else { assert s[b].period != s[a].period; }
    }
  }

  /** Two strictly ascending sequences with the same elements are the same sequence. */
  lemma {:induction false} AscendingUnique(s: seq<string>, t: seq<string>)
    requires StrictlyAscending(s) && StrictlyAscending(t)
    requires forall x :: x in s <==> x in t
    ensures s == t
  {
    if s == [] {
      assert forall k :: 0 <= k < |t| ==> t[k] in t;
    } else {
      assert s[0] in t && t[0] in s;
      var a :| 0 <= a < |t| && t[a] == s[0];
      var b :| 0 <= b < |s| && s[b] == t[0];
      if b > 0 && a > 0 {
        LexLeAntisymmetric(s[0], t[0]);
      }
      assert s[0] == t[0];
      forall x ensures x in s[1..] <==> x in t[1..] {
        if x in s[1..] {
          var k :| 0 <= k < |s[1..]| && s[1..][k] == x;
          assert s[k + 1] == x && LexLt(s[0], x);
          assert x in s;
          var j :| 0 <= j < |t| && t[j] == x;
          assert j != 0 && t[1..][j - 1] == x;
        }
        if x in t[1..] {
          var k :| 0 <= k < |t[1..]| && t[1..][k] == x;
          assert t[k + 1] == x && LexLt(t[0], x);
          assert x in t;
          var j :| 0 <= j < |s| && s[j] == x;
          assert j != 0 && s[1..][j - 1] == x;
        }
      }
      AscendingUnique(s[1..], t[1..]);
      assert s == [s[0]] + s[1..] && t == [t[0]] + t[1..];
    }
  }

  /** What the single-country page shows. */
  datatype CountryView = LoadError | NoData | Chart(labels: seq<string>, values: seq<int>)

  /**
   * `loadCountry(countryCode)`: an error when the download fails, "No EV data
   * parsed." when no row was found, and otherwise the chart of the rows sorted
   * by period: the labels are the country's periods in ascending order and each
   * value is the figure of the row for its label.
   */
  method LoadCountry(cc: string, fetch: string -> Option<string>, parse: string -> Option<Body>)
    returns (view: CountryView)
    ensures fetch(DataUrl(cc)).None? ==> view == LoadError
    ensures fetch(DataUrl(cc)).Some? ==>
              var rows := CountryRows(fetch(DataUrl(cc)).value, cc, parse);
              (rows == [] ==> view == NoData)
              && (rows != [] ==> view.Chart? && view.labels == SortedKeys(PeriodsOf(rows))
                                 && |view.values| == |view.labels|
                                 && forall i :: 0 <= i < |view.labels| ==> Row(view.labels[i], view.values[i]) in rows)
  {
    var data := FetchCountryEvData(cc, fetch, parse);
    if data.None? {
      return LoadError;
    }
    var rows := data.value;
    if |rows| == 0 {
      return NoData;
    }
    ghost var text := fetch(DataUrl(cc)).value;
    RowPerPeriod(Matches(text, cc, 0), parse);
    var labels, values := SortedChart(rows);
    return Chart(labels, values);
  }

  /**
   * The sort and the two `map` projections: the labels are the periods in
   * ascending order and each value is the figure of the row for its label.
   */
  method SortedChart(rows: seq<Row>) returns (labels: seq<string>, values: seq<int>)
    requires DistinctPeriods(rows)
    ensures labels == SortedKeys(PeriodsOf(rows))
    ensures |values| == |labels|
    ensures forall i :: 0 <= i < |labels| ==> Row(labels[i], values[i]) in rows
  {
    var a := new Row[|rows|](i requires 0 <= i < |rows| => rows[i]);
    assert a[..] == rows;
    SortByPeriod(a);
    var sorted := a[..];
    labels := seq(|sorted|, i requires 0 <= i < |sorted| => sorted[i].period);
    values := seq(|sorted|, i requires 0 <= i < |sorted| => sorted[i].evSales);
    LabelsAreSortedPeriods(rows, sorted, labels);
    forall i | 0 <= i < |labels| ensures Row(labels[i], values[i]) in rows {
      assert Row(labels[i], values[i]) == sorted[i];
      assert sorted[i] in multiset(rows);
    }
  }

  /** The labels of a sorted permutation of rows with distinct periods are the sorted periods. */
  lemma LabelsAreSortedPeriods(rows: seq<Row>, sorted: seq<Row>, labels: seq<string>)
    requires DistinctPeriods(rows) && SortedByPeriod(sorted) && multiset(sorted) == multiset(rows)
    requires |labels| == |sorted| && forall i :: 0 <= i < |sorted| ==> labels[i] == sorted[i].period
    ensures labels == SortedKeys(PeriodsOf(rows))
  {
    PermutationKeepsDistinct(rows, sorted);
    forall x ensures x in labels <==> x in SortedKeys(PeriodsOf(rows)) {
      if x in labels {
        var i :| 0 <= i < |labels| && labels[i] == x;
        assert sorted[i] in multiset(rows);
      }
      if x in PeriodsOf(rows) {
        var r :| r in rows && r.period == x;
        assert r in multiset(sorted);
        var i :| 0 <= i < |sorted| && sorted[i] == r;
        assert labels[i] == x;
      }
    }
    AscendingUnique(labels, SortedKeys(PeriodsOf(rows)));
  }
}
