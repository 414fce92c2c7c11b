/**
 * `buildPivot`: the rows of every loaded country, co-indexed by period and then
 * by country code.
 */
module Pivot {
  import opened Wrappers
  import opened Records

  /** One loaded country: `{ code, data }`. */
  datatype Dataset = Dataset(code: string, data: seq<Row>)

  /** The pivot object: period, then country code, to `ev_sales`. */
  type PivotTable = map<string, map<string, int>>

  /** `pivot[period][code]`, when it is set. */
  function Cell(pv: PivotTable, period: string, code: string): Option<int> {
    if period in pv && code in pv[period] then Some(pv[period][code]) else None
  }

  /** `if (!pivot[period]) pivot[period] = {}; pivot[period][code] = ev_sales;` */
  function Put(pv: PivotTable, period: string, code: string, v: int): PivotTable {
    if period in pv then pv[period := pv[period][code := v]] else pv[period := map[code := v]]
  }

  /** The inner `data.forEach` for one country, over its rows in order. */
  function AddRows(pv: PivotTable, code: string, rows: seq<Row>): PivotTable {
    if rows == [] then pv
    else Put(AddRows(pv, code, rows[..|rows| - 1]), rows[|rows| - 1].period, code, rows[|rows| - 1].evSales)
  }

  /** The pivot after the outer `datasets.forEach` has processed the datasets `ds`. */
  function PivotOf(ds: seq<Dataset>): PivotTable {
    if ds == [] then map[]
    else AddRows(PivotOf(ds[..|ds| - 1]), ds[|ds| - 1].code, ds[|ds| - 1].data)
  }

  /** `buildPivot(datasets)`, with its two nested loops. */
  method BuildPivot(datasets: seq<Dataset>) returns (pivot: PivotTable)
    ensures pivot == PivotOf(datasets)
  {
    pivot := map[];
    var i := 0;
    while i < |datasets|
      invariant i <= |datasets|
      invariant pivot == PivotOf(datasets[..i])
    {
      var code := datasets[i].code;
      var data := datasets[i].data;
      assert datasets[..i + 1][..i] == datasets[..i];
      ghost var before := pivot;
      var j := 0;
      while j < |data|
        invariant j <= |data|
        invariant pivot == AddRows(before, code, data[..j])
      {
        assert data[..j + 1][..j] == data[..j];
        var row := data[j];
        if row.period !in pivot {
          pivot := pivot[row.period := map[]];
        }
        pivot := pivot[row.period := pivot[row.period][code := row.evSales]];
        j := j + 1;
      }
      assert data[..|data|] == data;
      i := i + 1;
    }
    assert datasets[..|datasets|] == datasets;
  }

  /** The figure of the last row for `period` among `rows`. */
  function LastIn(rows: seq<Row>, period: string): Option<int> {
    if rows == [] then None
    else if rows[|rows| - 1].period == period then Some(rows[|rows| - 1].evSales)
    else LastIn(rows[..|rows| - 1], period)
  }

  /** The figure of the last row for `period` in the last dataset for `code` that has one. */
  function LastOf(ds: seq<Dataset>, period: string, code: string): Option<int> {
    if ds == [] then None
    else if ds[|ds| - 1].code == code && LastIn(ds[|ds| - 1].data, period).Some? then LastIn(ds[|ds| - 1].data, period)
    else LastOf(ds[..|ds| - 1], period, code)
  }

  /** Adding one country's rows sets, for that country, the figure of its last row per period. */
  lemma {:induction false} AddRowsCell(pv: PivotTable, code: string, rows: seq<Row>, period: string, c: string)
    ensures Cell(AddRows(pv, code, rows), period, c)
            == if c == code && LastIn(rows, period).Some? then LastIn(rows, period) else Cell(pv, period, c)
  {
    if rows != [] {
      AddRowsCell(pv, code, rows[..|rows| - 1], period, c);
    }
  }

  /**
   * Every cell of the pivot holds the figure of the last row, over the datasets
   * in order, for that period and country, and is absent when there is none.
   */
  lemma {:induction false} PivotCell(ds: seq<Dataset>, period: string, code: string)
    ensures Cell(PivotOf(ds), period, code) == LastOf(ds, period, code)
  {
    if ds != [] {
      var last := ds[|ds| - 1];
      PivotCell(ds[..|ds| - 1], period, code);
      AddRowsCell(PivotOf(ds[..|ds| - 1]), last.code, last.data, period, code);
    }
  }

  /** A row for the period exists in the rows exactly when `LastIn` finds one, and it is one of them. */
  lemma {:induction false} LastInFound(rows: seq<Row>, period: string)
    ensures LastIn(rows, period).Some? <==> exists j :: 0 <= j < |rows| && rows[j].period == period
    ensures LastIn(rows, period).Some? ==> Row(period, LastIn(rows, period).value) in rows
  {
    if rows != [] {
      var pre := rows[..|rows| - 1];
      LastInFound(pre, period);
      if exists j :: 0 <= j < |pre| && pre[j].period == period {
        var j :| 0 <= j < |pre| && pre[j].period == period;
        assert rows[j] == pre[j];
      }
      if LastIn(pre, period).Some? {
        assert Row(period, LastIn(pre, period).value) in pre;
      }
    }
  }

  /** When the periods of `rows` are distinct, each row is the last one for its period. */
  lemma {:induction false} LastInDistinct(rows: seq<Row>, j: nat)
    requires j < |rows|
    requires forall a, b :: 0 <= a < b < |rows| ==> rows[a].period != rows[b].period
    ensures LastIn(rows, rows[j].period) == Some(rows[j].evSales)
  {
    if j < |rows| - 1 {
      var pre := rows[..|rows| - 1];
      assert pre[j] == rows[j];
      LastInDistinct(pre, j);
    }
  }

  /** The country codes of the datasets are distinct (as the selected checkboxes are). */
  predicate DistinctCodes(ds: seq<Dataset>) {
    forall a, b :: 0 <= a < b < |ds| ==> ds[a].code != ds[b].code
  }

  /** With distinct codes, a cell depends only on the one dataset of that country. */
  lemma {:induction false} LastOfDistinct(ds: seq<Dataset>, i: nat, period: string)
    requires i < |ds| && DistinctCodes(ds)
    ensures LastOf(ds, period, ds[i].code) == LastIn(ds[i].data, period)
  {
    var pre := ds[..|ds| - 1];
    if i < |ds| - 1 {
      assert pre[i] == ds[i];
      LastOfDistinct(pre, i, period);
    } else {
      LastOfAbsent(pre, period, ds[i].code);
    }
  }

  /** No dataset for the code: no cell for it. */
  lemma {:induction false} LastOfAbsent(ds: seq<Dataset>, period: string, code: string)
    requires forall a :: 0 <= a < |ds| ==> ds[a].code != code
    ensures LastOf(ds, period, code) == None
  {
    if ds != [] {
      LastOfAbsent(ds[..|ds| - 1], period, code);
    }
  }

  /**
   * Every row lands in the pivot: with distinct codes, and distinct periods within
   * each country's rows, row `j` of dataset `i` is `pivot[period][code]`.
   */
  lemma RowLands(ds: seq<Dataset>, i: nat, j: nat)
    requires i < |ds| && j < |ds[i].data| && DistinctCodes(ds)
    requires forall a, b :: 0 <= a < b < |ds[i].data| ==> ds[i].data[a].period != ds[i].data[b].period
    ensures Cell(PivotOf(ds), ds[i].data[j].period, ds[i].code) == Some(ds[i].data[j].evSales)
  {
    PivotCell(ds, ds[i].data[j].period, ds[i].code);
    LastOfDistinct(ds, i, ds[i].data[j].period);
    LastInDistinct(ds[i].data, j);
  }

  /** Some dataset for `code` has the row `Row(period, v)`. */
  ghost predicate HasSource(ds: seq<Dataset>, period: string, code: string, v: int) {
    exists i :: 0 <= i < |ds| && ds[i].code == code && Row(period, v) in ds[i].data
  }

  /** No cell exists without a source row. */
  lemma {:induction false} CellHasSource(ds: seq<Dataset>, period: string, code: string)
    requires Cell(PivotOf(ds), period, code).Some?
    ensures HasSource(ds, period, code, Cell(PivotOf(ds), period, code).value)
  {
    PivotCell(ds, period, code);
    LastOfSource(ds, period, code);
  }

  lemma {:induction false} LastOfSource(ds: seq<Dataset>, period: string, code: string)
    requires LastOf(ds, period, code).Some?
    ensures HasSource(ds, period, code, LastOf(ds, period, code).value)
  {
    var pre := ds[..|ds| - 1];
    var last := ds[|ds| - 1];
    if last.code == code && LastIn(last.data, period).Some? {
      LastInFound(last.data, period);
      assert ds[|ds| - 1] == last;
    } else {
      LastOfSource(pre, period, code);
      var i :| 0 <= i < |pre| && pre[i].code == code && Row(period, LastOf(pre, period, code).value) in pre[i].data;
      assert ds[i] == pre[i];
    }
  }

  /** Some dataset has a row for the period. */
  ghost predicate PeriodInData(ds: seq<Dataset>, period: string) {
    exists i, j :: 0 <= i < |ds| && 0 <= j < |ds[i].data| && ds[i].data[j].period == period
  }

  /** No period of the pivot holds an empty object. */
  ghost predicate NoEmptyPeriod(pv: PivotTable) {
    forall p :: p in pv ==> pv[p] != map[]
  }

  lemma {:induction false} AddRowsNoEmpty(pv: PivotTable, code: string, rows: seq<Row>)
    requires NoEmptyPeriod(pv)
    ensures NoEmptyPeriod(AddRows(pv, code, rows))
  {
    if rows != [] {
      var last := rows[|rows| - 1];
      var before := AddRows(pv, code, rows[..|rows| - 1]);
      AddRowsNoEmpty(pv, code, rows[..|rows| - 1]);
      assert code in Put(before, last.period, code, last.evSales)[last.period];
    }
  }

  /** The pivot never holds an empty period object. */
  lemma {:induction false} PivotNoEmpty(ds: seq<Dataset>)
    ensures NoEmptyPeriod(PivotOf(ds))
  {
    if ds != [] {
      PivotNoEmpty(ds[..|ds| - 1]);
      AddRowsNoEmpty(PivotOf(ds[..|ds| - 1]), ds[|ds| - 1].code, ds[|ds| - 1].data);
    }
  }

  /** The periods of the pivot are exactly the periods of the rows of all datasets. */
  lemma PivotKeys(ds: seq<Dataset>, period: string)
    ensures period in PivotOf(ds) <==> PeriodInData(ds, period)
  {
    PivotNoEmpty(ds);
    if period in PivotOf(ds) {
      var code :| code in PivotOf(ds)[period];
      assert Cell(PivotOf(ds), period, code).Some?;
      CellHasSource(ds, period, code);
      var i :| 0 <= i < |ds| && ds[i].code == code && Row(period, PivotOf(ds)[period][code]) in ds[i].data;
      var j :| 0 <= j < |ds[i].data| && ds[i].data[j] == Row(period, PivotOf(ds)[period][code]);
    }
    if PeriodInData(ds, period) {
      var i, j :| 0 <= i < |ds| && 0 <= j < |ds[i].data| && ds[i].data[j].period == period;
      PeriodPresent(ds, i, j);
    }
  }

  /** A row's period is a key of the pivot. */
  lemma {:induction false} PeriodPresent(ds: seq<Dataset>, i: nat, j: nat)
    requires i < |ds| && j < |ds[i].data|
    ensures ds[i].data[j].period in PivotOf(ds)
  {
    var period := ds[i].data[j].period;
    PivotCell(ds, period, ds[i].code);
    LastOfSome(ds, i, j);
  }

  lemma {:induction false} LastOfSome(ds: seq<Dataset>, i: nat, j: nat)
    requires i < |ds| && j < |ds[i].data|
    ensures LastOf(ds, ds[i].data[j].period, ds[i].code).Some?
  {
    var pre := ds[..|ds| - 1];
    var last := ds[|ds| - 1];
    var period := ds[i].data[j].period;
    if i == |ds| - 1 {
      LastInFound(last.data, period);
    } else if !(last.code == ds[i].code && LastIn(last.data, period).Some?) {
      assert pre[i] == ds[i];
      LastOfSome(pre, i, j);
    }
  }

  /** Two pivots with the same cells and no empty period objects are equal. */
  lemma SameCells(a: PivotTable, b: PivotTable)
    requires NoEmptyPeriod(a) && NoEmptyPeriod(b)
    requires forall p, c :: Cell(a, p, c) == Cell(b, p, c)
    ensures a == b
  {
    forall p | p in a ensures p in b && a[p] == b[p] {
      var c :| c in a[p];
      assert Cell(a, p, c).Some?;
      forall c' ensures (c' in a[p] <==> c' in b[p]) && (c' in a[p] ==> a[p][c'] == b[p][c']) {
        assert Cell(a, p, c') == Cell(b, p, c');
      }
    }
    forall p | p in b ensures p in a {
      var c :| c in b[p];
      assert Cell(b, p, c).Some?;
      assert Cell(a, p, c) == Cell(b, p, c);
    }
  }

  /** With distinct codes, the order in which the countries are loaded does not change the pivot. */
  lemma OrderIndependent(ds1: seq<Dataset>, ds2: seq<Dataset>)
    requires DistinctCodes(ds1) && DistinctCodes(ds2)
    requires multiset(ds1) == multiset(ds2)
    ensures PivotOf(ds1) == PivotOf(ds2)
  {
    PivotNoEmpty(ds1);
    PivotNoEmpty(ds2);
    forall p, c ensures Cell(PivotOf(ds1), p, c) == Cell(PivotOf(ds2), p, c) {
      PivotCell(ds1, p, c);
      PivotCell(ds2, p, c);
      SameCountryCell(ds1, ds2, p, c);
    }
    SameCells(PivotOf(ds1), PivotOf(ds2));
  }

  lemma SameCountryCell(ds1: seq<Dataset>, ds2: seq<Dataset>, p: string, c: string)
    requires DistinctCodes(ds1) && DistinctCodes(ds2)
    requires multiset(ds1) == multiset(ds2)
    ensures LastOf(ds1, p, c) == LastOf(ds2, p, c)
  {
    if i :| 0 <= i < |ds1| && ds1[i].code == c {
      assert ds1[i] in multiset(ds2);
      var k :| 0 <= k < |ds2| && ds2[k] == ds1[i];
      LastOfDistinct(ds1, i, p);
      LastOfDistinct(ds2, k, p);
    } else {
      forall k | 0 <= k < |ds2| ensures ds2[k].code != c {
        assert ds2[k] in multiset(ds1);
      }
      LastOfAbsent(ds1, p, c);
      LastOfAbsent(ds2, p, c);
    }
  }
}
