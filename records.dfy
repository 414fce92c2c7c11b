/**
 * What the records of one data file add up to: the figure stored for a record
 * (`sumNumericValues`), the `periods` object that the extraction loop fills in,
 * and the precedence that picks one figure per period.
 */
module Records {
  import opened Wrappers
  import opened InsertScan
  import opened BodyClean

  /** A value of the parsed object: a JSON number, or anything else. */
  datatype Val = Num(n: int) | Other

  /** The object `JSON.parse` returns, as its entries in `Object.values` order. */
  type Body = seq<(string, Val)>

  /** The amount a value adds to the sum: the number itself, 0 for anything else. */
  function Amount(v: Val): int {
    if v.Num? then v.n else 0
  }

  /**
   * `sumNumericValues`: the `reduce` over `Object.values(obj)` from 0 that adds
   * a value only when it is a number.
   */
  function SumNumeric(body: Body): (r: int)
    ensures (forall i :: 0 <= i < |body| ==> body[i].1.Other?) ==> r == 0
    ensures (forall i :: 0 <= i < |body| ==> Amount(body[i].1) >= 0) ==> r >= 0
  {
    if body == [] then 0
    else SumNumeric(body[..|body| - 1]) + Amount(body[|body| - 1].1)
  }

  /** The numbers among the values, in order. */
  function Numbers(body: Body): (xs: seq<int>)
    ensures |xs| <= |body|
  {
    if body == [] then []
    else if body[0].1.Num? then [body[0].1.n] + Numbers(body[1..])
    else Numbers(body[1..])
  }

  /** The sum of a sequence of numbers. */
  function Sum(xs: seq<int>): int {
    if xs == [] then 0 else xs[0] + Sum(xs[1..])
  }

  lemma {:induction false} SumNumericAppend(a: Body, b: Body)
    ensures SumNumeric(a + b) == SumNumeric(a) + SumNumeric(b)
    decreases |b|
  {
    if b == [] {
      assert a + b == a;
    } else {
      var b' := b[..|b| - 1];
      assert (a + b)[..|a + b| - 1] == a + b';
      SumNumericAppend(a, b');
    }
  }

  /** The record's figure is the sum of exactly the numbers of its body; other values add nothing. */
  lemma {:induction false} SumNumericAddsOnlyNumbers(body: Body)
    ensures SumNumeric(body) == Sum(Numbers(body))
  {
    if body != [] {
      assert body == [body[0]] + body[1..];
      SumNumericAppend([body[0]], body[1..]);
      assert SumNumeric([body[0]]) == Amount(body[0].1) by {
        assert [body[0]][..0] == [];
      }
      SumNumericAddsOnlyNumbers(body[1..]);
    }
  }

  /** The three dataset types the extraction recognises. */
  datatype DType = ElectricCarsTotal | ElectricCarsByModel | ElectricCarsByBrand

  /** The identifier a type has in the data files (`db.dsTypes.<name>`). */
  function Name(t: DType): string {
    match t
    case ElectricCarsTotal => "ElectricCarsTotal"
    case ElectricCarsByModel => "ElectricCarsByModel"
    case ElectricCarsByBrand => "ElectricCarsByBrand"
  }

  /** The `dtype ===` tests: which recognised type the captured identifier names, if any. */
  function Classify(dtype: string): (r: Option<DType>)
    ensures r.Some? ==> Name(r.value) == dtype
    ensures r.None? ==> forall t :: Name(t) != dtype
  {
    if dtype == "ElectricCarsTotal" then Some(ElectricCarsTotal)
    else if dtype == "ElectricCarsByModel" then Some(ElectricCarsByModel)
    else if dtype == "ElectricCarsByBrand" then Some(ElectricCarsByBrand)
    else None
  }

  /**
   * The `periods` object: its keys in insertion order, and for each key the
   * figures stored under each type.
   */
  datatype Table = Table(order: seq<string>, cells: map<string, map<DType, int>>)

  const Empty: Table := Table([], map[])

  /** Keys are listed once each, exactly the keys of `cells`, and no key holds an empty object. */
  ghost predicate WellFormed(tb: Table) {
    && (forall i, j :: 0 <= i < j < |tb.order| ==> tb.order[i] != tb.order[j])
    && (forall p :: p in tb.cells <==> p in tb.order)
    && (forall p :: p in tb.cells ==> tb.cells[p] != map[])
  }

  /** `periods[period][dtype]`, when it is set. */
  function Lookup(tb: Table, period: string, t: DType): Option<int> {
    if period in tb.cells && t in tb.cells[period] then Some(tb.cells[period][t]) else None
  }

  /**
   * `if (!periods[period]) periods[period] = {}; periods[period][dtype] = totalVal;`:
   * a new period is appended to the key order and the one cell is set.
   */
  function Store(tb: Table, period: string, t: DType, v: int): Table {
    if period in tb.cells then Table(tb.order, tb.cells[period := tb.cells[period][t := v]])
    else Table(tb.order + [period], tb.cells[period := map[t := v]])
  }

  /**
   * Storing sets exactly one cell, overwriting what was there, leaves every other
   * cell as it was, and appends the period to the key order only when it is new.
   */
  lemma StoreSetsOneCell(tb: Table, period: string, t: DType, v: int, p: string, u: DType)
    ensures Store(tb, period, t, v).order == if period in tb.cells then tb.order else tb.order + [period]
    ensures Lookup(Store(tb, period, t, v), p, u) == if p == period && u == t then Some(v) else Lookup(tb, p, u)
  {
  }

  /** Storing keeps the keys distinct, in step with the cells, and never leaves an empty object. */
  lemma StoreWellFormed(tb: Table, period: string, t: DType, v: int)
    requires WellFormed(tb)
    ensures WellFormed(Store(tb, period, t, v))
  {
    var r := Store(tb, period, t, v);
    if period !in tb.cells {
      assert t in r.cells[period];
      forall i, j | 0 <= i < j < |r.order| ensures r.order[i] != r.order[j] {
        if j == |tb.order| {
          assert r.order[i] == tb.order[i];
        }
      }
    }
  }

  /**
   * What one match stores: nothing when its cleaned body does not parse or its
   * type is not recognised, and otherwise the type and the sum of the numbers.
   */
  function Record(m: Match, parse: string -> Option<Body>): Option<(DType, int)> {
    match parse(CleanBody(m.body))
    case None => None
    case Some(obj) =>
      match Classify(m.dtype)
      case None => None
      case Some(t) => Some((t, SumNumeric(obj)))
  }

  /** One pass of the `while` loop's body. */
  function Step(tb: Table, m: Match, parse: string -> Option<Body>): Table {
    match Record(m, parse)
    case None => tb
    case Some((t, v)) => Store(tb, m.period, t, v)
  }

  /** The table after the loop has processed the matches `ms`, in order, starting from `tb`. */
  function Accumulate(tb: Table, ms: seq<Match>, parse: string -> Option<Body>): Table {
    if ms == [] then tb
    else Step(Accumulate(tb, ms[..|ms| - 1], parse), ms[|ms| - 1], parse)
  }

  /** The table the loop builds always has distinct keys, in step with its cells, none empty. */
  lemma {:induction false} AccumulateWellFormed(ms: seq<Match>, parse: string -> Option<Body>)
    ensures WellFormed(Accumulate(Empty, ms, parse))
  {
    if ms != [] {
      AccumulateWellFormed(ms[..|ms| - 1], parse);
      var tb := Accumulate(Empty, ms[..|ms| - 1], parse);
      var m := ms[|ms| - 1];
      if Record(m, parse).Some? {
        StoreWellFormed(tb, m.period, Record(m, parse).value.0, Record(m, parse).value.1);
      }
    }
  }

  /** The match stores a figure for this period and type. */
  predicate Writes(m: Match, parse: string -> Option<Body>, period: string, t: DType) {
    m.period == period && Record(m, parse).Some? && Record(m, parse).value.0 == t
  }

  lemma {:induction false} AccumulateAppend(tb: Table, a: seq<Match>, b: seq<Match>, parse: string -> Option<Body>)
    ensures Accumulate(tb, a + b, parse) == Accumulate(Accumulate(tb, a, parse), b, parse)
    decreases |b|
  {
    if b == [] {
      assert a + b == a;
    } else {
      assert (a + b)[..|a + b| - 1] == a + b[..|b| - 1];
      AccumulateAppend(tb, a, b[..|b| - 1], parse);
    }
  }

  /**
   * A match whose body does not parse, or whose type is not recognised, is skipped:
   * the table is the same as if it were not there, and later matches are still processed.
   */
  lemma Skipped(pre: seq<Match>, m: Match, post: seq<Match>, parse: string -> Option<Body>)
    requires parse(CleanBody(m.body)).None? || Classify(m.dtype).None?
    ensures Accumulate(Empty, pre + [m], parse) == Accumulate(Empty, pre, parse)
    ensures Accumulate(Empty, pre + [m] + post, parse) == Accumulate(Empty, pre + post, parse)
  {
    AccumulateAppend(Empty, pre + [m], post, parse);
    AccumulateAppend(Empty, pre, post, parse);
    assert (pre + [m])[..|pre + [m]| - 1] == pre;
  }

  /**
   * Last write wins: the cell for `(period, t)` holds the figure of the last match
   * that writes it, whatever earlier matches wrote; figures are not added up.
   */
  lemma {:induction false} LastWriteWins(ms: seq<Match>, parse: string -> Option<Body>, i: nat, period: string, t: DType, v: int)
    requires i < |ms| && ms[i].period == period && Record(ms[i], parse) == Some((t, v))
    requires forall j :: i < j < |ms| ==> !Writes(ms[j], parse, period, t)
    ensures Lookup(Accumulate(Empty, ms, parse), period, t) == Some(v)
    decreases |ms|
  {
    var pre := ms[..|ms| - 1];
    var last := ms[|ms| - 1];
    StepLookup(Accumulate(Empty, pre, parse), last, parse, period, t);
    if i < |ms| - 1 {
      forall j | i < j < |pre| ensures !Writes(pre[j], parse, period, t) {
        assert pre[j] == ms[j];
      }
      assert pre[i] == ms[i];
      LastWriteWins(pre, parse, i, period, t, v);
      assert !Writes(last, parse, period, t);
    } else {
      assert Writes(last, parse, period, t);
    }
  }

  /** A cell no match writes is never set. */
  lemma {:induction false} NoWriteNoCell(ms: seq<Match>, parse: string -> Option<Body>, period: string, t: DType)
    requires forall j :: 0 <= j < |ms| ==> !Writes(ms[j], parse, period, t)
    ensures Lookup(Accumulate(Empty, ms, parse), period, t) == None
    decreases |ms|
  {
    if ms != [] {
      StepLookup(Accumulate(Empty, ms[..|ms| - 1], parse), ms[|ms| - 1], parse, period, t);
      NoWriteNoCell(ms[..|ms| - 1], parse, period, t);
      assert !Writes(ms[|ms| - 1], parse, period, t);
    }
  }

  /** One pass of the loop changes only the cell the match writes. */
  lemma StepLookup(tb: Table, m: Match, parse: string -> Option<Body>, period: string, t: DType)
    ensures Lookup(Step(tb, m, parse), period, t)
            == if Writes(m, parse, period, t) then Some(Record(m, parse).value.1) else Lookup(tb, period, t)
  {
    if Record(m, parse).Some? {
      StoreSetsOneCell(tb, m.period, Record(m, parse).value.0, Record(m, parse).value.1, period, t);
    }
  }

  /** Every stored figure is the figure of a match that writes that cell. */
  lemma {:induction false} CellHasSource(ms: seq<Match>, parse: string -> Option<Body>, period: string, t: DType)
    requires Lookup(Accumulate(Empty, ms, parse), period, t).Some?
    ensures exists j :: 0 <= j < |ms| && Writes(ms[j], parse, period, t)
              && Record(ms[j], parse).value.1 == Lookup(Accumulate(Empty, ms, parse), period, t).value
    decreases |ms|
  {
    var pre := ms[..|ms| - 1];
    var last := ms[|ms| - 1];
    StepLookup(Accumulate(Empty, pre, parse), last, parse, period, t);
    if Writes(last, parse, period, t) {
      assert Writes(ms[|ms| - 1], parse, period, t);
    } else {
      CellHasSource(pre, parse, period, t);
      var j :| 0 <= j < |pre| && Writes(pre[j], parse, period, t)
                && Record(pre[j], parse).value.1 == Lookup(Accumulate(Empty, pre, parse), period, t).value;
      assert ms[j] == pre[j];
    }
  }

  /** How a type ranks in the precedence: Total, then ByModel, then ByBrand. */
  function Rank(t: DType): nat {
    match t
    case ElectricCarsTotal => 0
    case ElectricCarsByModel => 1
    case ElectricCarsByBrand => 2
  }

  /**
   * The `if … else if … else continue` of the rows loop: the figure of the
   * best-ranked type present, and `None` exactly when no type is present. The
   * test is presence (`!= null`), so a figure of 0 still wins.
   */
  function Resolve(perType: map<DType, int>): (r: Option<int>)
    ensures r.None? <==> perType == map[]
    ensures r.Some? ==> exists t :: t in perType && perType[t] == r.value
                                      && forall u :: u in perType ==> Rank(t) <= Rank(u)
  {
    if ElectricCarsTotal in perType then Some(perType[ElectricCarsTotal])
    else if ElectricCarsByModel in perType then Some(perType[ElectricCarsByModel])
    else if ElectricCarsByBrand in perType then Some(perType[ElectricCarsByBrand])
    else
      NoTypeIsEmpty(perType);
      None
  }

  lemma NoTypeIsEmpty(perType: map<DType, int>)
    requires ElectricCarsTotal !in perType && ElectricCarsByModel !in perType && ElectricCarsByBrand !in perType
    ensures perType == map[]
  {
    forall t: DType ensures t !in perType {
      match t {
        case ElectricCarsTotal =>
        case ElectricCarsByModel =>
        case ElectricCarsByBrand =>
      }
    }
    assert perType.Keys == {};
  }

  /** One element of the returned array: `{ period, ev_sales }`. */
  datatype Row = Row(period: string, evSales: int)

  /** The `for (const [period, perType] of Object.entries(periods))` loop, over the first keys of `order`. */
  function RowsOf(order: seq<string>, cells: map<string, map<DType, int>>): (rows: seq<Row>)
    requires forall p :: p in order ==> p in cells
    ensures |rows| <= |order|
    ensures forall r :: r in rows ==> r.period in order && Resolve(cells[r.period]) == Some(r.evSales)
  {
    if order == [] then []
    else
      var rest := RowsOf(order[..|order| - 1], cells);
      var p := order[|order| - 1];
      match Resolve(cells[p])
      case None => rest
      case Some(v) => rest + [Row(p, v)]
  }

  /** When no key holds an empty object, every key yields a row, in key order. */
  lemma {:induction false} RowsOfEveryKey(order: seq<string>, cells: map<string, map<DType, int>>)
    requires forall p :: p in order ==> p in cells && cells[p] != map[]
    ensures |RowsOf(order, cells)| == |order|
    ensures forall i :: 0 <= i < |order| ==> RowsOf(order, cells)[i].period == order[i]
  {
    if order != [] {
      var pre := order[..|order| - 1];
      var p := order[|order| - 1];
      RowsOfEveryKey(pre, cells);
      var v := Resolve(cells[p]).value;
      var rows := RowsOf(order, cells);
      assert rows == RowsOf(pre, cells) + [Row(p, v)];
      forall i | 0 <= i < |order| ensures rows[i].period == order[i] {
        if i < |pre| {
          assert rows[i] == RowsOf(pre, cells)[i];
        }
      }
    }
  }

  /** The rows a data file yields, for the matches the scan visited. */
  function RowsAfter(ms: seq<Match>, parse: string -> Option<Body>): seq<Row> {
    AccumulateWellFormed(ms, parse);
    var tb := Accumulate(Empty, ms, parse);
    RowsOf(tb.order, tb.cells)
  }

  /** Some row is for this period. */
  predicate HasRow(rows: seq<Row>, period: string) {
    exists r :: r in rows && r.period == period
  }

  /** Some match stores a figure for this period. */
  ghost predicate Stored(ms: seq<Match>, parse: string -> Option<Body>, period: string) {
    exists j, t :: 0 <= j < |ms| && Writes(ms[j], parse, period, t)
  }

  /** The rows are the keys of the table, one each, in key order. */
  lemma RowsAreKeys(ms: seq<Match>, parse: string -> Option<Body>)
    ensures |RowsAfter(ms, parse)| == |Accumulate(Empty, ms, parse).order|
    ensures forall i :: 0 <= i < |RowsAfter(ms, parse)| ==> RowsAfter(ms, parse)[i].period == Accumulate(Empty, ms, parse).order[i]
  {
    var tb := Accumulate(Empty, ms, parse);
    AccumulateWellFormed(ms, parse);
    RowsOfEveryKey(tb.order, tb.cells);
  }

  /** A key of the table is a period some match stores a figure for, and the other way round. */
  lemma KeyIffStored(ms: seq<Match>, parse: string -> Option<Body>, p: string)
    ensures p in Accumulate(Empty, ms, parse).cells <==> Stored(ms, parse, p)
  {
    var tb := Accumulate(Empty, ms, parse);
    AccumulateWellFormed(ms, parse);
    if p in tb.cells {
      var t :| t in tb.cells[p];
      assert Lookup(tb, p, t).Some?;
      CellHasSource(ms, parse, p, t);
    }
    if Stored(ms, parse, p) {
      var j, t :| 0 <= j < |ms| && Writes(ms[j], parse, p, t);
      var k := LastWriter(ms, parse, j, p, t);
      LastWriteWins(ms, parse, k, p, t, Record(ms[k], parse).value.1);
    }
  }

  /**
   * One row per period: the periods of the rows are distinct, and a period has a
   * row exactly when some match stores a figure for it.
   */
  lemma RowPerPeriod(ms: seq<Match>, parse: string -> Option<Body>)
    ensures forall i, j :: 0 <= i < j < |RowsAfter(ms, parse)| ==> RowsAfter(ms, parse)[i].period != RowsAfter(ms, parse)[j].period
    ensures forall p :: HasRow(RowsAfter(ms, parse), p) <==> Stored(ms, parse, p)
  {
    var tb := Accumulate(Empty, ms, parse);
    var rows := RowsAfter(ms, parse);
    AccumulateWellFormed(ms, parse);
    RowsAreKeys(ms, parse);
    forall p ensures HasRow(rows, p) <==> Stored(ms, parse, p) {
      KeyIffStored(ms, parse, p);
      if HasRow(rows, p) {
        var r :| r in rows && r.period == p;
        var i :| 0 <= i < |rows| && rows[i] == r;
        assert tb.order[i] == p;
      }
      if p in tb.cells {
        var i :| 0 <= i < |tb.order| && tb.order[i] == p;
        assert rows[i].period == p;
      }
    }
  }

  /** The last match at or after `j` that writes the cell. */
  lemma {:induction false} LastWriter(ms: seq<Match>, parse: string -> Option<Body>, j: nat, period: string, t: DType) returns (k: nat)
    requires j < |ms| && Writes(ms[j], parse, period, t)
    ensures j <= k < |ms| && Writes(ms[k], parse, period, t)
    ensures forall i :: k < i < |ms| ==> !Writes(ms[i], parse, period, t)
    decreases |ms| - j
  {
    if exists i :: j < i < |ms| && Writes(ms[i], parse, period, t) {
      var i :| j < i < |ms| && Writes(ms[i], parse, period, t);
      k := LastWriter(ms, parse, i, period, t);
    } else {
      k := j;
    }
  }

  /**
   * Precedence over the whole file: a row's figure was written by some match for a
   * type that no match writes a better-ranked figure for.
   */
  lemma RowFollowsPrecedence(ms: seq<Match>, parse: string -> Option<Body>, r: Row)
    requires r in RowsAfter(ms, parse)
    ensures exists j, t :: 0 <= j < |ms| && Writes(ms[j], parse, r.period, t) && Record(ms[j], parse).value.1 == r.evSales
                           && forall u, k :: 0 <= k < |ms| && Rank(u) < Rank(t) ==> !Writes(ms[k], parse, r.period, u)
  {
    var tb := Accumulate(Empty, ms, parse);
    AccumulateWellFormed(ms, parse);
    assert Resolve(tb.cells[r.period]) == Some(r.evSales);
    var per := tb.cells[r.period];
    var t :| t in per && per[t] == r.evSales && forall u :: u in per ==> Rank(t) <= Rank(u);
    assert Lookup(tb, r.period, t) == Some(r.evSales);
    CellHasSource(ms, parse, r.period, t);
    forall u, k | 0 <= k < |ms| && Rank(u) < Rank(t) ensures !Writes(ms[k], parse, r.period, u) {
      NotWrittenWhenAbsent(ms, parse, k, r.period, u);
    }
  }

  /** A cell that is not set at the end is written by no match. */
  lemma NotWrittenWhenAbsent(ms: seq<Match>, parse: string -> Option<Body>, k: nat, period: string, u: DType)
    requires k < |ms|
    requires Lookup(Accumulate(Empty, ms, parse), period, u).None?
    ensures !Writes(ms[k], parse, period, u)
  {
    if Writes(ms[k], parse, period, u) {
      var k' := LastWriter(ms, parse, k, period, u);
      LastWriteWins(ms, parse, k', period, u, Record(ms[k'], parse).value.1);
    }
  }

  /** Two records of different types for one period give that period one object holding both. */
  lemma TwoRecordsOnePeriod(m1: Match, m2: Match, parse: string -> Option<Body>, t1: DType, v1: int, t2: DType, v2: int)
    requires m1.period == m2.period && t1 != t2
    requires Record(m1, parse) == Some((t1, v1)) && Record(m2, parse) == Some((t2, v2))
    ensures Accumulate(Empty, [m1, m2], parse) == Table([m1.period], map[m1.period := map[t1 := v1, t2 := v2]])
  {
    assert [m1, m2][..1] == [m1];
    assert [m1][..0] == [];
    assert Accumulate(Empty, [m1], parse) == Table([m1.period], map[m1.period := map[t1 := v1]]);
  }

  /** A table of a single period gives that period's row. */
  lemma OnePeriodRow(ms: seq<Match>, parse: string -> Option<Body>, p: string, cells: map<DType, int>, v: int)
    requires Accumulate(Empty, ms, parse) == Table([p], map[p := cells])
    requires Resolve(cells) == Some(v)
    ensures RowsAfter(ms, parse) == [Row(p, v)]
  {
    assert [p][..0] == [];
  }

  /**
   * Two records for one period, a Total whose body sums to 150 and a ByBrand of 999:
   * whichever comes first, the period's row carries 150.
   */
  lemma TotalBeatsByBrand(b1: string, b2: string, parse: string -> Option<Body>)
    requires parse(CleanBody(b1)) == Some([("a", Num(100)), ("b", Num(50)), ("note", Other)])
    requires parse(CleanBody(b2)) == Some([("x", Num(999))])
    ensures var m1 := Match(0, 1, "2020", "ElectricCarsTotal", b1);
            var m2 := Match(1, 2, "2020", "ElectricCarsByBrand", b2);
            RowsAfter([m1, m2], parse) == [Row("2020", 150)] && RowsAfter([m2, m1], parse) == [Row("2020", 150)]
  {
    var m1 := Match(0, 1, "2020", "ElectricCarsTotal", b1);
    var m2 := Match(1, 2, "2020", "ElectricCarsByBrand", b2);
    TotalRecordExample(m1, parse);
    ByBrandRecordExample(m2, parse);
    var both := map[ElectricCarsTotal := 150, ElectricCarsByBrand := 999];
    TwoRecordsOnePeriod(m1, m2, parse, ElectricCarsTotal, 150, ElectricCarsByBrand, 999);
    TwoRecordsOnePeriod(m2, m1, parse, ElectricCarsByBrand, 999, ElectricCarsTotal, 150);
    assert map[ElectricCarsByBrand := 999, ElectricCarsTotal := 150] == both;
    assert Resolve(both) == Some(150);
    OnePeriodRow([m1, m2], parse, "2020", both, 150);
    OnePeriodRow([m2, m1], parse, "2020", both, 150);
  }

  /** The Total record of the example: 100 + 50, the non-numeric value skipped. */
  lemma TotalRecordExample(m: Match, parse: string -> Option<Body>)
    requires m.dtype == "ElectricCarsTotal"
    requires parse(CleanBody(m.body)) == Some([("a", Num(100)), ("b", Num(50)), ("note", Other)])
    ensures Record(m, parse) == Some((ElectricCarsTotal, 150))
  {
    SumNumericAddsOnlyNumbers([("a", Num(100)), ("b", Num(50)), ("note", Other)]);
  }

  /** The ByBrand record of the example. */
  lemma ByBrandRecordExample(m: Match, parse: string -> Option<Body>)
    requires m.dtype == "ElectricCarsByBrand"
    requires parse(CleanBody(m.body)) == Some([("x", Num(999))])
    ensures Record(m, parse) == Some((ElectricCarsByBrand, 999))
  {
    SumNumericAddsOnlyNumbers([("x", Num(999))]);
  }

  /** Presence decides, not size: a Total of 0 still wins over a ByBrand figure. */
  lemma ZeroTotalWins(perType: map<DType, int>)
    requires ElectricCarsTotal in perType && perType[ElectricCarsTotal] == 0
    ensures Resolve(perType) == Some(0)
  {
    var t :| t in perType && perType[t] == Resolve(perType).value && forall u :: u in perType ==> Rank(t) <= Rank(u);
    assert Rank(t) <= Rank(ElectricCarsTotal);
  }
}
