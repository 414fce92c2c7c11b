/**
 * `fetchCountryEvData`: download one country's data file, scan it for the
 * country's `db.insert` calls, fill in the `periods` object and turn it into
 * rows. The download and `JSON.parse` are parameters: `fetch` gives the text
 * of a URL, or `None` when the response is not ok, and `parse` gives the
 * object's entries, or `None` when `JSON.parse` throws.
 */
module Extract {
  import opened Wrappers
  import opened InsertScan
  import opened BodyClean
  import opened Records

  const DataBaseUrl: string := "https://raw.githubusercontent.com/simonkrauter/Open-EV-Charts/master/data"

  /** The URL of a country's data file. */
  function DataUrl(cc: string): string {
    DataBaseUrl + "/data-" + cc + ".js"
  }

  /** The rows a data file yields for the country code `cc`. */
  function CountryRows(text: string, cc: string, parse: string -> Option<Body>): seq<Row> {
    RowsAfter(Matches(text, cc, 0), parse)
  }

  /** Every key of the table the loop builds has an object in the table. */
  lemma AccumulateKeys(ms: seq<Match>, parse: string -> Option<Body>)
    ensures forall p :: p in Accumulate(Empty, ms, parse).order ==> p in Accumulate(Empty, ms, parse).cells
  {
    AccumulateWellFormed(ms, parse);
  }

  /**
   * The rows for `cc`: `None` when the download fails (the source throws), and
   * otherwise exactly the rows the specification functions give for the text.
   */
  method FetchCountryEvData(cc: string, fetch: string -> Option<string>, parse: string -> Option<Body>)
    returns (result: Option<seq<Row>>)
    ensures fetch(DataUrl(cc)).None? ==> result.None?
    ensures fetch(DataUrl(cc)).Some? ==> result == Some(CountryRows(fetch(DataUrl(cc)).value, cc, parse))
  {
    var response := fetch(DataUrl(cc));
    if response.None? {
      return None;
    }
    var jsText := response.value;
    var order, periods := ScanPeriods(jsText, cc, parse);
    AccumulateKeys(Matches(jsText, cc, 0), parse);
    var rows := CollectRows(order, periods);
    return Some(rows);
  }

  /** The table the loop ends with when it starts with `tb` and `lastIndex == from`. */
  function Scan(tb: Table, t: string, cc: string, from: nat, parse: string -> Option<Body>): Table
    requires from <= |t|
    decreases |t| - from
  {
    match NextMatch(t, cc, from)
    case None => tb
    case Some(m) => Scan(Step(tb, m, parse), t, cc, m.end, parse)
  }

  /** Scanning is folding `Step` over the matches the scan visits. */
  lemma {:induction false} ScanAccumulates(tb: Table, t: string, cc: string, from: nat, parse: string -> Option<Body>)
    requires from <= |t|
    ensures Scan(tb, t, cc, from, parse) == Accumulate(tb, Matches(t, cc, from), parse)
    decreases |t| - from
  {
    MatchesStep(t, cc, from);
    match NextMatch(t, cc, from)
    case None =>
    case Some(m) =>
      ScanAccumulates(Step(tb, m, parse), t, cc, m.end, parse);
      AccumulateAppend(tb, [m], Matches(t, cc, m.end), parse);
      assert [m][..0] == [];
  }

  /**
   * The `while ((match = pattern.exec(jsText)) !== null)` loop: the `periods`
   * object, as its key order and its contents, after every match was processed.
   */
  method ScanPeriods(jsText: string, cc: string, parse: string -> Option<Body>)
    returns (order: seq<string>, periods: map<string, map<DType, int>>)
    ensures Table(order, periods) == Accumulate(Empty, Matches(jsText, cc, 0), parse)
  {
    order, periods := [], map[];
    var from := 0;
    while true
      invariant from <= |jsText|
      invariant Scan(Table(order, periods), jsText, cc, from, parse) == Scan(Empty, jsText, cc, 0, parse)
      decreases |jsText| - from
    {
      var next := NextMatch(jsText, cc, from);
      if next.None? {
        break;
      }
      var m := next.value;
      order, periods := ProcessMatch(order, periods, m, parse);
      from := m.end;
    }
    ScanAccumulates(Empty, jsText, cc, 0, parse);
  }

  /** The body of the `while` loop for one match. */
  method ProcessMatch(order0: seq<string>, periods0: map<string, map<DType, int>>, m: Match, parse: string -> Option<Body>)
    returns (order: seq<string>, periods: map<string, map<DType, int>>)
    ensures Table(order, periods) == Step(Table(order0, periods0), m, parse)
  {
    order, periods := order0, periods0;
    var objStr := CleanBody(m.body);
    var dataObj := parse(objStr);
    if dataObj.None? {
      return;
    }
    var dtype := Classify(m.dtype);
    if dtype.None? {
      return;
    }
    var totalVal := SumNumeric(dataObj.value);
    if m.period !in periods {
      order := order + [m.period];
      periods := periods[m.period := map[]];
    }
    periods := periods[m.period := periods[m.period][dtype.value := totalVal]];
  }

  /** The `for (const [period, perType] of Object.entries(periods))` loop. */
  method CollectRows(order: seq<string>, periods: map<string, map<DType, int>>) returns (rows: seq<Row>)
    requires forall p :: p in order ==> p in periods
    ensures rows == RowsOf(order, periods)
  {
    rows := [];
    var i := 0;
    while i < |order|
      invariant i <= |order|
      invariant rows == RowsOf(order[..i], periods)
    {
      assert order[..i + 1][..i] == order[..i];
      var period := order[i];
      var perType := periods[period];
      var ev: int;
      if ElectricCarsTotal in perType {
        ev := perType[ElectricCarsTotal];
      } else if ElectricCarsByModel in perType {
        ev := perType[ElectricCarsByModel];
      } else if ElectricCarsByBrand in perType {
        ev := perType[ElectricCarsByBrand];
      } else {
        i := i + 1;
        continue;
      }
      rows := rows + [Row(period, ev)];
      i := i + 1;
    }
    assert order[..|order|] == order;
  }
}
