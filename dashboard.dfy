/**
 * The multi-country dashboard: country names, the chart series built from the
 * pivot (one aligned series per selected country), the rows of the CSV export,
 * and the two pieces of page state (`currentPivot`, `currentSelectedCodes`)
 * that "Update chart" sets and "Download CSV" reads.
 */
module Dashboard {
  import opened Wrappers
  import opened LexOrder
  import opened Records
  import opened Extract
  import opened Pivot
  import opened Csv

  /** An entry of `COUNTRY_OPTIONS`. */
  datatype CountryOption = CountryOption(code: string, name: string)

  const CountryOptions: seq<CountryOption> := [
    CountryOption("global", "Global"),
    CountryOption("US", "United States"),
    CountryOption("CN", "China"),
    CountryOption("EU", "European Union"),
    CountryOption("DE", "Germany"),
    CountryOption("NO", "Norway"),
    CountryOption("FR", "France"),
    CountryOption("UK", "United Kingdom")
  ]

  /**
   * `options.find((c) => c.code === code)`, then its name, or the code itself
   * when no entry has the code.
   */
  function NameIn(options: seq<CountryOption>, code: string): string {
    if options == [] then code
    else if options[0].code == code then options[0].name
    else NameIn(options[1..], code)
  }

  /**
   * The name is that of the first entry with the code, and the code itself when
   * no entry has it.
   */
  lemma {:induction false} NameInFinds(options: seq<CountryOption>, code: string)
    ensures (forall i :: 0 <= i < |options| ==> options[i].code != code) ==> NameIn(options, code) == code
    ensures forall i :: (0 <= i < |options| && options[i].code == code
                         && forall k :: 0 <= k < i ==> options[k].code != code) ==> NameIn(options, code) == options[i].name
  {
    if options != [] && options[0].code != code {
      NameInFinds(options[1..], code);
      assert forall i :: 1 <= i < |options| ==> options[i] == options[1..][i - 1];
    }
  }

  /** `getCountryName(code)`. */
  function CountryName(code: string): string {
    NameIn(CountryOptions, code)
  }

  // ---------------------------------------------------------------------
  // The chart

  /** `Object.keys(pivot).sort((a, b) => a.localeCompare(b))`. */
  function Periods(pv: PivotTable): (r: seq<string>)
    ensures |r| == |pv.Keys| && StrictlyAscending(r)
    ensures forall p :: p in r <==> p in pv
  {
    SortedKeys(pv.Keys)
  }

  /** One chart dataset (`label` in the source): its legend and one point per period, `null` for a gap. */
  datatype Series = Series(legend: string, data: seq<Option<int>>)

  /** `periods.map((p) => pivot[p][code] != null ? pivot[p][code] : null)`. */
  function Points(pv: PivotTable, periods: seq<string>, code: string): (r: seq<Option<int>>)
    ensures |r| == |periods|
  {
    seq(|periods|, k requires 0 <= k < |periods| => Cell(pv, periods[k], code))
  }

  /** `datasetsForChart`: one series per selected code, in selection order. */
  function ChartSeries(pv: PivotTable, codes: seq<string>): (r: seq<Series>)
    ensures |r| == |codes|
  {
    seq(|codes|, i requires 0 <= i < |codes| => Series(CountryName(codes[i]), Points(pv, Periods(pv), codes[i])))
  }

  /**
   * The chart over loaded datasets with distinct codes: series `i` is country
   * `i`, aligned with the periods, and its point for a period is that country's
   * figure for it, or a gap when the country has no row for the period.
   */
  lemma SeriesAlign(ds: seq<Dataset>, i: nat, k: nat)
    requires DistinctCodes(ds) && i < |ds|
    requires forall a, b :: 0 <= a < b < |ds[i].data| ==> ds[i].data[a].period != ds[i].data[b].period
    requires k < |Periods(PivotOf(ds))|
    ensures var codes := seq(|ds|, j requires 0 <= j < |ds| => ds[j].code);
            var pts := ChartSeries(PivotOf(ds), codes)[i].data;
            |pts| == |Periods(PivotOf(ds))|
            && (forall v :: pts[k] == Some(v) <==> Row(Periods(PivotOf(ds))[k], v) in ds[i].data)
  {
    var p := Periods(PivotOf(ds))[k];
    PivotCell(ds, p, ds[i].code);
    LastOfDistinct(ds, i, p);
    LastInFound(ds[i].data, p);
    forall v ensures LastIn(ds[i].data, p) == Some(v) <==> Row(p, v) in ds[i].data {
      if Row(p, v) in ds[i].data {
        var j :| 0 <= j < |ds[i].data| && ds[i].data[j] == Row(p, v);
        LastInDistinct(ds[i].data, j);
      }
    }
  }

  // ---------------------------------------------------------------------
  // The CSV export

  /** `["period", ...codes.map(getCountryName)]`, with the names looked up in `options`. */
  function HeaderIn(options: seq<CountryOption>, codes: seq<string>): (r: seq<string>)
    ensures |r| == 1 + |codes| && r[0] == "period"
  {
    ["period"] + seq(|codes|, j requires 0 <= j < |codes| => NameIn(options, codes[j]))
  }

  /** The header line of the export. */
  function Header(codes: seq<string>): (r: seq<string>)
    ensures |r| == 1 + |codes| && r[0] == "period"
  {
    HeaderIn(CountryOptions, codes)
  }

  /** `val != null ? String(val) : ""`. */
  function CellText(pv: PivotTable, period: string, code: string): string {
    match Cell(pv, period, code)
    case None => ""
    case Some(v) => NumberToString(v)
  }

  /** The CSV line for one period: the period, then one cell per code. */
  function DataRow(pv: PivotTable, period: string, codes: seq<string>): (r: seq<string>)
    ensures |r| == 1 + |codes| && r[0] == period
  {
    [period] + seq(|codes|, j requires 0 <= j < |codes| => CellText(pv, period, codes[j]))
  }

  /** One CSV line per period, in the order given. */
  function Lines(pv: PivotTable, periods: seq<string>, codes: seq<string>): (lines: seq<seq<string>>)
    ensures |lines| == |periods|
  {
    seq(|periods|, i requires 0 <= i < |periods| => DataRow(pv, periods[i], codes))
  }

  /** The table `handleDownloadCSV` writes: the header, then one line per sorted period. */
  function CsvTable(pv: PivotTable, codes: seq<string>): (rows: seq<seq<string>>)
    ensures |rows| == 1 + |pv.Keys|
  {
    [Header(codes)] + Lines(pv, Periods(pv), codes)
  }

  /**
   * The shape of the export: every line has `1 + |codes|` cells, line `i + 1`
   * is the `i`-th period in order, an absent cell is written as `""` and a
   * present one as the digits of its figure, which read back as that figure.
   */
  lemma CsvShape(pv: PivotTable, codes: seq<string>, i: nat, j: nat)
    requires i < |pv.Keys| && j < |codes|
    ensures var rows := CsvTable(pv, codes);
            var cell := rows[i + 1][j + 1];
            |rows[0]| == 1 + |codes| && rows[0][0] == "period"
            && |rows[i + 1]| == 1 + |codes| && rows[i + 1][0] == Periods(pv)[i]
            && (cell == "" <==> Cell(pv, Periods(pv)[i], codes[j]).None?)
            && (Cell(pv, Periods(pv)[i], codes[j]).Some? ==> ParseNumber(cell) == Cell(pv, Periods(pv)[i], codes[j]).value)
  {
    var periods := Periods(pv);
    var rows := CsvTable(pv, codes);
    assert rows[0] == Header(codes);
    assert rows[i + 1] == Lines(pv, periods, codes)[i] == DataRow(pv, periods[i], codes);
    CellShape(pv, periods[i], codes, j);
  }

  /** A cell of a line: `""` exactly when the pivot has no figure, and otherwise digits that read back as it. */
  lemma CellShape(pv: PivotTable, period: string, codes: seq<string>, j: nat)
    requires j < |codes|
    ensures var cell := DataRow(pv, period, codes)[j + 1];
            && (cell == "" <==> Cell(pv, period, codes[j]).None?)
            && (Cell(pv, period, codes[j]).Some? ==> ParseNumber(cell) == Cell(pv, period, codes[j]).value)
  {
    var c := Cell(pv, period, codes[j]);
    assert DataRow(pv, period, codes)[j + 1] == CellText(pv, period, codes[j]);
    if c.Some? {
      NumberRoundTrip(c.value);
    }
  }

  /** The downloaded text reads back, line by line and cell by cell, into the table. */
  lemma CsvReadsBack(pv: PivotTable, codes: seq<string>)
    ensures ReadDocument(CsvDocument(CsvTable(pv, codes))) == CsvTable(pv, codes)
  {
    DocumentRoundTrip(CsvTable(pv, codes));
  }

  /** The header line, `["period", ...currentSelectedCodes.map(getCountryName)]`. */
  method HeaderRow(codes: seq<string>) returns (header: seq<string>)
    ensures header == Header(codes)
  {
    header := HeaderRowIn(CountryOptions, codes);
  }

  /** The `map` over the codes that builds the header, one name at a time. */
  method HeaderRowIn(options: seq<CountryOption>, codes: seq<string>) returns (header: seq<string>)
    ensures header == HeaderIn(options, codes)
  {
    header := ["period"];
    var j := 0;
    while j < |codes|
      invariant j <= |codes| && |header| == 1 + j && header[0] == "period"
      invariant forall k :: 0 <= k < j ==> header[k + 1] == NameIn(options, codes[k])
    {
      header := header + [NameIn(options, codes[j])];
      j := j + 1;
    }
  }

  /** The inner `currentSelectedCodes.forEach` that pushes one cell per code. */
  method DataLine(pv: PivotTable, period: string, codes: seq<string>) returns (row: seq<string>)
    ensures row == DataRow(pv, period, codes)
  {
    row := [period];
    var j := 0;
    while j < |codes|
      invariant j <= |codes| && |row| == 1 + j && row[0] == period
      invariant forall k :: 0 <= k < j ==> row[k + 1] == CellText(pv, period, codes[k])
    {
      var val := Cell(pv, period, codes[j]);
      var text := if val.Some? then NumberToString(val.value) else "";
      assert text == CellText(pv, period, codes[j]);
      row := row + [text];
      j := j + 1;
    }
    DataRowOf(pv, period, codes, row);
  }

  /** A line with the period first and then each country's cell text is the data row. */
  lemma DataRowOf(pv: PivotTable, period: string, codes: seq<string>, row: seq<string>)
    requires |row| == 1 + |codes| && row[0] == period
    requires forall k :: 0 <= k < |codes| ==> row[k + 1] == CellText(pv, period, codes[k])
    ensures row == DataRow(pv, period, codes)
  {
  }

  /** The nested loops of `handleDownloadCSV` that push the header and every line. */
  method CsvRows(pv: PivotTable, codes: seq<string>) returns (rows: seq<seq<string>>)
    ensures rows == CsvTable(pv, codes)
  {
    var header := HeaderRow(codes);
    var lines := DataLines(pv, Periods(pv), codes);
    rows := [header] + lines;
  }

  /** `periods.forEach` pushing one line per period. */
  method DataLines(pv: PivotTable, periods: seq<string>, codes: seq<string>) returns (lines: seq<seq<string>>)
    ensures lines == Lines(pv, periods, codes)
  {
    lines := [];
    var i := 0;
    while i < |periods|
      invariant i <= |periods| && |lines| == i
      invariant forall k :: 0 <= k < i ==> lines[k] == DataRow(pv, periods[k], codes)
    {
      var row := DataLine(pv, periods[i], codes);
      lines := lines + [row];
      i := i + 1;
    }
  }

  // ---------------------------------------------------------------------
  // Loading and page state

  /** Every selected country's file downloads. */
  predicate AllFetched(selected: seq<string>, fetch: string -> Option<string>) {
    forall i :: 0 <= i < |selected| ==> fetch(DataUrl(selected[i])).Some?
  }

  /** One country's `{ code, data }` entry, when its file downloads. */
  function Entry(code: string, fetch: string -> Option<string>, parse: string -> Option<Body>): Dataset
    requires fetch(DataUrl(code)).Some?
  {
    Dataset(code, CountryRows(fetch(DataUrl(code)).value, code, parse))
  }

  /** The `{ code, data }` list that `Promise.all` resolves to when every download succeeds. */
  function Datasets(selected: seq<string>, fetch: string -> Option<string>, parse: string -> Option<Body>): (ds: seq<Dataset>)
    requires AllFetched(selected, fetch)
    ensures |ds| == |selected|
  {
    seq(|selected|, i requires 0 <= i < |selected| => Entry(selected[i], fetch, parse))
  }

  /**
   * `Promise.all(selectedCodes.map(...))`, taken one download after another:
   * nothing as soon as a download fails, and otherwise the `{ code, data }`
   * list in the order of the selection.
   */
  function Loads(selected: seq<string>, fetch: string -> Option<string>, parse: string -> Option<Body>): Option<seq<Dataset>>
  {
    if selected == [] then Some([])
    else match Loads(selected[..|selected| - 1], fetch, parse)
      case None => None
      case Some(ds) =>
        var code := selected[|selected| - 1];
        if fetch(DataUrl(code)).None? then None else Some(ds + [Entry(code, fetch, parse)])
  }

  /** The resolved list of a longer selection is that of its prefix and one more entry. */
  lemma DatasetsSnoc(selected: seq<string>, pre: seq<string>, code: string,
                     fetch: string -> Option<string>, parse: string -> Option<Body>)
    requires selected == pre + [code] && AllFetched(selected, fetch)
    ensures AllFetched(pre, fetch) && fetch(DataUrl(code)).Some?
    ensures Datasets(selected, fetch, parse) == Datasets(pre, fetch, parse) + [Entry(code, fetch, parse)]
  {
    assert forall i :: 0 <= i < |pre| ==> pre[i] == selected[i];
    assert selected[|pre|] == code;
  }

  /** A selection whose prefix downloads but whose last file does not is not all fetched. */
  lemma NotAllFetched(selected: seq<string>, pre: seq<string>, code: string, fetch: string -> Option<string>)
    requires selected == pre + [code]
    ensures AllFetched(selected, fetch) <==> AllFetched(pre, fetch) && fetch(DataUrl(code)).Some?
  {
    assert forall i :: 0 <= i < |pre| ==> pre[i] == selected[i];
    assert selected[|pre|] == code;
  }

  /** The load succeeds exactly when every download does, and then gives the resolved list. */
  lemma {:induction false} LoadsAllFetched(selected: seq<string>, fetch: string -> Option<string>, parse: string -> Option<Body>)
    ensures Loads(selected, fetch, parse).Some? <==> AllFetched(selected, fetch)
    ensures AllFetched(selected, fetch) ==> Loads(selected, fetch, parse) == Some(Datasets(selected, fetch, parse))
  {
    if selected != [] {
      var pre := selected[..|selected| - 1];
      var code := selected[|selected| - 1];
      assert selected == pre + [code];
      LoadsAllFetched(pre, fetch, parse);
      NotAllFetched(selected, pre, code, fetch);
      if AllFetched(selected, fetch) {
        DatasetsSnoc(selected, pre, code, fetch, parse);
      }
    }
  }

  /** One more download: the load of the longer prefix. */
  lemma LoadsNext(selected: seq<string>, i: nat, fetch: string -> Option<string>, parse: string -> Option<Body>,
                  ds: seq<Dataset>, d: Option<Dataset>)
    requires i < |selected| && Loads(selected[..i], fetch, parse) == Some(ds)
    requires fetch(DataUrl(selected[i])).None? ==> d.None?
    requires fetch(DataUrl(selected[i])).Some? ==> d == Some(Entry(selected[i], fetch, parse))
    ensures d.None? ==> Loads(selected[..i + 1], fetch, parse) == None
    ensures d.Some? ==> Loads(selected[..i + 1], fetch, parse) == Some(ds + [d.value])
  {
    assert selected[..i + 1][..i] == selected[..i];
  }

  /** A failed download fails the load of every longer prefix. */
  lemma {:induction false} LoadsNone(selected: seq<string>, i: nat, fetch: string -> Option<string>, parse: string -> Option<Body>)
    requires i <= |selected| && Loads(selected[..i], fetch, parse).None?
    ensures Loads(selected, fetch, parse).None?
    decreases |selected| - i
  {
    if i < |selected| {
      assert selected[..i + 1][..i] == selected[..i];
      LoadsNone(selected, i + 1, fetch, parse);
    } else {
      assert selected[..i] == selected;
    }
  }

  /** `fetchCountryEvData(code).then(data => ({ code, data }))`. */
  method FetchDataset(code: string, fetch: string -> Option<string>, parse: string -> Option<Body>)
    returns (d: Option<Dataset>)
    ensures fetch(DataUrl(code)).None? ==> d.None?
    ensures fetch(DataUrl(code)).Some? ==> d == Some(Entry(code, fetch, parse))
  {
    var data := FetchCountryEvData(code, fetch, parse);
    if data.None? {
      return None;
    }
    return Some(Dataset(code, data.value));
  }

  /** The downloads of the selection, one after another, stopping at the first failure. */
  method LoadAll(selected: seq<string>, fetch: string -> Option<string>, parse: string -> Option<Body>)
    returns (loaded: Option<seq<Dataset>>)
    ensures loaded == Loads(selected, fetch, parse)
  {
    var datasets: seq<Dataset> := [];
    var i := 0;
    while i < |selected|
      invariant i <= |selected| && Loads(selected[..i], fetch, parse) == Some(datasets)
    {
      var d := FetchDataset(selected[i], fetch, parse);
      LoadsNext(selected, i, fetch, parse, datasets, d);
      if d.None? {
        LoadsNone(selected, i + 1, fetch, parse);
        return None;
      }
      datasets := datasets + [d.value];
      i := i + 1;
    }
    assert selected[..i] == selected;
    return Some(datasets);
  }

  /** What "Update chart" ends with: nothing selected, a failed load, or the chart. */
  datatype UpdateOutcome = NoSelection | LoadFailed | Loaded(periods: seq<string>, series: seq<Series>)

  class Page {
    var currentPivot: Option<PivotTable>
    var currentSelectedCodes: seq<string>

    constructor()
      ensures currentPivot == None && currentSelectedCodes == []
    {
      currentPivot := None;
      currentSelectedCodes := [];
    }

    /**
     * `handleUpdateChart`: the selection is recorded first; a load in which any
     * download fails leaves the previous pivot in place.
     */
    method UpdateChart(selected: seq<string>, fetch: string -> Option<string>, parse: string -> Option<Body>)
      returns (outcome: UpdateOutcome)
      modifies this
      ensures currentSelectedCodes == selected
      ensures selected == [] ==> outcome == NoSelection && currentPivot == old(currentPivot)
      ensures selected != [] && !AllFetched(selected, fetch) ==> outcome == LoadFailed && currentPivot == old(currentPivot)
      ensures selected != [] && AllFetched(selected, fetch) ==>
                var pv := PivotOf(Datasets(selected, fetch, parse));
                currentPivot == Some(pv) && outcome == Loaded(Periods(pv), ChartSeries(pv, selected))
    {
      currentSelectedCodes := selected;
      if selected == [] {
        return NoSelection;
      }
      var loaded := LoadAll(selected, fetch, parse);
      LoadsAllFetched(selected, fetch, parse);
      if loaded.None? {
        return LoadFailed;
      }
      var datasets := loaded.value;
      var pivot := BuildPivot(datasets);
      currentPivot := Some(pivot);
      return Loaded(Periods(pivot), ChartSeries(pivot, selected));
    }

    /** `handleDownloadCSV`: refused without a pivot or without a selection. */
    method DownloadCsv() returns (csv: Option<string>)
      ensures currentPivot.None? || currentSelectedCodes == [] ==> csv.None?
      ensures currentPivot.Some? && currentSelectedCodes != [] ==>
                csv == Some(CsvDocument(CsvTable(currentPivot.value, currentSelectedCodes)))
    {
      if currentPivot.None? || currentSelectedCodes == [] {
        return None;
      }
      var rows := CsvRows(currentPivot.value, currentSelectedCodes);
      return Some(CsvDocument(rows));
    }
  }
}
