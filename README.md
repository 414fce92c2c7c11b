# EV dashboard extraction and tabulation, modelled in Dafny

The dashboard reads per-country data files that hold JavaScript calls of the form
`db.insert(db.countries.US, "2017-Q1", db.dsTypes.ElectricCarsTotal, "url", { "other": 21415 });`.
It turns each file into one electric-car sales figure per period. It then puts the countries
side by side in a period-by-country pivot, draws one chart series per selected country and exports
the view as CSV. The single-country page sorts one country's rows by period and splits them into
chart labels and values.

This project models that pipeline, piece by piece:

| module | what it models |
|---|---|
| `InsertScan` (insert_scan.dfy) | The `db.insert` regular expression, written out as a deterministic matcher. It covers the `\s*` runs, `[^"]+`, `\w+`, the lazy body up to the first `}\s*)`, and the global `exec` scan that resumes at the end of each match. |
| `InsertCall`, `DataFile` (insert_call.dfy, data_file.dfy) | Calls written in the layout of the data files. They show that such calls are matched exactly, and that a file of such calls yields one match per call, in order. |
| `BodyClean` (body_clean.dfy) | `match[3].trim()`, the braces, and the three `replace` passes: line comments, block comments and trailing commas. |
| `Records` (records.dfy) | `sumNumericValues`, the `dtype` tests, the `periods` object with last-write-wins, and the Total / ByModel / ByBrand precedence that turns the object into rows. |
| `Extract` (extract.dfy) | `fetchCountryEvData` as a method, with the `exec` loop and the rows loop. |
| `Pivot` (pivot.dfy) | `buildPivot`, with its two nested `forEach` loops. |
| `Csv` (csv.dfy) | `csvEscape`, the joining of fields and rows, and `String(val)` for a figure. A reader for the same format is the partner that every exported document reads back through. |
| `Dashboard` (dashboard.dfy) | `getCountryName`, the chart series, and the CSV rows. A `Page` class holds `currentPivot` and `currentSelectedCodes`, which "Update chart" sets and "Download CSV" reads. |
| `SingleCountry` (single_country.dfy) | The single-country page: its in-place sort by period and the `map` projections. |
| `LexOrder`, `JsChars`, `Wrappers` | Support modules: string order, JavaScript character classes and `trim`, and `Option`. |

`app.js` and `script.js` contain the same `fetchCountryEvData` and `sumNumericValues`, so one
definition models both. Both files are cited in the table below.

The download and `JSON.parse` are parameters of the model:
- `fetch: string -> Option<string>` gives a URL's text, or `None` when the response is not ok;
- `parse: string -> Option<Body>` gives an object's entries, or `None` when `JSON.parse` throws.

A parsed value is `Num(n)` or `Other`, which stands in for `typeof v === "number"`.

Two behaviours of the program are worth knowing:
- `JSON.parse` rejects unquoted keys, so a body such as `{ a: 5, }` is skipped even after its
  trailing comma is removed. In the model this is up to `parse`.
- `currentSelectedCodes` is set before the load (app.js:71). A failed load therefore leaves the new
  selection next to the old pivot, and a later CSV export combines the two.
  `Dashboard.Page.UpdateChart` states this.

## Model

| member | source | states |
|---|---|---|
| InsertScan.Matches | app.js:136-148 | The matches of the global scan all lie inside the text and do not overlap. Each one is what the pattern gives at its start. |
| InsertScan.NextMatch | app.js:148 | `pattern.exec` from `lastIndex` returns the leftmost position where the pattern matches. No position before it matches, and `None` means no position matches. |
| InsertScan.MatchesCover | app.js:148 | Every position where the pattern matches lies inside some match of the scan, so no call is missed except one that overlaps an earlier match. |
| InsertScan.CodeIsExact | app.js:137 | A call matched for the word code `a` and for the word code `b` at one position has `a == b`. Because `\s*,` follows the code, `US` does not match a call for `USA`. |
| InsertScan.CodeFollowedBySeparator | script.js:70 | At a match, `db.countries.` and the code are followed by whitespace or a comma, never by another word character. |
| InsertScan.PrefixRun | script.js:70 | A run of the pattern's head fixes where `db.insert(` and `db.countries.<code>` stand and what follows the code. |
| InsertCall.CallMatched | script.js:64-76 | A call written in the data files' layout, wherever it stands in the text, is a match for its code. The match spans exactly the call and captures its period, type and body. |
| InsertCall.PatternRun | script.js:69-76 | The pattern runs over a text holding the parts of a call at their layout positions, and ends just after `})`. |
| InsertCall.CallLayout | script.js:65-66 | A call in a text puts each part and each punctuation mark at a fixed offset. |
| DataFile.CallMatchesGroups | script.js:68 | The expected matches of a file are one per call, and each carries that call's period, type and body. |
| DataFile.MatchesAfter | app.js:148 | Scanning a file of well-formed calls, one per line, gives exactly one match per call, in order. |
| DataFile.FileMatches | app.js:136-148 | The scan of a whole file of well-formed calls gives the expected match of each call, in order. |
| DataFile.FileRows | app.js:128-203 | The rows of such a file are the rows of the matches of its calls. |
| DataFile.SingleTotalCall | script.js:108-109 | A file with one Total call whose body has one number yields one row: the call's period and that number. |
| DataFile.WorkedExample | script.js:64-68 | The file holding `db.insert(db.countries.US, "2017-Q1", db.dsTypes.ElectricCarsTotal, "url", { "other": 21415 });` yields exactly the row `("2017-Q1", 21415)`. |
| BodyClean.StripLineComments | app.js:156 | The result has no `//`. Text without `//` is unchanged. |
| BodyClean.LineCommentRemoved | app.js:156 | A `//` comment is deleted up to the line terminator. The terminator and everything around the comment are kept. |
| BodyClean.LineCommentsKeepLineBreaks | app.js:156 | Line-comment removal keeps every line terminator, in order. |
| BodyClean.CommentClose | app.js:157 | The lazy `[\s\S]*?\*\/` stops at the first `*/` after the opening. |
| BodyClean.StripBlockComments | app.js:157 | Text with no `/*`, or with no `*/`, is unchanged. |
| BodyClean.BlockCommentRemoved | app.js:157 | A `/* … */` comment is deleted entirely, including across lines, and the text around it is kept. |
| BodyClean.StripTrailingCommasDropsExactly | app.js:160 | The single-pass replacement equals a reference that drops each comma followed only by whitespace and `}`. Every other character is kept, in order. |
| BodyClean.DropCommaBeforeBrace | app.js:160 | In the reference, a comma followed by whitespace and `}` is dropped, and the whitespace and the brace are kept. |
| BodyClean.TrailingCommaRemoved | app.js:160 | The replacement deletes the comma before whitespace and `}`, keeps the whitespace and the brace, and leaves the prefix unchanged. |
| BodyClean.CleanCommentFree | app.js:151-160 | A trimmed body `inner, ws` with no slash and no other comma cleans to `{inner ws}`. |
| BodyClean.CleanPlain | app.js:151-160 | A trimmed body with no slash and no comma cleans to that body between braces. |
| BodyClean.TrimAround | app.js:151 | `trim` removes exactly the surrounding whitespace. |
| BodyClean.CleanBodyTrailingCommaExample | app.js:159-160 | The body ` "a": 5, ` cleans to `{"a": 5}`. |
| BodyClean.CleanBodyPlainExample | script.js:65-66 | The body of the worked example cleans to `{"other": 21415}`. |
| Records.SumNumeric | app.js:206-211 | An object without numbers sums to 0, so it is still a record. Non-negative numbers give a non-negative sum. |
| Records.SumNumericAddsOnlyNumbers | script.js:144-149 | The sum is the sum of exactly the numeric values, in order. Other values are ignored. |
| Records.SumNumericAppend | app.js:207-210 | The reduce is additive over concatenation of entries. |
| Records.Classify | app.js:170-180 | A type is recognised exactly when it is one of the three names, and it is recognised as that name. |
| Records.StoreSetsOneCell | app.js:182-185 | Storing sets exactly one cell and overwrites, not adds to, what was there. Every other cell is unchanged. A period enters the key order only when it is new. |
| Records.StoreWellFormed | app.js:182-185 | Storing keeps the table's keys distinct, in step with its cells, and non-empty. |
| Records.AccumulateWellFormed | app.js:145-186 | The table the loop builds is always well-formed. |
| Records.Skipped | app.js:162-168 | A match whose body does not parse, or whose type is not recognised, changes nothing. Leaving it out of the scan gives the same table. |
| Records.LastWriteWins | script.js:117-122 | With several records for one (period, type), the cell holds the value of the last one. |
| Records.NoWriteNoCell | app.js:180 | A (period, type) that no record writes has no cell. |
| Records.CellHasSource | app.js:182-185 | Every cell holds the value of some record written to it. |
| Records.Resolve | app.js:188-203 | The figure comes from the best-ranked type present, Total before ByModel before ByBrand. There is none exactly when no type is present. |
| Records.ZeroTotalWins | app.js:191 | The test is presence, so a Total of 0 still wins. |
| Records.RowsOfEveryKey | app.js:189-201 | When no period is empty, each key yields one row, in key order. |
| Records.RowsAreKeys | app.js:188-203 | The rows are the keys of the `periods` object, one each, in key order. |
| Records.KeyIffStored | app.js:182-185 | A period is a key exactly when some record of a recognised type with a parsable body was stored for it. |
| Records.RowPerPeriod | script.js:126-139 | There is at most one row per period, and a row exists for a period exactly when a record was stored for it. |
| Records.RowFollowsPrecedence | script.js:126-139 | A row's figure is the value of a record of its period, of a type than which no better-ranked type was stored. |
| Records.TotalBeatsByBrand | app.js:188-203 | A Total summing to 150 beats a ByBrand of 999 for the same period, whichever comes first. |
| Extract.FetchCountryEvData | app.js:128-134 | A failed download gives no rows. Otherwise the result is exactly the rows of the data text's matches. |
| Extract.ScanPeriods | app.js:147-186 | The `exec` loop leaves the `periods` object equal to folding one step over the matches, in order. |
| Extract.ScanAccumulates | app.js:148 | Resuming the scan after each match is folding over the sequence of matches. |
| Extract.ProcessMatch | app.js:149-185 | One iteration of the loop: skip on a parse failure or an unknown type, otherwise store the sum. |
| Extract.CollectRows | app.js:188-201 | The rows loop gives the rows of the `periods` object in key order. |
| Pivot.BuildPivot | app.js:213-228 | The nested loops build the pivot that the recursive definition describes. |
| Pivot.PivotCell | app.js:217-225 | A cell holds the last row for its period in the last dataset for its code that has one. |
| Pivot.RowLands | app.js:223 | With distinct codes and distinct periods, every row ends up as its own cell. |
| Pivot.CellHasSource | app.js:217-225 | No cell exists without a row of that code, period and value. |
| Pivot.PivotKeys | app.js:220-222 | The pivot's periods are exactly the union of the datasets' row periods. |
| Pivot.PivotNoEmpty | app.js:220-223 | No period of the pivot has an empty object. |
| Pivot.OrderIndependent | app.js:217 | With distinct codes, the order of the datasets does not change the pivot. |
| Csv.CsvEscape | app.js:396-403 | `null` gives `""`. A field without `"`, `,` or newline is unchanged. Any other field is quoted. |
| Csv.FieldRoundTrip | app.js:396-403 | Reading an escaped field gives back the original text and stops at the next separator. |
| Csv.EscapeRoundTrip | app.js:399-400 | Un-escaping recovers the original field. |
| Csv.ReadQuotedBack | app.js:400 | A field with doubled quotes reads back up to its closing quote. |
| Csv.RowRoundTrip | app.js:383 | A row joined with `,` reads back into its fields. |
| Csv.DocumentRoundTrip | app.js:383 | A document of non-empty rows joined with newlines reads back into its rows. |
| Csv.NumberRoundTrip | app.js:378 | A figure written by `String(val)` reads back as the same figure. |
| Csv.NumberNeedsNoQuotes | app.js:378 | A written figure is never quoted by `csvEscape`. |
| Dashboard.NameInFinds | app.js:354-357 | The name is that of the first entry with the code, or the code itself when no entry has it. |
| Dashboard.Periods | app.js:95 | The chart's periods are the pivot's keys, each once, in ascending order. |
| Dashboard.SeriesAlign | app.js:96-100 | Each country's series has one point per period. A point is a figure exactly when that country has a row with that period and figure, and `null` otherwise. |
| Dashboard.HeaderIn | app.js:370 | The header has `1 + |codes|` cells and starts with `period`. |
| Dashboard.DataRow | app.js:375-380 | A data row has `1 + |codes|` cells and starts with its period. |
| Dashboard.CellShape | app.js:377-378 | A cell is `""` exactly when the pivot has no figure, and otherwise reads back as the figure. |
| Dashboard.CsvShape | app.js:367-381 | The CSV table has a header, then one row per period in ascending order, with cells as above. |
| Dashboard.CsvReadsBack | app.js:383 | The exported document reads back into exactly the CSV table. |
| Dashboard.HeaderRowIn | app.js:370 | Building the header computes the specified header. |
| Dashboard.HeaderRow | app.js:370 | The header of the export uses the dashboard's own country list for the names. |
| Dashboard.Header | app.js:370 | The export's header has `1 + |codes|` cells and starts with `period`. |
| Dashboard.CsvTable | app.js:367-381 | The CSV table has one line more than the pivot has periods. |
| Dashboard.ChartSeries | app.js:96-108 | There is one series per selected code. |
| Dashboard.DataLine | app.js:375-380 | The inner `forEach` builds the specified data row. |
| Dashboard.DataLines | app.js:373-381 | The outer `forEach` builds one specified row per period. |
| Dashboard.CsvRows | app.js:367-381 | The header followed by the data rows. |
| Dashboard.FetchDataset | app.js:84-87 | A failed download gives no dataset. Otherwise the dataset is the code with its rows. |
| Dashboard.LoadAll | app.js:83-88 | Loading all selected countries gives the loads specification: the datasets in selection order, or a failure. |
| Dashboard.LoadsAllFetched | app.js:83-88 | The load succeeds exactly when every selected download succeeds, and then gives every country's dataset in order. |
| Dashboard.Page.UpdateChart | app.js:66-122 | The selection is always recorded. With no selection, or with any failed download, the pivot is unchanged. Otherwise the pivot is rebuilt and the chart gets its periods and one series per selected code. |
| Dashboard.Page.DownloadCsv | app.js:361-383 | No export without a pivot or a selection. Otherwise the document is the CSV table of the current pivot and selection. |
| SingleCountry.SortByPeriod | script.js:36 | After the in-place sort the rows are in ascending period order and are a permutation of the original rows. |
| SingleCountry.InsertRow | script.js:36 | One pass moves a row left past every later period, which extends the sorted prefix and keeps a permutation. |
| SingleCountry.PermutationKeepsDistinct | script.js:36 | A permutation of rows with distinct periods has distinct periods. |
| SingleCountry.LabelsAreSortedPeriods | script.js:36-38 | The labels of the sorted rows are the country's periods in ascending order, each once. |
| SingleCountry.SortedChart | script.js:36-39 | The labels are the sorted periods. `values` has the same length, and each `values[i]` is the figure of the row for `labels[i]`. |
| SingleCountry.LoadCountry | script.js:20-39 | A failed download is an error, and no rows means "No EV data parsed.". Otherwise the chart holds the sorted labels and the matching values. |
| LexOrder.LexLeTotal | script.js:36 | The period order is total. |
| LexOrder.LexLeTransitive | script.js:36 | The period order is transitive. |
| LexOrder.LexLeAntisymmetric | script.js:36 | The period order is antisymmetric. |
| LexOrder.SortedKeys | app.js:95 | Sorting a set of keys gives each key once, in strictly ascending order. |

## Left out

- Network and concurrency: `fetch`, the HTTP status and `Promise.all` are not modelled.
  - A download is the parameter `fetch`.
  - The parallel load is modelled as downloads in selection order. A rejected download fails the whole load, as `Promise.all` does.
  - Which download fails first is not observable in the model.
- The JSON grammar: `JSON.parse` is the parameter `parse`. Key order among integer-like keys, duplicate keys and nested objects are whatever `parse` returns.
- The regular-expression engine in general: the one pattern is written out as a deterministic matcher.
  - The country code is inserted unescaped into the pattern. The model treats it as a literal word. A code that holds regular-expression syntax is not modelled.
  - `DataFile` proves the scan only for files in the data files' canonical layout: one call per line, single spaces, bodies without `}`.
- JavaScript numbers are floating point. The model uses unbounded integers, so rounding and overflow of large sums are not modelled.
- `toLocaleString` and the table rendering (`updateTable`) are presentation only.
- JavaScript object key order, which puts integer-like keys such as `"2020"` before other keys, is not modelled. Keys are kept in insertion order.
  - Periods are sorted before they are shown or exported, so only the order of the unsorted `rows` is affected.
  - Periods named like `Object.prototype` members (`"constructor"`, …) are not modelled.
- `localeCompare` is modelled as code-point order on characters, not as locale collation.
- Strings are sequences of Unicode scalar values, not of UTF-16 code units. Lengths, positions and the
  order of characters above U+FFFF therefore differ from JavaScript's for text outside the Basic
  Multilingual Plane.
- The DOM: checkboxes, status text, the button state and Chart.js configuration are not modelled.
- Browser APIs: the Blob, object-URL and anchor-click download, and the PNG export, are not modelled.
- Csv.CsvEscape: a non-string `value` goes through `String(value)`. The model takes strings only.
  - The export only ever passes strings, because figures are converted by `String(val)` first.
  - `csvEscape(null)` is unreachable from the export, since absent cells are already `""`.
- Csv.DocumentRoundTrip: the reader splits lines on `\n` only, as the export writes them. A CRLF document is not modelled.
