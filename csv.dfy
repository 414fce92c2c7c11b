/**
 * CSV output of the current view: `csvEscape`, the joining of fields with `,`
 * and of rows with a newline, and `String(val)` for a sales figure. A reader
 * for the same format (quoted fields with doubled quotes, in the manner of
 * RFC 4180 section 2, rules 6 and 7) is the partner that every output
 * document is proved to read back into its table.
 */
module Csv {
  import opened Wrappers

  /** The characters that force a field into quotes: `/[",\n]/`. */
  predicate IsSpecial(c: char) {
    c == '"' || c == ',' || c == '\n'
  }

  predicate NeedsQuoting(v: string) {
    exists i :: 0 <= i < |v| && IsSpecial(v[i])
  }

  /** One character of `v.replace(/"/g, '""')`. */
  function QuoteOf(c: char): string {
    if c == '"' then "\"\"" else [c]
  }

  /** `v.replace(/"/g, '""')`. */
  function DoubleQuotes(v: string): (r: string)
    ensures |r| >= |v|
  {
    if v == [] then [] else QuoteOf(v[0]) + DoubleQuotes(v[1..])
  }

  /** `csvEscape(value)`: `null` gives the empty field. */
  function CsvEscape(value: Option<string>): (r: string)
    ensures value.None? ==> r == ""
    ensures value.Some? && !NeedsQuoting(value.value) ==> r == value.value
    ensures value.Some? && NeedsQuoting(value.value) ==> |r| >= 2 && r[0] == '"' && r[|r| - 1] == '"'
  {
    if value.None? then ""
    else if NeedsQuoting(value.value) then "\"" + DoubleQuotes(value.value) + "\""
    else value.value
  }

  /** `r.map(csvEscape).join(",")` for one row of string fields. */
  function JoinFields(fields: seq<string>): string {
    if fields == [] then ""
    else if |fields| == 1 then CsvEscape(Some(fields[0]))
    else CsvEscape(Some(fields[0])) + "," + JoinFields(fields[1..])
  }

  /** `rows.map(...).join("\n")`. */
  function CsvDocument(rows: seq<seq<string>>): string {
    if rows == [] then ""
    else if |rows| == 1 then JoinFields(rows[0])
    else JoinFields(rows[0]) + "\n" + CsvDocument(rows[1..])
  }

  // ---------------------------------------------------------------------
  // Reading the format back

  /** The text up to the next `,` or newline of an unquoted field, and what follows. */
  function ReadPlain(s: string): (r: (string, string))
    ensures |r.1| <= |s|
  {
    if s == [] || s[0] == ',' || s[0] == '\n' then ([], s)
    else var (f, rest) := ReadPlain(s[1..]); ([s[0]] + f, rest)
  }

  /** The inside of a quoted field, with `""` read as one quote, up to the closing quote. */
  function ReadQuoted(s: string): (r: (string, string))
    ensures |r.1| <= |s|
  {
    if s == [] then ([], [])
    else if s[0] == '"' then
      if |s| > 1 && s[1] == '"' then var (f, rest) := ReadQuoted(s[2..]); (['"'] + f, rest)
      else ([], s[1..])
    else var (f, rest) := ReadQuoted(s[1..]); ([s[0]] + f, rest)
  }

  function ReadField(s: string): (r: (string, string))
    ensures |r.1| <= |s|
  {
    if s != [] && s[0] == '"' then ReadQuoted(s[1..]) else ReadPlain(s)
  }

  /** The fields of one line, and the text from the line's end on. */
  function ReadRow(s: string): (r: (seq<string>, string))
    ensures |r.1| <= |s|
    decreases |s|
  {
    var (f, rest) := ReadField(s);
    if rest != [] && rest[0] == ',' then
      var (fs, rest2) := ReadRow(rest[1..]);
      ([f] + fs, rest2)
    else ([f], rest)
  }

  /** The rows of a document. */
  function ReadDocument(s: string): seq<seq<string>>
    decreases |s|
  {
    var (fs, rest) := ReadRow(s);
    if rest != [] && rest[0] == '\n' then [fs] + ReadDocument(rest[1..]) else [fs]
  }

  /** What may follow a field: the end, a comma or a newline. */
  predicate FieldEnd(rest: string) {
    rest == [] || rest[0] == ',' || rest[0] == '\n'
  }

  lemma {:induction false} ReadPlainBack(v: string, rest: string)
    requires !NeedsQuoting(v) && FieldEnd(rest)
    ensures ReadPlain(v + rest) == (v, rest)
  {
    if v != [] {
      assert !IsSpecial(v[0]);
      assert !NeedsQuoting(v[1..]) by {
        forall i | 0 <= i < |v[1..]| ensures !IsSpecial(v[1..][i]) {
          assert v[1..][i] == v[i + 1];
        }
      }
      ReadPlainBack(v[1..], rest);
      assert (v + rest)[0] == v[0];
      assert (v + rest)[1..] == v[1..] + rest;
      assert [v[0]] + v[1..] == v;
    } else {
      assert v + rest == rest;
    }
  }

  /** Reading one written character of a quoted field. */
  lemma ReadQuotedStep(c: char, t: string)
    ensures ReadQuoted(QuoteOf(c) + t) == ([c] + ReadQuoted(t).0, ReadQuoted(t).1)
  {
    if c == '"' {
      assert ("\"\"" + t)[2..] == t;
    } else {
      assert ([c] + t)[1..] == t;
    }
  }

  /** The closing quote ends a quoted field. */
  lemma ReadQuotedClose(rest: string)
    requires rest == [] || rest[0] != '"'
    ensures ReadQuoted("\"" + rest) == ([], rest)
  {
    assert ("\"" + rest)[1..] == rest;
  }

  lemma DoubleQuotesCons(v: string, t: string)
    requires v != []
    ensures DoubleQuotes(v) + t == QuoteOf(v[0]) + (DoubleQuotes(v[1..]) + t)
  {
  }

  lemma {:induction false} ReadQuotedBack(v: string, rest: string)
    requires rest == [] || rest[0] != '"'
    ensures ReadQuoted(DoubleQuotes(v) + ("\"" + rest)) == (v, rest)
  {
    if v == [] {
      assert DoubleQuotes(v) + ("\"" + rest) == "\"" + rest;
      ReadQuotedClose(rest);
    } else {
      ReadQuotedBack(v[1..], rest);
      DoubleQuotesCons(v, "\"" + rest);
      ReadQuotedStep(v[0], DoubleQuotes(v[1..]) + ("\"" + rest));
      assert [v[0]] + v[1..] == v;
    }
  }

  /** A field that opens with a quote is read as a quoted field. */
  lemma ReadFieldQuoted(x: string)
    ensures ReadField("\"" + x) == ReadQuoted(x)
  {
    assert ("\"" + x)[1..] == x;
  }

  lemma QuotedAssoc(d: string, rest: string)
    ensures ("\"" + d + "\"") + rest == "\"" + (d + ("\"" + rest))
  {
  }

  /** A field that needs no quotes reads back as it is. */
  lemma ReadFieldPlain(v: string, rest: string)
    requires !NeedsQuoting(v) && FieldEnd(rest)
    ensures ReadField(v + rest) == (v, rest)
  {
    ReadPlainBack(v, rest);
    if v != [] {
      assert !IsSpecial(v[0]);
      assert (v + rest)[0] == v[0];
    } else {
      assert v + rest == rest;
    }
  }

  /** Reading an escaped field gives back the original text and stops at the separator. */
  lemma FieldRoundTrip(v: string, rest: string)
    requires FieldEnd(rest)
    ensures ReadField(CsvEscape(Some(v)) + rest) == (v, rest)
  {
    if NeedsQuoting(v) {
      QuotedAssoc(DoubleQuotes(v), rest);
      ReadFieldQuoted(DoubleQuotes(v) + ("\"" + rest));
      ReadQuotedBack(v, rest);
    } else {
      ReadFieldPlain(v, rest);
    }
  }

  /** Un-escaping recovers the original field. */
  lemma EscapeRoundTrip(v: string)
    ensures ReadField(CsvEscape(Some(v))).0 == v
  {
    FieldRoundTrip(v, "");
    assert CsvEscape(Some(v)) + "" == CsvEscape(Some(v));
  }

  /** What may follow a line: the end or a newline. */
  predicate LineEnd(rest: string) {
    rest == [] || rest[0] == '\n'
  }

  /** One step of `ReadRow`: a field followed by a comma, and the rest of the line. */
  lemma ReadRowMore(s: string, f: string, tail: string, fs: seq<string>, rest: string)
    requires ReadField(s) == (f, "," + tail)
    requires ReadRow(tail) == (fs, rest)
    ensures ReadRow(s) == ([f] + fs, rest)
  {
    assert ("," + tail)[1..] == tail;
  }

  /** `JoinFields` of two or more fields: the first, a comma, and the join of the rest. */
  lemma JoinFieldsMore(fields: seq<string>, rest: string)
    requires |fields| > 1
    ensures JoinFields(fields) + rest == CsvEscape(Some(fields[0])) + ("," + (JoinFields(fields[1..]) + rest))
  {
  }

  lemma {:induction false} RowRoundTrip(fields: seq<string>, rest: string)
    requires fields != [] && LineEnd(rest)
    ensures ReadRow(JoinFields(fields) + rest) == (fields, rest)
  {
    if |fields| == 1 {
      FieldRoundTrip(fields[0], rest);
      assert [fields[0]] == fields;
    } else {
      var tail := JoinFields(fields[1..]) + rest;
      RowRoundTrip(fields[1..], rest);
      JoinFieldsMore(fields, rest);
      RowRoundTripStep(fields[0], fields[1..], tail, rest);
      assert [fields[0]] + fields[1..] == fields;
    }
  }

  /** A first field and a comma in front of a line that reads back make a line that reads back. */
  lemma RowRoundTripStep(f: string, fs: seq<string>, tail: string, rest: string)
    requires ReadRow(tail) == (fs, rest)
    ensures ReadRow(CsvEscape(Some(f)) + ("," + tail)) == ([f] + fs, rest)
  {
    FieldRoundTrip(f, "," + tail);
    ReadRowMore(CsvEscape(Some(f)) + ("," + tail), f, tail, fs, rest);
  }

  /** One step of `ReadDocument`: a line followed by a newline, and the rest of the document. */
  lemma ReadDocumentMore(s: string, fs: seq<string>, tail: string)
    requires ReadRow(s) == (fs, "\n" + tail)
    ensures ReadDocument(s) == [fs] + ReadDocument(tail)
  {
    assert ("\n" + tail)[1..] == tail;
  }

  /** `CsvDocument` of two or more rows: the first line, a newline, and the rest. */
  lemma CsvDocumentMore(rows: seq<seq<string>>)
    requires |rows| > 1
    ensures CsvDocument(rows) == JoinFields(rows[0]) + ("\n" + CsvDocument(rows[1..]))
  {
  }

  /** Every document of non-empty rows reads back into its rows. */
  lemma {:induction false} DocumentRoundTrip(rows: seq<seq<string>>)
    requires rows != []
    requires forall i :: 0 <= i < |rows| ==> rows[i] != []
    ensures ReadDocument(CsvDocument(rows)) == rows
  {
    if |rows| == 1 {
      RowRoundTrip(rows[0], "");
      assert JoinFields(rows[0]) + "" == JoinFields(rows[0]);
    } else {
      DocumentRoundTrip(rows[1..]);
      CsvDocumentMore(rows);
      DocumentRoundTripStep(rows[0], CsvDocument(rows[1..]));
      assert [rows[0]] + rows[1..] == rows;
    }
  }

  /** A line of non-empty fields and a newline in front of a document. */
  lemma DocumentRoundTripStep(fields: seq<string>, tail: string)
    requires fields != []
    ensures ReadDocument(JoinFields(fields) + ("\n" + tail)) == [fields] + ReadDocument(tail)
  {
    RowRoundTrip(fields, "\n" + tail);
    ReadDocumentMore(JoinFields(fields) + ("\n" + tail), fields, tail);
  }

  // ---------------------------------------------------------------------
  // `String(val)` for a whole-number sales figure

  function DigitChar(d: nat): char
    requires d < 10
  {
    "0123456789"[d]
  }

  /** Decimal digits, most significant first, of a natural number. */
  function NatToString(n: nat): (r: string)
    ensures r != []
    ensures forall i :: 0 <= i < |r| ==> '0' <= r[i] <= '9'
    decreases n
  {
    if n < 10 then [DigitChar(n)] else NatToString(n / 10) + [DigitChar(n % 10)]
  }

  /** `String(val)`: the decimal digits, with a leading `-` for a negative figure. */
  function NumberToString(n: int): (r: string)
    ensures r != []
  {
    if n < 0 then "-" + NatToString(-n) else NatToString(n)
  }

  /** The value of a string of decimal digits. */
  function DigitsValue(s: string): int {
    if s == [] then 0 else DigitsValue(s[..|s| - 1]) * 10 + (s[|s| - 1] as int - '0' as int)
  }

  function ParseNumber(s: string): int {
    if s != [] && s[0] == '-' then -DigitsValue(s[1..]) else DigitsValue(s)
  }

  lemma {:induction false} NatRoundTrip(n: nat)
    ensures DigitsValue(NatToString(n)) == n
    decreases n
  {
    if n >= 10 {
      NatRoundTrip(n / 10);
      var s := NatToString(n);
      assert s[..|s| - 1] == NatToString(n / 10);
    }
  }

  /** A figure written by `String(val)` reads back as the same figure. */
  lemma NumberRoundTrip(n: int)
    ensures ParseNumber(NumberToString(n)) == n
  {
    NatRoundTrip(if n < 0 then -n else n);
    if n < 0 {
      assert NumberToString(n)[1..] == NatToString(-n);
    }
  }

  /** A written figure never needs quoting, so it is written into the document as it is. */
  lemma NumberNeedsNoQuotes(n: int)
    ensures !NeedsQuoting(NumberToString(n))
    ensures CsvEscape(Some(NumberToString(n))) == NumberToString(n)
  {
    var r := NumberToString(n);
    forall i | 0 <= i < |r| ensures !IsSpecial(r[i]) {
      if n < 0 && i > 0 {
        assert r[i] == NatToString(-n)[i - 1];
      }
    }
  }
}
