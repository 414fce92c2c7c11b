/**
 * A data file as the repository writes it: one `db.insert(...)` call per
 * line, each closed by `;` and a newline. Scanning such a file for the
 * country's code visits exactly its calls, in file order.
 */
module DataFile {
  import opened Wrappers
  import opened JsChars
  import opened InsertScan
  import opened InsertCall
  import opened BodyClean
  import opened Records
  import opened Extract

  /** The parts of one call: period, type name, description and object body. */
  datatype CallParts = CallParts(period: string, dtype: string, descr: string, body: string)

  /** One line of the file: the call, `;` and a newline. */
  function Line(cc: string, c: CallParts): string {
    Call(cc, c.period, c.dtype, c.descr, c.body) + ";\n"
  }

  /** The text of a file holding the calls in order, one per line. */
  function Render(cc: string, calls: seq<CallParts>): string {
    if calls == [] then "" else Line(cc, calls[0]) + Render(cc, calls[1..])
  }

  predicate WellFormedFile(cc: string, calls: seq<CallParts>) {
    forall k :: 0 <= k < |calls| ==> WellFormedParts(cc, calls[k].period, calls[k].dtype, calls[k].descr, calls[k].body)
  }

  /**
   * The match each call should give when the calls are written from position
   * `base` on: the span of the call (without `;` and the newline) and its
   * three groups.
   */
  function CallMatches(cc: string, calls: seq<CallParts>, base: nat): seq<Match> {
    if calls == [] then []
    else
      var c := calls[0];
      [Match(base, base + |Call(cc, c.period, c.dtype, c.descr, c.body)|, c.period, c.dtype, c.body)]
      + CallMatches(cc, calls[1..], base + |Line(cc, c)|)
  }

  /** No match starts at a character other than the `d` of `db.insert(`. */
  lemma NoMatchAt(t: string, cc: string, i: nat)
    requires i < |t| && t[i] != 'd'
    ensures MatchAt(t, cc, i).None?
  {
    var x := "db.insert(";
    var rest := Pattern(cc)[1..];
    assert Pattern(cc) == [Literal(x)] + rest;
    AtFirst(t, i, x);
    assert ([Literal(x)] + rest)[0] == Literal(x);
  }

  lemma AtFirst(t: string, i: nat, x: string)
    requires x != []
    ensures At(t, i, x) ==> t[i] == x[0]
  {
    if At(t, i, x) {
      assert t[i..i + |x|][0] == x[0];
    }
  }

  /** The scan passes over a character that cannot start a match. */
  lemma SkipChar(t: string, cc: string, i: nat, j: nat)
    requires i < |t| && t[i] != 'd' && j == i + 1
    ensures Matches(t, cc, i) == Matches(t, cc, j)
  {
    NoMatchAt(t, cc, i);
    MatchesStep(t, cc, i);
    MatchesStep(t, cc, j);
  }

  /** The text after `pre`: the first call, `;`, a newline and the remaining lines. */
  lemma FirstLine(pre: string, call: string, rest: string, t: string)
    requires t == pre + ((call + ";\n") + rest)
    ensures t == pre + call + (";\n" + rest)
    ensures t == (pre + (call + ";\n")) + rest
    ensures |pre + call| + 2 <= |t| && t[|pre + call|] == ';' && t[|pre + call| + 1] == '\n'
  {
    assert t == pre + call + (";\n" + rest);
  }

  /** No match starts at the end of the text. */
  lemma NoMatchAtEnd(t: string, cc: string)
    ensures MatchAt(t, cc, |t|).None?
    ensures Matches(t, cc, |t|) == []
  {
    var x := "db.insert(";
    var rest := Pattern(cc)[1..];
    assert Pattern(cc) == [Literal(x)] + rest;
    assert ([Literal(x)] + rest)[0] == Literal(x);
    MatchesStep(t, cc, |t|);
  }

  /** A match followed by `;` and a newline: the scan takes it, then goes on after the newline. */
  lemma ScanLine(t: string, cc: string, m: Match, e2: nat)
    requires m.start < m.end && e2 == m.end + 2 <= |t| && MatchAt(t, cc, m.start) == Some(m)
    requires t[m.end] == ';' && t[m.end + 1] == '\n'
    ensures Matches(t, cc, m.start) == [m] + Matches(t, cc, e2)
  {
    NextAt(t, cc, m);
    MatchesStep(t, cc, m.start);
    var e1 := m.end + 1;
    SkipChar(t, cc, m.end, e1);
    SkipChar(t, cc, e1, e2);
    Chain(Matches(t, cc, m.start), m, Matches(t, cc, m.end), Matches(t, cc, e1), Matches(t, cc, e2));
  }

  lemma Chain(x: seq<Match>, m: Match, a: seq<Match>, b: seq<Match>, c: seq<Match>)
    requires x == [m] + a && a == b && b == c
    ensures x == [m] + c
  {
  }

  lemma Glue(x: seq<Match>, m: Match, a: seq<Match>, b: seq<Match>, y: seq<Match>)
    requires x == [m] + a && a == b && y == [m] + b
    ensures x == y
  {
  }

  /** The first call's match, then the matches of the calls after it. */
  lemma CallMatchesStep(cc: string, calls: seq<CallParts>, base: nat, base2: nat, m: Match)
    requires calls != [] && base2 == base + |Line(cc, calls[0])|
    requires m == Match(base, base + |Call(cc, calls[0].period, calls[0].dtype, calls[0].descr, calls[0].body)|,
                        calls[0].period, calls[0].dtype, calls[0].body)
    ensures CallMatches(cc, calls, base) == [m] + CallMatches(cc, calls[1..], base2)
  {
  }

  /** One match per call, in the order of the calls, carrying the call's period, type name and body. */
  lemma {:induction false} CallMatchesGroups(cc: string, calls: seq<CallParts>, base: nat)
    ensures |CallMatches(cc, calls, base)| == |calls|
    ensures forall k :: 0 <= k < |calls| ==>
              var m := CallMatches(cc, calls, base)[k];
              m.period == calls[k].period && m.dtype == calls[k].dtype && m.body == calls[k].body
    decreases |calls|
  {
    if calls != [] {
      var c := calls[0];
      var base2 := base + |Line(cc, c)|;
      CallMatchesGroups(cc, calls[1..], base2);
      var ms := CallMatches(cc, calls, base);
      assert ms[1..] == CallMatches(cc, calls[1..], base2);
      forall k | 1 <= k < |calls|
        ensures ms[k].period == calls[k].period && ms[k].dtype == calls[k].dtype && ms[k].body == calls[k].body
      {
        assert ms[k] == ms[1..][k - 1] && calls[k] == calls[1..][k - 1];
      }
    }
  }

  /** The scan finds a match that starts where it resumes. */
  lemma NextAt(t: string, cc: string, m: Match)
    requires m.start <= |t| && MatchAt(t, cc, m.start) == Some(m)
    ensures NextMatch(t, cc, m.start) == Some(m)
  {
  }

  /** The calls after the first are well formed too. */
  lemma WellFormedTail(cc: string, calls: seq<CallParts>)
    requires calls != [] && WellFormedFile(cc, calls)
    ensures WellFormedParts(cc, calls[0].period, calls[0].dtype, calls[0].descr, calls[0].body)
    ensures WellFormedFile(cc, calls[1..])
  {
    forall k | 0 <= k < |calls[1..]| ensures calls[1..][k] == calls[k + 1] { }
  }

  /** After `pre`, the scan visits the calls of the lines that follow, in order. */
  lemma {:induction false} MatchesAfter(pre: string, cc: string, calls: seq<CallParts>, t: string)
    requires WellFormedFile(cc, calls) && t == pre + Render(cc, calls)
    ensures |pre| <= |t| && Matches(t, cc, |pre|) == CallMatches(cc, calls, |pre|)
    decreases |calls|
  {
    if calls == [] {
      assert t == pre;
      NoMatchAtEnd(t, cc);
    } else {
      var c := calls[0];
      var call := Call(cc, c.period, c.dtype, c.descr, c.body);
      var rest := Render(cc, calls[1..]);
      var pre2 := pre + (call + ";\n");
      WellFormedTail(cc, calls);
      FirstLine(pre, call, rest, t);
      CallMatched(pre, cc, c.period, c.dtype, c.descr, c.body, ";\n" + rest);
      var m := Match(|pre|, |pre| + |call|, c.period, c.dtype, c.body);
      var e2 := |pre2|;
      ScanLine(t, cc, m, e2);
      MatchesAfter(pre2, cc, calls[1..], t);
      CallMatchesStep(cc, calls, |pre|, e2, m);
      Glue(Matches(t, cc, |pre|), m, Matches(t, cc, e2), CallMatches(cc, calls[1..], e2), CallMatches(cc, calls, |pre|));
    }
  }

  /** Scanning a data file visits each of its calls once, in file order, with the call's groups. */
  lemma FileMatches(cc: string, calls: seq<CallParts>)
    requires WellFormedFile(cc, calls)
    ensures Matches(Render(cc, calls), cc, 0) == CallMatches(cc, calls, 0)
  {
    assert Render(cc, calls) == "" + Render(cc, calls);
    MatchesAfter("", cc, calls, Render(cc, calls));
  }

  /** The rows of a data file are the rows the table of its calls gives. */
  lemma FileRows(cc: string, calls: seq<CallParts>, parse: string -> Option<Body>)
    requires WellFormedFile(cc, calls)
    ensures CountryRows(Render(cc, calls), cc, parse) == RowsAfter(CallMatches(cc, calls, 0), parse)
  {
    FileMatches(cc, calls);
  }

  /** A single `ElectricCarsTotal` record whose body holds one number gives one row carrying that number. */
  lemma OneTotalRecord(m: Match, parse: string -> Option<Body>, key: string, n: int)
    requires m.dtype == "ElectricCarsTotal" && parse(CleanBody(m.body)) == Some([(key, Num(n))])
    ensures RowsAfter([m], parse) == [Row(m.period, n)]
  {
    assert Record(m, parse) == Some((ElectricCarsTotal, n)) by {
      SumNumericAddsOnlyNumbers([(key, Num(n))]);
    }
    assert [m][..0] == [];
    var cells := map[m.period := map[ElectricCarsTotal := n]];
    assert Accumulate(Empty, [m], parse) == Table([m.period], cells);
    assert Resolve(cells[m.period]) == Some(n);
    assert [m.period][..0] == [];
    assert RowsOf([m.period], cells) == [Row(m.period, n)];
  }

  /** A file with one well-formed `ElectricCarsTotal` call whose body holds one number gives one row carrying that number. */
  lemma SingleTotalCall(cc: string, c: CallParts, parse: string -> Option<Body>, key: string, n: int)
    requires WellFormedFile(cc, [c]) && c.dtype == "ElectricCarsTotal"
    requires parse(CleanBody(c.body)) == Some([(key, Num(n))])
    ensures CountryRows(Render(cc, [c]), cc, parse) == [Row(c.period, n)]
  {
    FileRows(cc, [c], parse);
    var m := Match(0, |Call(cc, c.period, c.dtype, c.descr, c.body)|, c.period, c.dtype, c.body);
    CallMatchesStep(cc, [c], 0, |Line(cc, c)|, m);
    assert CallMatches(cc, [c], 0) == [m];
    OneTotalRecord(m, parse, key, n);
  }

  /** The parts of the example call are those of a call the pattern recognises. */
  lemma ExampleWellFormed(c: CallParts)
    requires c == CallParts("2017-Q1", "ElectricCarsTotal", "url", " \"other\": 21415 ")
    ensures WellFormedFile("US", [c])
  {
    assert IsWord(c.dtype) by {
      forall k | 0 <= k < |c.dtype| ensures IsWordChar(c.dtype[k]) { }
    }
  }

  /**
   * The call `db.insert(db.countries.US, "2017-Q1", db.dsTypes.ElectricCarsTotal,
   * "url", { "other": 21415 });` in the file for `US` yields the one row
   * `{ period: "2017-Q1", ev_sales: 21415 }`, given that `JSON.parse` reads
   * `{"other": 21415}` as the object with the one number.
   */
  lemma WorkedExample(c: CallParts, parse: string -> Option<Body>)
    requires c == CallParts("2017-Q1", "ElectricCarsTotal", "url", " \"other\": 21415 ")
    requires parse("{\"other\": 21415}") == Some([("other", Num(21415))])
    ensures CountryRows(Render("US", [c]), "US", parse) == [Row("2017-Q1", 21415)]
  {
    CleanBodyPlainExample(c.body);
    ExampleWellFormed(c);
    SingleTotalCall("US", c, parse, "other", 21415);
  }
}
