/**
 * The regular expression that finds the records of one country in a data file,
 *
 *   db\.insert\(\s*db\.countries\.CC\s*,\s*"([^"]+)"\s*,\s*db\.dsTypes\.(\w+)\s*,\s*
 *   "[^"]*"\s*,\s*\{([\s\S]*?)\}\s*\)
 *
 * with the flag `g`, written out as a matcher. Every repetition in the pattern is
 * followed by a character it cannot consume, so backtracking never changes the
 * outcome and the match that starts at a given position is a function of that
 * position; `exec` returns the leftmost match at or after `lastIndex`.
 */
module InsertScan {
  import opened Wrappers
  import opened JsChars

  /** One match: where it starts and ends, and the three capture groups. */
  datatype Match = Match(start: nat, end: nat, period: string, dtype: string, body: string)

  /** The literal `lit` occurs in `t` at position `i`. */
  predicate At(t: string, i: nat, lit: string) {
    i + |lit| <= |t| && t[i..i + |lit|] == lit
  }

  /** End of the run of `\w` characters starting at `i`. */
  function WordEnd(t: string, i: nat): (j: nat)
    requires i <= |t|
    ensures i <= j <= |t|
    ensures forall k :: i <= k < j ==> IsWordChar(t[k])
    ensures j == |t| || !IsWordChar(t[j])
    decreases |t| - i
  {
    if i < |t| && IsWordChar(t[i]) then WordEnd(t, i + 1) else i
  }

  /** End of the run of `[^"]` characters starting at `i`. */
  function QuoteFreeEnd(t: string, i: nat): (j: nat)
    requires i <= |t|
    ensures i <= j <= |t|
    ensures forall k :: i <= k < j ==> t[k] != '"'
    ensures j == |t| || t[j] == '"'
    decreases |t| - i
  {
    if i < |t| && t[i] != '"' then QuoteFreeEnd(t, i + 1) else i
  }

  /** `\}\s*\)` matches at `k`. */
  predicate ClosesCall(t: string, k: nat) {
    k < |t| && t[k] == '}' && (var w := FirstNonWs(t, k + 1); w < |t| && t[w] == ')')
  }

  /** The lazy `([\s\S]*?)\}\s*\)`: the first position at or after `i` where the call closes. */
  function BodyClose(t: string, i: nat): (r: Option<nat>)
    requires i <= |t|
    ensures r.Some? ==> i <= r.value < |t| && ClosesCall(t, r.value)
    ensures r.Some? ==> forall k :: i <= k < r.value ==> !ClosesCall(t, k)
    ensures r.None? ==> forall k :: i <= k < |t| ==> !ClosesCall(t, k)
    decreases |t| - i
  {
    if i == |t| then None
    else if ClosesCall(t, i) then Some(i)
    else BodyClose(t, i + 1)
  }

  /** The parts of the pattern, in the order they are written in the source. */
  datatype Piece =
    | Literal(text: string)  // escaped literal text, such as `db\.insert\(`
    | Spaces                 // `\s*`
    | PeriodGroup            // `([^"]+)`
    | TypeGroup              // `(\w+)`
    | Unquoted               // `[^"]*`
    | BodyGroup              // `\{([\s\S]*?)\}\s*\)` without its opening brace

  /** The three capture groups. */
  datatype Groups = Groups(period: string, dtype: string, body: string)

  /** The pattern that `fetchCountryEvData` builds for the country code `cc`. */
  function Pattern(cc: string): seq<Piece> {
    [Literal("db.insert("), Spaces, Literal("db.countries." + cc), Spaces, Literal(",")] + AfterCode()
  }

  /** The part of the pattern after the comma that follows the country code. */
  function AfterCode(): seq<Piece> {
    [ Spaces, Literal("\""), PeriodGroup, Literal("\""), Spaces, Literal(","), Spaces,
      Literal("db.dsTypes."), TypeGroup, Spaces, Literal(","), Spaces,
      Literal("\""), Unquoted, Literal("\""), Spaces, Literal(","), Spaces,
      Literal("{"), BodyGroup ]
  }

  /** Matches the pieces `ps` against `t` from position `j`: the groups and the end position. */
  function Run(t: string, ps: seq<Piece>, j: nat, g: Groups): (r: Option<(Groups, nat)>)
    requires j <= |t|
    ensures r.Some? ==> j <= r.value.1 <= |t|
    ensures r.Some? && ps != [] && ps[0].Literal? ==> j + |ps[0].text| <= r.value.1
    decreases |ps|
  {
    if ps == [] then Some((g, j))
    else
      match ps[0]
      case Literal(s) => if At(t, j, s) then Run(t, ps[1..], j + |s|, g) else None
      case Spaces => Run(t, ps[1..], FirstNonWs(t, j), g)
      case PeriodGroup =>
        var e := QuoteFreeEnd(t, j);
        if e == j then None else Run(t, ps[1..], e, g.(period := t[j..e]))
      case TypeGroup =>
        var e := WordEnd(t, j);
        if e == j then None else Run(t, ps[1..], e, g.(dtype := t[j..e]))
      case Unquoted => Run(t, ps[1..], QuoteFreeEnd(t, j), g)
      case BodyGroup =>
        match BodyClose(t, j)
        case None => None
        case Some(q) => Run(t, ps[1..], FirstNonWs(t, q + 1) + 1, g.(body := t[j..q]))
  }

  /** The match of the pattern for country code `cc` that starts at position `i`, if any. */
  function MatchAt(t: string, cc: string, i: nat): (r: Option<Match>)
    requires i <= |t|
    ensures r.Some? ==> r.value.start == i < r.value.end <= |t|
  {
    match Run(t, Pattern(cc), i, Groups("", "", ""))
    case None => None
    case Some((g, end)) => Some(Match(i, end, g.period, g.dtype, g.body))
  }

  /** `pattern.exec(t)` with `lastIndex == from`: the leftmost match at or after `from`. */
  function NextMatch(t: string, cc: string, from: nat): (r: Option<Match>)
    requires from <= |t|
    ensures r.Some? ==> from <= r.value.start < r.value.end <= |t|
    ensures r.Some? ==> MatchAt(t, cc, r.value.start) == r
    ensures r.Some? ==> forall k :: from <= k < r.value.start ==> MatchAt(t, cc, k).None?
    ensures r.None? ==> forall k :: from <= k <= |t| ==> MatchAt(t, cc, k).None?
    decreases |t| - from
  {
    match MatchAt(t, cc, from)
    case Some(m) => Some(m)
    case None => if from == |t| then None else NextMatch(t, cc, from + 1)
  }

  /**
   * The matches the `while ((match = pattern.exec(jsText)) !== null)` loop visits
   * when the search starts at `from`: in order and not overlapping.
   */
  function Matches(t: string, cc: string, from: nat): (ms: seq<Match>)
    requires from <= |t|
    ensures forall j :: 0 <= j < |ms| ==> from <= ms[j].start < ms[j].end <= |t|
    ensures forall j :: 0 <= j < |ms| ==> MatchAt(t, cc, ms[j].start) == Some(ms[j])
    ensures forall j :: 0 < j < |ms| ==> ms[j - 1].end <= ms[j].start
    decreases |t| - from
  {
    match NextMatch(t, cc, from)
    case None => []
    case Some(m) =>
      var rest := Matches(t, cc, m.end);
      assert forall j :: 0 < j < |[m] + rest| ==> ([m] + rest)[j] == rest[j - 1];
      [m] + rest
  }

  /** One turn of the scan: the next match, then the matches after it. */
  lemma MatchesStep(t: string, cc: string, from: nat)
    requires from <= |t|
    ensures NextMatch(t, cc, from).None? ==> Matches(t, cc, from) == []
    ensures NextMatch(t, cc, from).Some? ==>
              Matches(t, cc, from) == [NextMatch(t, cc, from).value] + Matches(t, cc, NextMatch(t, cc, from).value.end)
  {
  }

  /** Position `k` lies inside one of the matches `ms`. */
  predicate Covered(ms: seq<Match>, k: nat) {
    exists j :: 0 <= j < |ms| && ms[j].start <= k < ms[j].end
  }

  /** A position inside the first match, or covered by the later ones, is covered. */
  lemma CoveredCons(m: Match, rest: seq<Match>, k: nat)
    requires m.start <= k < m.end || Covered(rest, k)
    ensures Covered([m] + rest, k)
  {
    if m.start <= k < m.end {
      assert ([m] + rest)[0] == m;
    } else {
      var j :| 0 <= j < |rest| && rest[j].start <= k < rest[j].end;
      assert ([m] + rest)[j + 1] == rest[j];
    }
  }

  /** No match is missed: every position where the pattern matches lies inside a visited match. */
  lemma {:induction false} MatchesCover(t: string, cc: string, from: nat, k: nat)
    requires from <= k <= |t| && MatchAt(t, cc, k).Some?
    ensures Covered(Matches(t, cc, from), k)
    decreases |t| - from
  {
    MatchesStep(t, cc, from);
    var m := NextMatch(t, cc, from).value;
    if m.end <= k {
      MatchesCover(t, cc, m.end, k);
    }
    CoveredCons(m, Matches(t, cc, m.end), k);
  }

  /**
   * A match names exactly the requested country: with word-character codes,
   * the pattern for `a` and the pattern for `b` match at the same place only
   * when `a == b` (`US` does not match a call for `USA`, nor the other way round).
   */
  lemma CodeIsExact(t: string, a: string, b: string, i: nat)
    requires i <= |t| && IsWord(a) && IsWord(b)
    requires MatchAt(t, a, i).Some? && MatchAt(t, b, i).Some?
    ensures a == b
  {
    CodeAt(t, a, i);
    CodeAt(t, b, i);
    SameCode(t, FirstNonWs(t, i + 10) + 13, a, b);
  }

  /** Where a match puts the country code, and the separator after it. */
  lemma CodeAt(t: string, cc: string, i: nat)
    requires i <= |t| && MatchAt(t, cc, i).Some?
    ensures var q := FirstNonWs(t, i + 10) + 13;
            q + |cc| < |t| && t[q..q + |cc|] == cc && !IsWordChar(t[q + |cc|])
  {
    CodeFollowedBySeparator(t, cc, i);
    AtSuffix(t, FirstNonWs(t, i + 10), "db.countries.", cc);
  }

  /** Two codes of word characters at `q`, each followed by a non-word character, are the same code. */
  lemma SameCode(t: string, q: nat, a: string, b: string)
    requires IsWord(a) && IsWord(b)
    requires q + |a| < |t| && t[q..q + |a|] == a && !IsWordChar(t[q + |a|])
    requires q + |b| < |t| && t[q..q + |b|] == b && !IsWordChar(t[q + |b|])
    ensures a == b
  {
    assert forall k :: 0 <= k < |a| ==> t[q + k] == a[k] && IsWordChar(t[q + k]);
    assert forall k :: 0 <= k < |b| ==> t[q + k] == b[k] && IsWordChar(t[q + k]);
  }

  lemma AtSuffix(t: string, p: nat, x: string, y: string)
    requires At(t, p, x + y)
    ensures p + |x| + |y| <= |t| && t[p + |x|..p + |x| + |y|] == y
    ensures forall k :: 0 <= k < |y| ==> t[p + |x| + k] == y[k]
  {
    var s := t[p..p + |x| + |y|];
    assert s == x + y;
    forall k | 0 <= k < |y| ensures t[p + |x| + k] == y[k] {
      assert t[p + |x| + k] == s[|x| + k] == (x + y)[|x| + k];
    }
  }

  /**
   * The pattern starts `db.insert(`, whitespace, `db.countries.` and the code, and
   * the code is followed by whitespace or the comma, never by another word character.
   */
  lemma CodeFollowedBySeparator(t: string, cc: string, i: nat)
    requires i <= |t| && MatchAt(t, cc, i).Some?
    ensures var p := FirstNonWs(t, i + 10);
            && At(t, p, "db.countries." + cc)
            && p + 13 + |cc| < |t| && !IsWordChar(t[p + 13 + |cc|])
  {
    var x, y := "db.insert(", "db.countries." + cc;
    assert Pattern(cc) == [Literal(x)] + ([Spaces] + ([Literal(y)] + ([Spaces] + ([Literal(",")] + AfterCode()))));
    PrefixRun(t, x, y, AfterCode(), i, Groups("", "", ""));
  }

  /** Running `x\s*y\s*,` checks `x`, then `y` after the whitespace, then a separator. */
  lemma PrefixRun(t: string, x: string, y: string, rest: seq<Piece>, i: nat, g: Groups)
    requires i <= |t|
    requires Run(t, [Literal(x)] + ([Spaces] + ([Literal(y)] + ([Spaces] + ([Literal(",")] + rest)))), i, g).Some?
    ensures var p := FirstNonWs(t, i + |x|);
            && At(t, i, x) && At(t, p, y) && p + |y| < |t|
            && (IsWhitespace(t[p + |y|]) || t[p + |y|] == ',')
  {
    var r3 := [Spaces] + ([Literal(",")] + rest);
    var r2 := [Literal(y)] + r3;
    LiteralThenSpaces(t, x, r2, [Literal(x)] + ([Spaces] + r2), i, g);
    var p := FirstNonWs(t, i + |x|);
    RunLiteral(t, y, r3, r2, p, g);
    SeparatorRun(t, rest, [Literal(",")] + rest, r3, p + |y|, g);
  }

  /** Running `x\s*` checks `x` and goes on after the whitespace that follows it. */
  lemma LiteralThenSpaces(t: string, x: string, r: seq<Piece>, ps: seq<Piece>, i: nat, g: Groups)
    requires ps == [Literal(x)] + ([Spaces] + r)
    requires i <= |t| && Run(t, ps, i, g).Some?
    ensures At(t, i, x) && Run(t, r, FirstNonWs(t, i + |x|), g).Some?
  {
    RunLiteral(t, x, [Spaces] + r, ps, i, g);
    RunSpaces(t, r, [Spaces] + r, i + |x|, g);
  }

  /** Running `\s*,` from `j` needs whitespace or the comma at `j`. */
  lemma SeparatorRun(t: string, rest: seq<Piece>, r: seq<Piece>, ps: seq<Piece>, j: nat, g: Groups)
    requires r == [Literal(",")] + rest && ps == [Spaces] + r
    requires j <= |t| && Run(t, ps, j, g).Some?
    ensures j < |t| && (IsWhitespace(t[j]) || t[j] == ',')
  {
    RunSpaces(t, r, ps, j, g);
    var q := FirstNonWs(t, j);
    RunLiteral(t, ",", rest, r, q, g);
    CharAt(t, q, ',');
  }

  /** A one-character literal at `q` is that character. */
  lemma CharAt(t: string, q: nat, c: char)
    requires At(t, q, [c])
    ensures q < |t| && t[q] == c
  {
    assert t[q..q + 1][0] == t[q];
  }

  /** A literal piece that succeeds consumes exactly its text. */
  lemma RunLiteral(t: string, s: string, rest: seq<Piece>, ps: seq<Piece>, j: nat, g: Groups)
    requires ps == [Literal(s)] + rest
    requires j <= |t| && Run(t, ps, j, g).Some?
    ensures At(t, j, s) && Run(t, rest, j + |s|, g).Some?
  {
    assert ps[1..] == rest;
  }

  /** `\s*` consumes the whole run of whitespace. */
  lemma RunSpaces(t: string, rest: seq<Piece>, ps: seq<Piece>, j: nat, g: Groups)
    requires ps == [Spaces] + rest
    requires j <= |t| && Run(t, ps, j, g).Some?
    ensures Run(t, rest, FirstNonWs(t, j), g).Some?
  {
    assert ps[1..] == rest;
  }
}
