/**
 * The pattern recognises every call written in the layout of the data files:
 * a call `db.insert(db.countries.CC, "P", db.dsTypes.T, "D", {B})` is one match
 * whose groups are `P`, `T` and `B`, wherever it stands in the text.
 */
module InsertCall {
  import opened Wrappers
  import opened JsChars
  import opened InsertScan

  /** The text of a call, as the data files write it. */
  function Call(cc: string, period: string, dtype: string, descr: string, body: string): string {
    "db.insert(" + ("db.countries." + cc + (", \"" + (period + ("\", " + CallTail(dtype, descr, body)))))
  }

  /** The call from `db.dsTypes.` on. */
  function CallTail(dtype: string, descr: string, body: string): string {
    "db.dsTypes." + (dtype + (", \"" + (descr + ("\", {" + (body + "})")))))
  }

  /** What the parts of a call must be for the call to be matched as written. */
  predicate WellFormedParts(cc: string, period: string, dtype: string, descr: string, body: string) {
    && (forall k :: 0 <= k < |period| ==> period[k] != '"') && period != []
    && IsWord(dtype) && dtype != []
    && (forall k :: 0 <= k < |descr| ==> descr[k] != '"')
    && (forall k :: 0 <= k < |body| ==> body[k] != '}')
  }

  lemma AtSplit(t: string, j: nat, x: string, y: string)
    requires At(t, j, x + y)
    ensures At(t, j, x) && At(t, j + |x|, y)
  {
    assert t[j..j + |x|] == (x + y)[..|x|] == x;
    assert t[j + |x|..j + |x| + |y|] == (x + y)[|x|..] == y;
  }

  lemma AtChar(t: string, j: nat, s: string, k: nat)
    requires At(t, j, s) && k < |s|
    ensures t[j + k] == s[k]
  {
    assert t[j..j + |s|][k] == s[k];
  }

  lemma AtWhole(pre: string, c: string, post: string)
    ensures At(pre + c + post, |pre|, c)
  {
    assert (pre + c + post)[|pre|..|pre| + |c|] == c;
  }

  lemma StepLiteral(t: string, s: string, rest: seq<Piece>, j: nat, e: nat, g: Groups)
    requires e == j + |s| && At(t, j, s)
    ensures Run(t, [Literal(s)] + rest, j, g) == Run(t, rest, e, g)
  {
    assert ([Literal(s)] + rest)[1..] == rest;
  }

  lemma StepSpaces(t: string, rest: seq<Piece>, j: nat, g: Groups)
    requires j <= |t|
    ensures Run(t, [Spaces] + rest, j, g) == Run(t, rest, FirstNonWs(t, j), g)
  {
    assert ([Spaces] + rest)[1..] == rest;
  }

  lemma SpacesNone(t: string, j: nat)
    requires j < |t| && !IsWhitespace(t[j])
    ensures FirstNonWs(t, j) == j
  {
  }

  lemma SpacesOne(t: string, j: nat, k: nat)
    requires k == j + 1 && k < |t| && t[j] == ' ' && !IsWhitespace(t[k])
    ensures FirstNonWs(t, j) == k
  {
  }

  lemma AtThree(t: string, j: nat, a: char, b: char, c: char)
    requires At(t, j, [a, b, c])
    ensures t[j] == a && t[j + 1] == b && t[j + 2] == c
  {
    assert t[j..j + 3] == [a, b, c];
  }

  /** The call up to `db.dsTypes.`, as its parts and characters. */
  lemma HeadLayout(t: string, b: nat, cc: string, period: string, tail: string, m: nat, j2: nat, j4: nat)
    requires m == b + 10 && j2 == m + 13 + |cc| && j4 == j2 + 3 + |period|
    requires At(t, b, "db.insert(" + ("db.countries." + cc + (", \"" + (period + ("\", " + tail)))))
    ensures && At(t, b, "db.insert(") && At(t, m, "db.countries." + cc) && t[m] == 'd'
            && t[j2] == ',' && t[j2 + 1] == ' ' && t[j2 + 2] == '"' && At(t, j2 + 3, period)
            && t[j4] == '"' && t[j4 + 1] == ',' && t[j4 + 2] == ' ' && At(t, j4 + 3, tail)
  {
    var r2 := ", \"" + (period + ("\", " + tail));
    AtSplit(t, b, "db.insert(", "db.countries." + cc + r2);
    AtSplit(t, m, "db.countries." + cc, r2);
    AtChar(t, m, "db.countries." + cc, 0);
    PeriodLayout(t, period, tail, j2, j4);
  }

  /** The call from the comma after the country code up to `db.dsTypes.`. */
  lemma PeriodLayout(t: string, period: string, tail: string, j2: nat, j4: nat)
    requires j4 == j2 + 3 + |period|
    requires At(t, j2, ", \"" + (period + ("\", " + tail)))
    ensures && t[j2] == ',' && t[j2 + 1] == ' ' && t[j2 + 2] == '"' && At(t, j2 + 3, period)
            && t[j4] == '"' && t[j4 + 1] == ',' && t[j4 + 2] == ' ' && At(t, j4 + 3, tail)
  {
    var r3 := period + ("\", " + tail);
    AtSplit(t, j2, ", \"", r3);
    AtThree(t, j2, ',', ' ', '"');
    AtSplit(t, j2 + 3, period, "\", " + tail);
    AtSplit(t, j4, "\", ", tail);
    AtThree(t, j4, '"', ',', ' ');
  }

  /** The call from `db.dsTypes.` on, as its parts and characters. */
  lemma TailLayout(t: string, j: nat, dtype: string, descr: string, body: string, j5: nat, j6: nat, j8: nat, j10: nat)
    requires j5 == j + 11 && j6 == j5 + |dtype| && j8 == j6 + 3 + |descr| && j10 == j8 + 4 + |body|
    requires At(t, j, CallTail(dtype, descr, body))
    ensures && At(t, j, "db.dsTypes.") && t[j] == 'd' && At(t, j5, dtype)
            && t[j6] == ',' && t[j6 + 1] == ' ' && t[j6 + 2] == '"' && At(t, j6 + 3, descr)
            && t[j8] == '"' && t[j8 + 1] == ',' && t[j8 + 2] == ' ' && t[j8 + 3] == '{' && At(t, j8 + 4, body)
            && t[j10] == '}' && t[j10 + 1] == ')'
  {
    var r2 := ", \"" + (descr + ("\", {" + (body + "})")));
    AtSplit(t, j, "db.dsTypes.", dtype + r2);
    AtChar(t, j, "db.dsTypes.", 0);
    AtSplit(t, j5, dtype, r2);
    DescrLayout(t, descr, body, j6, j8, j10);
  }

  /** The call from the comma after the type name on, as its parts and characters. */
  lemma DescrLayout(t: string, descr: string, body: string, j6: nat, j8: nat, j10: nat)
    requires j8 == j6 + 3 + |descr| && j10 == j8 + 4 + |body|
    requires At(t, j6, ", \"" + (descr + ("\", {" + (body + "})"))))
    ensures && t[j6] == ',' && t[j6 + 1] == ' ' && t[j6 + 2] == '"' && At(t, j6 + 3, descr)
            && t[j8] == '"' && t[j8 + 1] == ',' && t[j8 + 2] == ' ' && t[j8 + 3] == '{' && At(t, j8 + 4, body)
            && t[j10] == '}' && t[j10 + 1] == ')'
  {
    var r3 := descr + ("\", {" + (body + "})"));
    AtSplit(t, j6, ", \"", r3);
    AtThree(t, j6, ',', ' ', '"');
    AtSplit(t, j6 + 3, descr, "\", {" + (body + "})"));
    BodyLayout(t, body, j8, j10);
  }

  /** The call from the quote after the description on, as its parts and characters. */
  lemma BodyLayout(t: string, body: string, j8: nat, j10: nat)
    requires j10 == j8 + 4 + |body|
    requires At(t, j8, "\", {" + (body + "})"))
    ensures && t[j8] == '"' && t[j8 + 1] == ',' && t[j8 + 2] == ' ' && t[j8 + 3] == '{' && At(t, j8 + 4, body)
            && t[j10] == '}' && t[j10 + 1] == ')'
  {
    AtSplit(t, j8, "\", {", body + "})");
    AtSplit(t, j8, "\", ", "{");
    AtThree(t, j8, '"', ',', ' ');
    AtChar(t, j8 + 3, "{", 0);
    AtSplit(t, j8 + 4, body, "})");
    AtChar(t, j10, "})", 0);
    AtChar(t, j10, "})", 1);
  }

  lemma AtOne(t: string, j: nat, c: char)
    requires j < |t| && t[j] == c
    ensures At(t, j, [c])
  {
    assert t[j..j + 1] == [c];
  }

  lemma StepChar(t: string, c: char, rest: seq<Piece>, j: nat, e: nat, g: Groups)
    requires e == j + 1 && e <= |t| && t[j] == c
    ensures Run(t, [Literal([c])] + rest, j, g) == Run(t, rest, e, g)
  {
    AtOne(t, j, c);
    StepLiteral(t, [c], rest, j, e, g);
  }

  /** `\s*` over one space, then a literal. */
  lemma SpaceLit(t: string, z: string, d: char, rest: seq<Piece>, j: nat, k: nat, e: nat, g: Groups)
    requires k == j + 1 && e == k + |z| && k < |t| && t[j] == ' ' && t[k] == d && !IsWhitespace(d) && At(t, k, z)
    ensures Run(t, [Spaces] + ([Literal(z)] + rest), j, g) == Run(t, rest, e, g)
  {
    StepSpaces(t, [Literal(z)] + rest, j, g);
    SpacesOne(t, j, k);
    StepLiteral(t, z, rest, k, e, g);
  }

  /** `\s*,\s*` over `, `, then a literal. */
  lemma CommaLit(t: string, c: char, z: string, d: char, rest: seq<Piece>, j: nat, s: nat, k: nat, e: nat, g: Groups)
    requires s == j + 1 && k == s + 1 && e == k + |z| && e <= |t| && t[j] == c && !IsWhitespace(c) && t[s] == ' '
    requires k < |t| && t[k] == d && !IsWhitespace(d) && At(t, k, z)
    ensures Run(t, [Spaces] + ([Literal([c])] + ([Spaces] + ([Literal(z)] + rest))), j, g) == Run(t, rest, e, g)
  {
    var r := [Spaces] + ([Literal(z)] + rest);
    StepSpaces(t, [Literal([c])] + r, j, g);
    SpacesNone(t, j);
    StepChar(t, c, r, j, s, g);
    SpaceLit(t, z, d, rest, s, k, e, g);
  }

  /** `([^"]+)"` over a period and its closing quote. */
  lemma PeriodQuote(t: string, p: string, rest: seq<Piece>, j: nat, q: nat, e: nat, g: Groups)
    requires q == j + |p| && e == q + 1 && q < |t| && p != [] && At(t, j, p) && t[q] == '"'
    requires forall k :: 0 <= k < |p| ==> p[k] != '"'
    ensures Run(t, [PeriodGroup] + ([Literal("\"")] + rest), j, g) == Run(t, rest, e, g.(period := p))
  {
    forall k | j <= k < q ensures t[k] != '"' {
      AtChar(t, j, p, k - j);
    }
    assert QuoteFreeEnd(t, j) == q;
    assert ([PeriodGroup] + ([Literal("\"")] + rest))[1..] == [Literal("\"")] + rest;
    StepChar(t, '"', rest, q, e, g.(period := p));
  }

  /** `[^"]*"` over a description and its closing quote. */
  lemma UnquotedQuote(t: string, d: string, rest: seq<Piece>, j: nat, q: nat, e: nat, g: Groups)
    requires q == j + |d| && e == q + 1 && q < |t| && At(t, j, d) && t[q] == '"'
    requires forall k :: 0 <= k < |d| ==> d[k] != '"'
    ensures Run(t, [Unquoted] + ([Literal("\"")] + rest), j, g) == Run(t, rest, e, g)
  {
    forall k | j <= k < q ensures t[k] != '"' {
      AtChar(t, j, d, k - j);
    }
    assert QuoteFreeEnd(t, j) == q;
    assert ([Unquoted] + ([Literal("\"")] + rest))[1..] == [Literal("\"")] + rest;
    StepChar(t, '"', rest, q, e, g);
  }

  /** `(\w+)` over a type name followed by a non-word character. */
  lemma TypeName(t: string, d: string, rest: seq<Piece>, j: nat, e: nat, g: Groups)
    requires e == j + |d| && e < |t| && d != [] && IsWord(d) && At(t, j, d) && !IsWordChar(t[e])
    ensures Run(t, [TypeGroup] + rest, j, g) == Run(t, rest, e, g.(dtype := d))
  {
    forall k | j <= k < e ensures IsWordChar(t[k]) {
      AtChar(t, j, d, k - j);
    }
    assert WordEnd(t, j) == e;
    assert ([TypeGroup] + rest)[1..] == rest;
  }

  /** `([\s\S]*?)\}\s*\)` over a body without `}` and the closing `})`. */
  lemma BodyEnd(t: string, body: string, j: nat, q: nat, e: nat, g: Groups)
    requires q == j + |body| && e == q + 2 && e <= |t| && At(t, j, body) && t[q] == '}' && t[q + 1] == ')'
    requires forall k :: 0 <= k < |body| ==> body[k] != '}'
    ensures Run(t, [BodyGroup], j, g) == Some((g.(body := body), e))
  {
    forall k | j <= k < q ensures !ClosesCall(t, k) {
      AtChar(t, j, body, k - j);
    }
    SpacesNone(t, q + 1);
    assert ClosesCall(t, q);
    assert BodyClose(t, j) == Some(q);
    assert [BodyGroup][1..] == [];
  }

  /** `db\.insert\(\s*db\.countries\.CC\s*,` over `db.insert(db.countries.CC,`. */
  lemma RunPrefix(t: string, b: nat, m: nat, q: nat, x: string, y: string, d: char, c: char, rest: seq<Piece>, e: nat, g: Groups)
    requires m == b + |x| && q == m + |y| && e == q + 1 && e <= |t| && At(t, b, x) && At(t, m, y)
    requires t[m] == d && !IsWhitespace(d) && t[q] == c && !IsWhitespace(c)
    ensures Run(t, [Literal(x)] + ([Spaces] + ([Literal(y)] + ([Spaces] + ([Literal([c])] + rest)))), b, g)
            == Run(t, rest, e, g)
  {
    RunLiteralSpaces(t, b, m, x, [Literal(y)] + ([Spaces] + ([Literal([c])] + rest)), g);
    RunLiteralSpaces(t, m, q, y, [Literal([c])] + rest, g);
    StepChar(t, c, rest, q, e, g);
  }

  /** A literal followed by `\s*`, where the text after the literal is not whitespace. */
  lemma RunLiteralSpaces(t: string, j: nat, e: nat, x: string, rest: seq<Piece>, g: Groups)
    requires e == j + |x| && e < |t| && At(t, j, x) && !IsWhitespace(t[e])
    ensures Run(t, [Literal(x)] + ([Spaces] + rest), j, g) == Run(t, rest, e, g)
  {
    StepLiteral(t, x, [Spaces] + rest, j, e, g);
    StepSpaces(t, rest, e, g);
    SpacesNone(t, e);
  }

  /** From the description on: `[^"]*"\s*,\s*\{([\s\S]*?)\}\s*\)`. */
  lemma RunFromDescr(t: string, descr: string, body: string, j: nat, j8: nat, j10: nat, g: Groups)
    requires j8 == j + |descr| && j10 == j8 + 4 + |body| && j10 + 2 <= |t|
    requires At(t, j, descr) && (forall k :: 0 <= k < |descr| ==> descr[k] != '"')
    requires t[j8] == '"' && t[j8 + 1] == ',' && t[j8 + 2] == ' ' && t[j8 + 3] == '{' && At(t, j8 + 4, body)
    requires t[j10] == '}' && t[j10 + 1] == ')' && forall k :: 0 <= k < |body| ==> body[k] != '}'
    ensures Run(t, [Unquoted] + ([Literal("\"")] + ([Spaces] + ([Literal(",")] + ([Spaces] + ([Literal("{")] + [BodyGroup]))))), j, g)
            == Some((g.(body := body), j10 + 2))
  {
    var a15 := [Spaces] + ([Literal(",")] + ([Spaces] + ([Literal("{")] + [BodyGroup])));
    UnquotedQuote(t, descr, a15, j, j8, j8 + 1, g);
    RunFromBody(t, body, j8, j10, g);
  }

  /** From the comma after the description on: `\s*,\s*\{([\s\S]*?)\}\s*\)`. */
  lemma RunFromBody(t: string, body: string, j8: nat, j10: nat, g: Groups)
    requires j10 == j8 + 4 + |body| && j10 + 2 <= |t|
    requires t[j8 + 1] == ',' && t[j8 + 2] == ' ' && t[j8 + 3] == '{' && At(t, j8 + 4, body)
    requires t[j10] == '}' && t[j10 + 1] == ')' && forall k :: 0 <= k < |body| ==> body[k] != '}'
    ensures Run(t, [Spaces] + ([Literal(",")] + ([Spaces] + ([Literal("{")] + [BodyGroup]))), j8 + 1, g)
            == Some((g.(body := body), j10 + 2))
  {
    AtOne(t, j8 + 3, '{');
    CommaLit(t, ',', "{", '{', [BodyGroup], j8 + 1, j8 + 2, j8 + 3, j8 + 4, g);
    BodyEnd(t, body, j8 + 4, j10, j10 + 2, g);
  }

  /** From the type name on: `(\w+)\s*,\s*"`, then the description and the body. */
  lemma RunFromType(t: string, dtype: string, descr: string, body: string, j5: nat, j6: nat, j8: nat, j10: nat, g: Groups)
    requires j6 == j5 + |dtype| && j8 == j6 + 3 + |descr| && j10 == j8 + 4 + |body| && j10 + 2 <= |t|
    requires At(t, j5, dtype) && dtype != [] && IsWord(dtype)
    requires t[j6] == ',' && t[j6 + 1] == ' ' && t[j6 + 2] == '"'
    requires At(t, j6 + 3, descr) && (forall k :: 0 <= k < |descr| ==> descr[k] != '"')
    requires t[j8] == '"' && t[j8 + 1] == ',' && t[j8 + 2] == ' ' && t[j8 + 3] == '{' && At(t, j8 + 4, body)
    requires t[j10] == '}' && t[j10 + 1] == ')' && forall k :: 0 <= k < |body| ==> body[k] != '}'
    ensures Run(t, [TypeGroup] + ([Spaces] + ([Literal(",")] + ([Spaces] + ([Literal("\"")]
              + ([Unquoted] + ([Literal("\"")] + ([Spaces] + ([Literal(",")] + ([Spaces] + ([Literal("{")] + [BodyGroup])))))))))), j5, g)
            == Some((g.(dtype := dtype).(body := body), j10 + 2))
  {
    var a13 := [Unquoted] + ([Literal("\"")] + ([Spaces] + ([Literal(",")] + ([Spaces] + ([Literal("{")] + [BodyGroup])))));
    var a9 := [Spaces] + ([Literal(",")] + ([Spaces] + ([Literal("\"")] + a13)));
    TypeName(t, dtype, a9, j5, j6, g);
    AtOne(t, j6 + 2, '"');
    CommaLit(t, ',', "\"", '"', a13, j6, j6 + 1, j6 + 2, j6 + 3, g.(dtype := dtype));
    RunFromDescr(t, descr, body, j6 + 3, j8, j10, g.(dtype := dtype));
  }

  /** From after the country code's comma on: `\s*"([^"]+)"\s*,\s*db\.dsTypes\.`, then the rest. */
  lemma RunFromPeriod(t: string, period: string, dtype: string, descr: string, body: string,
                      j2: nat, j4: nat, j5: nat, j6: nat, j8: nat, j10: nat, g: Groups)
    requires j4 == j2 + 3 + |period| && j5 == j4 + 14
    requires j6 == j5 + |dtype| && j8 == j6 + 3 + |descr| && j10 == j8 + 4 + |body| && j10 + 2 <= |t|
    requires t[j2 + 1] == ' ' && t[j2 + 2] == '"' && At(t, j2 + 3, period)
    requires t[j4] == '"' && t[j4 + 1] == ',' && t[j4 + 2] == ' ' && At(t, j4 + 3, "db.dsTypes.") && t[j4 + 3] == 'd'
    requires At(t, j5, dtype)
    requires t[j6] == ',' && t[j6 + 1] == ' ' && t[j6 + 2] == '"' && At(t, j6 + 3, descr)
    requires t[j8] == '"' && t[j8 + 1] == ',' && t[j8 + 2] == ' ' && t[j8 + 3] == '{' && At(t, j8 + 4, body)
    requires t[j10] == '}' && t[j10 + 1] == ')'
    requires WellFormedParts("", period, dtype, descr, body)
    ensures Run(t, [Spaces] + ([Literal("\"")] + ([PeriodGroup] + ([Literal("\"")] + ([Spaces] + ([Literal(",")] + (
               [Spaces] + ([Literal("db.dsTypes.")] + ([TypeGroup] + ([Spaces] + ([Literal(",")] + ([Spaces] + (
               [Literal("\"")] + ([Unquoted] + ([Literal("\"")] + ([Spaces] + ([Literal(",")] + ([Spaces] + (
               [Literal("{")] + ([BodyGroup]))))))))))))))))))), j2 + 1, g)
            == Some((g.(period := period).(dtype := dtype).(body := body), j10 + 2))
  {
    var a8 := [TypeGroup] + ([Spaces] + ([Literal(",")] + ([Spaces] + ([Literal("\"")]
              + ([Unquoted] + ([Literal("\"")] + ([Spaces] + ([Literal(",")] + ([Spaces] + ([Literal("{")] + [BodyGroup]))))))))));
    var a4 := [Spaces] + ([Literal(",")] + ([Spaces] + ([Literal("db.dsTypes.")] + a8)));
    var a2 := [PeriodGroup] + ([Literal("\"")] + a4);
    AtOne(t, j2 + 2, '"');
    SpaceLit(t, "\"", '"', a2, j2 + 1, j2 + 2, j2 + 3, g);
    PeriodQuote(t, period, a4, j2 + 3, j4, j4 + 1, g);
    RunFromTypes(t, dtype, descr, body, j4, j5, j6, j8, j10, g.(period := period));
  }

  /** From the comma after the period on: `\s*,\s*db\.dsTypes\.`, then the rest. */
  lemma RunFromTypes(t: string, dtype: string, descr: string, body: string,
                     j4: nat, j5: nat, j6: nat, j8: nat, j10: nat, g: Groups)
    requires j5 == j4 + 14 && j6 == j5 + |dtype| && j8 == j6 + 3 + |descr| && j10 == j8 + 4 + |body| && j10 + 2 <= |t|
    requires t[j4 + 1] == ',' && t[j4 + 2] == ' ' && At(t, j4 + 3, "db.dsTypes.") && t[j4 + 3] == 'd'
    requires At(t, j5, dtype)
    requires t[j6] == ',' && t[j6 + 1] == ' ' && t[j6 + 2] == '"' && At(t, j6 + 3, descr)
    requires t[j8] == '"' && t[j8 + 1] == ',' && t[j8 + 2] == ' ' && t[j8 + 3] == '{' && At(t, j8 + 4, body)
    requires t[j10] == '}' && t[j10 + 1] == ')'
    requires WellFormedParts("", "-", dtype, descr, body)
    ensures Run(t, [Spaces] + ([Literal(",")] + ([Spaces] + ([Literal("db.dsTypes.")] + ([TypeGroup] + ([Spaces] + ([Literal(",")] + ([Spaces] + ([Literal("\"")]
              + ([Unquoted] + ([Literal("\"")] + ([Spaces] + ([Literal(",")] + ([Spaces] + ([Literal("{")] + [BodyGroup])))))))))))))), j4 + 1, g)
            == Some((g.(dtype := dtype).(body := body), j10 + 2))
  {
    var a8 := [TypeGroup] + ([Spaces] + ([Literal(",")] + ([Spaces] + ([Literal("\"")]
              + ([Unquoted] + ([Literal("\"")] + ([Spaces] + ([Literal(",")] + ([Spaces] + ([Literal("{")] + [BodyGroup]))))))))));
    CommaLit(t, ',', "db.dsTypes.", 'd', a8, j4 + 1, j4 + 2, j4 + 3, j5, g);
    RunFromType(t, dtype, descr, body, j5, j6, j8, j10, g);
  }

  /** The pattern as nested appends, one piece at a time. */
  lemma PatternNested(cc: string)
    ensures Pattern(cc)
            == [Literal("db.insert(")] + ([Spaces] + ([Literal("db.countries." + cc)] + ([Spaces] + ([Literal(",")]
               + ([Spaces] + ([Literal("\"")] + ([PeriodGroup] + ([Literal("\"")] + ([Spaces] + ([Literal(",")] + (
               [Spaces] + ([Literal("db.dsTypes.")] + ([TypeGroup] + ([Spaces] + ([Literal(",")] + ([Spaces] + (
               [Literal("\"")] + ([Unquoted] + ([Literal("\"")] + ([Spaces] + ([Literal(",")] + ([Spaces] + (
               [Literal("{")] + ([BodyGroup]))))))))))))))))))))))))
  {
  }

  /**
   * The pattern runs over a text that holds the parts of a call at the
   * positions given, and ends just after the call's `})`.
   */
  lemma PatternRun(t: string, cc: string, period: string, dtype: string, descr: string, body: string,
                   b: nat, m: nat, j2: nat, j4: nat, j5: nat, j6: nat, j8: nat, j10: nat)
    requires m == b + 10 && j2 == m + 13 + |cc| && j4 == j2 + 3 + |period|
    requires j5 == j4 + 14 && j6 == j5 + |dtype| && j8 == j6 + 3 + |descr| && j10 == j8 + 4 + |body| && j10 + 2 <= |t|
    requires && At(t, b, "db.insert(") && At(t, m, "db.countries." + cc) && t[m] == 'd'
             && t[j2] == ',' && t[j2 + 1] == ' ' && t[j2 + 2] == '"' && At(t, j2 + 3, period)
             && t[j4] == '"' && t[j4 + 1] == ',' && t[j4 + 2] == ' '
    requires && At(t, j4 + 3, "db.dsTypes.") && t[j4 + 3] == 'd' && At(t, j5, dtype)
             && t[j6] == ',' && t[j6 + 1] == ' ' && t[j6 + 2] == '"' && At(t, j6 + 3, descr)
             && t[j8] == '"' && t[j8 + 1] == ',' && t[j8 + 2] == ' ' && t[j8 + 3] == '{' && At(t, j8 + 4, body)
             && t[j10] == '}' && t[j10 + 1] == ')'
    requires WellFormedParts(cc, period, dtype, descr, body)
    ensures Run(t, Pattern(cc), b, Groups("", "", "")) == Some((Groups(period, dtype, body), j10 + 2))
  {
    var g0 := Groups("", "", "");
    var a0 := [Spaces] + ([Literal("\"")] + ([PeriodGroup] + ([Literal("\"")] + ([Spaces] + ([Literal(",")] + (
               [Spaces] + ([Literal("db.dsTypes.")] + ([TypeGroup] + ([Spaces] + ([Literal(",")] + ([Spaces] + (
               [Literal("\"")] + ([Unquoted] + ([Literal("\"")] + ([Spaces] + ([Literal(",")] + ([Spaces] + (
               [Literal("{")] + ([BodyGroup])))))))))))))))))));
    PatternNested(cc);
    RunPrefix(t, b, m, j2, "db.insert(", "db.countries." + cc, 'd', ',', a0, j2 + 1, g0);
    RunFromPeriod(t, period, dtype, descr, body, j2, j4, j5, j6, j8, j10, g0);
  }

  /** The length of a call: 49 characters of syntax around its parts. */
  lemma CallLength(cc: string, period: string, dtype: string, descr: string, body: string)
    ensures |Call(cc, period, dtype, descr, body)| == 49 + |cc| + |period| + |dtype| + |descr| + |body|
  {
  }

  /** A call standing in a text puts its parts and its punctuation at fixed positions. */
  lemma CallLayout(t: string, b: nat, cc: string, period: string, dtype: string, descr: string, body: string,
                   m: nat, j2: nat, j4: nat, j5: nat, j6: nat, j8: nat, j10: nat)
    requires m == b + 10 && j2 == m + 13 + |cc| && j4 == j2 + 3 + |period|
    requires j5 == j4 + 14 && j6 == j5 + |dtype| && j8 == j6 + 3 + |descr| && j10 == j8 + 4 + |body|
    requires At(t, b, Call(cc, period, dtype, descr, body))
    ensures && j10 + 2 <= |t|
            && At(t, b, "db.insert(") && At(t, m, "db.countries." + cc) && t[m] == 'd'
            && t[j2] == ',' && t[j2 + 1] == ' ' && t[j2 + 2] == '"' && At(t, j2 + 3, period)
            && t[j4] == '"' && t[j4 + 1] == ',' && t[j4 + 2] == ' '
            && At(t, j4 + 3, "db.dsTypes.") && t[j4 + 3] == 'd' && At(t, j5, dtype)
            && t[j6] == ',' && t[j6 + 1] == ' ' && t[j6 + 2] == '"' && At(t, j6 + 3, descr)
            && t[j8] == '"' && t[j8 + 1] == ',' && t[j8 + 2] == ' ' && t[j8 + 3] == '{' && At(t, j8 + 4, body)
            && t[j10] == '}' && t[j10 + 1] == ')'
  {
    HeadLayout(t, b, cc, period, CallTail(dtype, descr, body), m, j2, j4);
    TailLayout(t, j4 + 3, dtype, descr, body, j5, j6, j8, j10);
  }

  /**
   * A call in the layout of the data files, wherever it stands in the text, is
   * a match of the pattern for its country code that spans exactly the call and
   * captures its period, its type and its body.
   */
  lemma CallMatched(pre: string, cc: string, period: string, dtype: string, descr: string, body: string, post: string)
    requires WellFormedParts(cc, period, dtype, descr, body)
    ensures MatchAt(pre + Call(cc, period, dtype, descr, body) + post, cc, |pre|)
            == Some(Match(|pre|, |pre| + |Call(cc, period, dtype, descr, body)|, period, dtype, body))
  {
    var t := pre + Call(cc, period, dtype, descr, body) + post;
    var b := |pre|;
    var m := b + 10;
    var j2 := m + 13 + |cc|;
    var j4 := j2 + 3 + |period|;
    var j5 := j4 + 14;
    var j6 := j5 + |dtype|;
    var j8 := j6 + 3 + |descr|;
    var j10 := j8 + 4 + |body|;
    AtWhole(pre, Call(cc, period, dtype, descr, body), post);
    CallLayout(t, b, cc, period, dtype, descr, body, m, j2, j4, j5, j6, j8, j10);
    PatternRun(t, cc, period, dtype, descr, body, b, m, j2, j4, j5, j6, j8, j10);
    CallLength(cc, period, dtype, descr, body);
  }
}
