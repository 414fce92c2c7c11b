/**
 * The clean-up applied to a record body before it is handed to `JSON.parse`:
 * wrap the trimmed body in braces, delete `//` line comments, delete block
 * comments (slash-star to star-slash), and delete a comma that only whitespace separates from a `}`.
 * Each regular-expression replacement is written out as the left-to-right
 * scan that a global `replace` performs.
 */
module BodyClean {
  import opened Wrappers
  import opened JsChars

  /** `s` has the character `a` at `k` and `b` right after it. */
  predicate PairAt(s: string, k: int, a: char, b: char) {
    0 <= k < |s| - 1 && s[k] == a && s[k + 1] == b
  }

  /** `s` never has the character `a` immediately followed by `b`. */
  predicate NoPair(s: string, a: char, b: char) {
    forall k :: 0 <= k < |s| ==> !PairAt(s, k, a, b)
  }

  /** The line terminators of `s`, in order. */
  function Terminators(s: string): (r: seq<char>)
    ensures forall k :: 0 <= k < |r| ==> IsLineTerminator(r[k])
  {
    if s == [] then []
    else (if IsLineTerminator(s[0]) then [s[0]] else []) + Terminators(s[1..])
  }

  /** Index of the first line terminator of `s` at or after `i`, or `|s|`. */
  function LineEnd(s: string, i: nat): (j: nat)
    requires i <= |s|
    ensures i <= j <= |s|
    ensures forall k :: i <= k < j ==> !IsLineTerminator(s[k])
    ensures j == |s| || IsLineTerminator(s[j])
    decreases |s| - i
  {
    if i < |s| && !IsLineTerminator(s[i]) then LineEnd(s, i + 1) else i
  }

  /** `replace(/\/\/.*$/gm, "")`: from each `//` up to, not including, the end of its line. */
  function StripLineComments(s: string): (r: string)
    ensures |r| <= |s|
    ensures |r| > 0 ==> r[0] == s[0] || IsLineTerminator(r[0])
    ensures NoPair(r, '/', '/')
    ensures NoPair(s, '/', '/') ==> r == s
    decreases |s|
  {
    if |s| == 0 then []
    else if |s| >= 2 && s[0] == '/' && s[1] == '/' then
      assert PairAt(s, 0, '/', '/');
      StripLineComments(s[LineEnd(s, 2)..])
    else
      var rest := StripLineComments(s[1..]);
      var r := [s[0]] + rest;
      forall k ensures !PairAt(r, k, '/', '/') {
        if k == 0 && s[0] == '/' && |s| > 1 {
          assert s[1] != '/' && s[1..][0] == s[1];
        }
        assert !PairAt(rest, k - 1, '/', '/');
      }
      assert NoPair(s, '/', '/') ==> r == s by {
        if NoPair(s, '/', '/') {
          NoPairTail(s, '/', '/');
          assert s == [s[0]] + s[1..];
        }
      }
      r
  }

  /** The index of the star of the first star-slash pair that starts at or after `i`. */
  function CommentClose(s: string, i: nat): (r: Option<nat>)
    requires i <= |s|
    ensures r.Some? ==> i <= r.value && PairAt(s, r.value, '*', '/')
    ensures r.Some? ==> forall k :: i <= k < r.value ==> !PairAt(s, k, '*', '/')
    ensures r.None? ==> forall k :: i <= k ==> !PairAt(s, k, '*', '/')
    decreases |s| - i
  {
    if i + 1 >= |s| then None
    else if s[i] == '*' && s[i + 1] == '/' then Some(i)
    else CommentClose(s, i + 1)
  }

  /**
   * `replace(/\/\*[\s\S]*?\*\//g, "")`: each slash-star up to the first star-slash
   * that follows it; a slash-star with no star-slash after it stays.
   */
  function StripBlockComments(s: string): (r: string)
    ensures |r| <= |s|
    ensures NoPair(s, '/', '*') ==> r == s
    ensures NoPair(s, '*', '/') ==> r == s
    decreases |s|
  {
    if |s| == 0 then []
    else if |s| >= 2 && s[0] == '/' && s[1] == '*' && CommentClose(s, 2).Some? then
      assert PairAt(s, 0, '/', '*');
      StripBlockComments(s[CommentClose(s, 2).value + 2..])
    else
      var rest := StripBlockComments(s[1..]);
      assert NoPair(s, '/', '*') ==> NoPair(s[1..], '/', '*') by {
        if NoPair(s, '/', '*') {
          NoPairTail(s, '/', '*');
        }
      }
      assert NoPair(s, '*', '/') ==> NoPair(s[1..], '*', '/') by {
        if NoPair(s, '*', '/') {
          NoPairTail(s, '*', '/');
        }
      }
      assert s == [s[0]] + s[1..];
      [s[0]] + rest
  }

  /** Only whitespace stands between the start of `t` and a `}`. */
  predicate OpensOnBrace(t: string) {
    var w := FirstNonWs(t, 0);
    w < |t| && t[w] == '}'
  }

  /** The first character of `s` is a comma that `/,(\s*})/` matches. */
  predicate TrailingCommaAt(s: string) {
    |s| > 0 && s[0] == ',' && OpensOnBrace(s[1..])
  }

  /** `replace(/,(\s*})/g, "$1")`: the comma goes, the whitespace and `}` stay. */
  function StripTrailingCommas(s: string): (r: string)
    ensures |r| <= |s|
    decreases |s|
  {
    if |s| == 0 then []
    else if TrailingCommaAt(s) then
      var w := FirstNonWs(s[1..], 0);
      s[1..][..w + 1] + StripTrailingCommas(s[1..][w + 1..])
    else
      [s[0]] + StripTrailingCommas(s[1..])
  }

  /**
   * Reference definition: every character of `s` in order, except the commas
   * that whitespace alone separates from a following `}`.
   */
  function DropTrailingCommas(s: string): (r: string)
    decreases |s|
  {
    if |s| == 0 then []
    else (if TrailingCommaAt(s) then [] else [s[0]]) + DropTrailingCommas(s[1..])
  }

  lemma DropCommaFree(t: string, n: nat)
    requires n <= |t|
    requires forall k :: 0 <= k < n ==> t[k] != ','
    ensures DropTrailingCommas(t) == t[..n] + DropTrailingCommas(t[n..])
  {
    assert t == t[..n] + t[n..];
    DropKeepsPrefix(t[..n], t[n..]);
  }

  /** The scan performed by the regular expression deletes exactly the reference's commas. */
  lemma {:induction false} StripTrailingCommasDropsExactly(s: string)
    ensures StripTrailingCommas(s) == DropTrailingCommas(s)
    decreases |s|
  {
    if |s| == 0 {
    } else if TrailingCommaAt(s) {
      var t := s[1..];
      var w := FirstNonWs(t, 0);
      StripTrailingCommasDropsExactly(t[w + 1..]);
      forall k | 0 <= k < w + 1 ensures t[k] != ',' {
        if k < w { assert IsWhitespace(t[k]); }
      }
      DropCommaFree(t, w + 1);
    } else {
      StripTrailingCommasDropsExactly(s[1..]);
    }
  }

  /** A comma followed by whitespace and `}` is removed; the whitespace and brace remain. */
  lemma TrailingCommaRemoved(a: string, ws: string, b: string)
    requires forall k :: 0 <= k < |a| ==> a[k] != ','
    requires forall k :: 0 <= k < |ws| ==> IsWhitespace(ws[k])
    ensures StripTrailingCommas(a + "," + ws + "}" + b) == a + ws + "}" + StripTrailingCommas(b)
  {
    var s := a + "," + ws + "}" + b;
    DropCommaBeforeBrace(a, ws, b);
    StripTrailingCommasDropsExactly(s);
    StripTrailingCommasDropsExactly(b);
  }

  /** A character other than a comma is kept, and the clean-up goes on after it. */
  lemma DropStep(x: char, t: string)
    requires x != ','
    ensures DropTrailingCommas([x] + t) == [x] + DropTrailingCommas(t)
  {
    assert ([x] + t)[1..] == t;
  }

  /** Text without commas is kept in front of the rest's clean-up. */
  lemma {:induction false} DropKeepsPrefix(a: string, r: string)
    requires forall k :: 0 <= k < |a| ==> a[k] != ','
    ensures DropTrailingCommas(a + r) == a + DropTrailingCommas(r)
    decreases |a|
  {
    if |a| > 0 {
      ConsSplit(a, r);
      ConsSplit(a, DropTrailingCommas(r));
      assert forall k :: 0 <= k < |a[1..]| ==> a[1..][k] == a[k + 1];
      DropKeepsPrefix(a[1..], r);
      DropStep(a[0], a[1..] + r);
    } else {
      assert a + r == r;
    }
  }

  /** A comma that only whitespace separates from a `}` is dropped. */
  lemma DropCommaStep(u: string)
    requires OpensOnBrace(u)
    ensures DropTrailingCommas("," + u) == DropTrailingCommas(u)
  {
    assert ("," + u)[1..] == u;
    assert TrailingCommaAt("," + u);
  }

  /** The two ways of grouping the texts around the dropped comma. */
  lemma CommaBraceAssoc(a: string, ws: string, b: string, x: string)
    ensures a + "," + ws + "}" + b == a + ("," + (ws + ("}" + b)))
    ensures a + ws + "}" + x == a + (ws + ("}" + x))
  {
  }

  lemma DropCommaBeforeBrace(a: string, ws: string, b: string)
    requires forall k :: 0 <= k < |a| ==> a[k] != ','
    requires forall k :: 0 <= k < |ws| ==> IsWhitespace(ws[k])
    ensures DropTrailingCommas(a + "," + ws + "}" + b) == a + ws + "}" + DropTrailingCommas(b)
  {
    CommaBraceAssoc(a, ws, b, DropTrailingCommas(b));
    var u := ws + ("}" + b);
    assert forall k :: 0 <= k < |ws| ==> u[k] == ws[k] && ws[k] != ',';
    assert u[|ws|] == '}';
    FirstNonWsAt(u, |ws|);
    DropKeepsPrefix(a, "," + u);
    DropCommaStep(u);
    DropKeepsPrefix(ws, "}" + b);
    DropStep('}', b);
  }

  lemma FirstNonWsAt(t: string, w: nat)
    requires w < |t| && !IsWhitespace(t[w])
    requires forall k :: 0 <= k < w ==> IsWhitespace(t[k])
    ensures FirstNonWs(t, 0) == w
  {
  }

  lemma {:induction false} TerminatorsAfter(s: string, n: nat)
    requires n <= |s|
    requires forall k :: 0 <= k < n ==> !IsLineTerminator(s[k])
    ensures Terminators(s) == Terminators(s[n..])
    decreases n
  {
    if n > 0 {
      TerminatorsAfter(s[1..], n - 1);
      assert s[1..][n - 1..] == s[n..];
    }
  }

  /** Deleting line comments never deletes a line break. */
  lemma {:induction false} LineCommentsKeepLineBreaks(s: string)
    ensures Terminators(StripLineComments(s)) == Terminators(s)
    decreases |s|
  {
    if |s| == 0 {
    } else if |s| >= 2 && s[0] == '/' && s[1] == '/' {
      var e := LineEnd(s, 2);
      LineCommentsKeepLineBreaks(s[e..]);
      TerminatorsAfter(s, e);
    } else {
      LineCommentsKeepLineBreaks(s[1..]);
      assert [s[0]] + StripLineComments(s[1..]) == StripLineComments(s);
      assert ([s[0]] + StripLineComments(s[1..]))[1..] == StripLineComments(s[1..]);
    }
  }

  /** Where the line comment at the start of `//`, `c`, a line break and `b` ends. */
  lemma LineCommentShape(c: string, nl: char, b: string)
    requires forall k :: 0 <= k < |c| ==> !IsLineTerminator(c[k])
    requires IsLineTerminator(nl)
    ensures var s := "//" + c + [nl] + b;
            PairAt(s, 0, '/', '/') && LineEnd(s, 2) == 2 + |c| && s[2 + |c|..] == [nl] + b
  {
    var s := "//" + c + [nl] + b;
    assert forall k :: 2 <= k < 2 + |c| ==> s[k] == c[k - 2];
    assert IsLineTerminator(s[2 + |c|]);
    assert s[2 + |c|..] == [nl] + b;
  }

  lemma LineCommentAtStart(c: string, nl: char, b: string)
    requires forall k :: 0 <= k < |c| ==> !IsLineTerminator(c[k])
    requires IsLineTerminator(nl)
    ensures StripLineComments("//" + c + [nl] + b) == [nl] + StripLineComments(b)
  {
    LineCommentShape(c, nl, b);
    LineStep(nl, b);
  }

  /** Dropping the first character of a text without `//` keeps it without `//`. */
  lemma NoPairTail(a: string, x: char, y: char)
    requires |a| > 0 && NoPair(a, x, y)
    ensures NoPair(a[1..], x, y)
  {
    forall k ensures !PairAt(a[1..], k, x, y) {
      assert !PairAt(a, k + 1, x, y);
    }
  }

  /** A character that does not open a `//` stays, and the scan goes on after it. */
  lemma LineStep(x: char, t: string)
    requires !(x == '/' && |t| > 0 && t[0] == '/')
    ensures StripLineComments([x] + t) == [x] + StripLineComments(t)
  {
    assert ([x] + t)[1..] == t;
  }

  /** A non-empty text is its first character followed by the rest. */
  lemma ConsSplit(a: string, r: string)
    requires |a| > 0
    ensures a + r == [a[0]] + (a[1..] + r)
  {
    assert a == [a[0]] + a[1..];
  }

  /** Text without `//` that does not end in `/` is kept in front of the rest's clean-up. */
  lemma {:induction false} KeepLinePrefix(a: string, r: string)
    requires NoPair(a, '/', '/') && (|a| == 0 || a[|a| - 1] != '/')
    ensures StripLineComments(a + r) == a + StripLineComments(r)
    decreases |a|
  {
    if |a| > 0 {
      var t := a[1..] + r;
      ConsSplit(a, r);
      ConsSplit(a, StripLineComments(r));
      NoPairTail(a, '/', '/');
      KeepLinePrefix(a[1..], r);
      if |a| > 1 {
        assert t[0] == a[1] && !PairAt(a, 0, '/', '/');
      }
      LineStep(a[0], t);
    } else {
      assert a + r == r;
    }
  }

  /** A `//` comment goes up to its line break, which stays; text before it stays. */
  lemma LineCommentRemoved(a: string, c: string, nl: char, b: string)
    requires NoPair(a, '/', '/') && (|a| == 0 || a[|a| - 1] != '/')
    requires forall k :: 0 <= k < |c| ==> !IsLineTerminator(c[k])
    requires IsLineTerminator(nl)
    ensures StripLineComments(a + ("//" + c + [nl] + b)) == a + [nl] + StripLineComments(b)
  {
    AppendAssoc(a, [nl], StripLineComments(b));
    LineCommentAtStart(c, nl, b);
    KeepLinePrefix(a, "//" + c + [nl] + b);
  }

  lemma AppendAssoc(a: string, x: string, y: string)
    ensures a + (x + y) == a + x + y
  {
  }

  /** Where the block comment at the start of slash-star, `c`, star-slash and `b` closes. */
  lemma BlockCommentShape(c: string, b: string)
    requires NoPair(c, '*', '/')
    ensures var s := "/*" + c + "*/" + b;
            PairAt(s, 0, '/', '*') && CommentClose(s, 2) == Some(2 + |c|) && s[4 + |c|..] == b
  {
    var s := "/*" + c + "*/" + b;
    assert PairAt(s, 2 + |c|, '*', '/');
    forall k | 2 <= k < 2 + |c| ensures !PairAt(s, k, '*', '/') {
      if k + 1 < 2 + |c| {
        assert s[k] == c[k - 2] && s[k + 1] == c[k - 1];
        assert !PairAt(c, k - 2, '*', '/');
      } else {
        assert s[k + 1] == '*';
      }
    }
    assert s[4 + |c|..] == b;
  }

  lemma BlockCommentAtStart(c: string, b: string)
    requires NoPair(c, '*', '/')
    ensures StripBlockComments("/*" + c + "*/" + b) == StripBlockComments(b)
  {
    BlockCommentShape(c, b);
  }

  /** A character that does not open a block comment stays, and the scan goes on after it. */
  lemma BlockStep(x: char, t: string)
    requires !(x == '/' && |t| > 0 && t[0] == '*')
    ensures StripBlockComments([x] + t) == [x] + StripBlockComments(t)
  {
    assert ([x] + t)[1..] == t;
  }

  /** Text without a slash-star, followed by text that does not start with `*`, is kept in front. */
  lemma {:induction false} KeepBlockPrefix(a: string, r: string)
    requires NoPair(a, '/', '*') && (|r| == 0 || r[0] != '*')
    ensures StripBlockComments(a + r) == a + StripBlockComments(r)
    decreases |a|
  {
    if |a| > 0 {
      var t := a[1..] + r;
      ConsSplit(a, r);
      ConsSplit(a, StripBlockComments(r));
      NoPairTail(a, '/', '*');
      KeepBlockPrefix(a[1..], r);
      if |a| > 1 {
        assert t[0] == a[1] && !PairAt(a, 0, '/', '*');
      }
      BlockStep(a[0], t);
    } else {
      assert a + r == r;
    }
  }

  /** A closed block comment is deleted up to its first star-slash; text before it stays. */
  lemma BlockCommentRemoved(a: string, c: string, b: string)
    requires NoPair(a, '/', '*')
    requires NoPair(c, '*', '/')
    ensures StripBlockComments(a + ("/*" + c + "*/" + b)) == a + StripBlockComments(b)
  {
    BlockCommentAtStart(c, b);
    KeepBlockPrefix(a, "/*" + c + "*/" + b);
  }

  /**
   * The clean-up of a captured body after `stage` of its steps: 0 trims it and
   * puts it back between braces, 1 strips line comments, 2 block comments and
   * 3 trailing commas.
   */
  function Cleaned(body: string, stage: nat): string
    requires stage <= 3
  {
    if stage == 0 then "{" + Trim(body) + "}"
    else if stage == 1 then StripLineComments(Cleaned(body, 0))
    else if stage == 2 then StripBlockComments(Cleaned(body, 1))
    else StripTrailingCommas(Cleaned(body, 2))
  }

  /** What `JSON.parse` receives for a body captured between the braces of a record. */
  function CleanBody(body: string): string {
    Cleaned(body, 3)
  }

  /** The clean-up is the three `replace` calls, in order, on the trimmed body between braces. */
  lemma CleanBodySteps(body: string)
    ensures CleanBody(body) == StripTrailingCommas(StripBlockComments(StripLineComments("{" + Trim(body) + "}")))
  {
    assert Cleaned(body, 1) == StripLineComments("{" + Trim(body) + "}");
    assert Cleaned(body, 2) == StripBlockComments(Cleaned(body, 1));
  }

  lemma NoCharNoPair(s: string, x: char, y: char)
    requires x !in s
    ensures NoPair(s, x, y)
  {
    forall k ensures !PairAt(s, k, x, y) {
      if 0 <= k < |s| {
        assert s[k] in s;
      }
    }
  }

  /** Clean-up of a body with no comments and a trailing comma: only that comma goes. */
  lemma CleanCommentFree(body: string, inner: string, ws: string)
    requires Trim(body) == inner + "," + ws
    requires '/' !in inner && ',' !in inner && '/' !in ws
    requires forall k :: 0 <= k < |ws| ==> IsWhitespace(ws[k])
    ensures CleanBody(body) == "{" + inner + ws + "}"
  {
    var wrapped := "{" + Trim(body) + "}";
    CleanBodySteps(body);
    assert '/' !in wrapped;
    assert StripBlockComments(StripLineComments(wrapped)) == wrapped by {
      NoCharNoPair(wrapped, '/', '/');
      NoCharNoPair(wrapped, '/', '*');
    }
    var front := "{" + inner;
    assert ',' !in front;
    assert forall k :: 0 <= k < |front| ==> front[k] in front;
    assert wrapped == front + "," + ws + "}" + "";
    TrailingCommaRemoved(front, ws, "");
  }

  lemma EndNonWsAt(t: string, e: nat)
    requires 0 < e <= |t| && !IsWhitespace(t[e - 1])
    requires forall k :: e <= k < |t| ==> IsWhitespace(t[k])
    ensures EndNonWs(t, |t|) == e
  {
  }

  /** Trimming whitespace from around a text that starts and ends with other characters gives the text. */
  lemma TrimAround(pre: string, mid: string, post: string)
    requires forall k :: 0 <= k < |pre| ==> IsWhitespace(pre[k])
    requires forall k :: 0 <= k < |post| ==> IsWhitespace(post[k])
    requires |mid| > 0 && !IsWhitespace(mid[0]) && !IsWhitespace(mid[|mid| - 1])
    ensures Trim(pre + mid + post) == mid
  {
    var s := pre + mid + post;
    var i := |pre|;
    var j := |pre| + |mid|;
    assert s[i] == mid[0] && s[j - 1] == mid[|mid| - 1];
    assert forall k :: 0 <= k < i ==> s[k] == pre[k];
    assert forall k :: j <= k < |s| ==> s[k] == post[k - j];
    FirstNonWsAt(s, i);
    EndNonWsAt(s, j);
    assert s[i..j] == mid;
  }

  /** The facts about the characters of the trailing-comma example that its clean-up needs. */
  lemma TrailingCommaLiteral(body: string, inner: string)
    requires body == " \"a\": 5, " && inner == "\"a\": 5"
    ensures body == " " + (inner + ",") + " " && inner + "," + "" == inner + ","
    ensures "{" + inner + "" + "}" == "{\"a\": 5}"
    ensures '/' !in inner && ',' !in inner
    ensures !IsWhitespace((inner + ",")[0]) && !IsWhitespace((inner + ",")[|inner|])
  {
  }

  /** A body ending in a trailing comma is made acceptable to `JSON.parse`. */
  lemma CleanBodyTrailingCommaExample(body: string)
    requires body == " \"a\": 5, "
    ensures CleanBody(body) == "{\"a\": 5}"
  {
    var inner := "\"a\": 5";
    TrailingCommaLiteral(body, inner);
    TrimAround(" ", inner + ",", " ");
    CleanCommentFree(body, inner, "");
  }

  /** Clean-up of a body with no comments and no commas: it is only trimmed and put between braces. */
  lemma CleanPlain(body: string, inner: string)
    requires Trim(body) == inner
    requires '/' !in inner && ',' !in inner
    ensures CleanBody(body) == "{" + inner + "}"
  {
    var wrapped := "{" + inner + "}";
    CleanBodySteps(body);
    assert '/' !in wrapped && ',' !in wrapped;
    assert StripBlockComments(StripLineComments(wrapped)) == wrapped by {
      NoCharNoPair(wrapped, '/', '/');
      NoCharNoPair(wrapped, '/', '*');
    }
    assert forall k :: 0 <= k < |wrapped| ==> wrapped[k] in wrapped;
    StripTrailingCommasDropsExactly(wrapped);
    DropCommaFree(wrapped, |wrapped|);
    assert wrapped[..|wrapped|] == wrapped;
  }

  /** The facts about the characters of the plain example that its clean-up needs. */
  lemma PlainLiteral(body: string, inner: string)
    requires body == " \"other\": 21415 " && inner == "\"other\": 21415"
    ensures body == " " + inner + " " && "{" + inner + "}" == "{\"other\": 21415}"
    ensures '/' !in inner && ',' !in inner
    ensures |inner| > 0 && !IsWhitespace(inner[0]) && !IsWhitespace(inner[|inner| - 1])
  {
  }

  /** The body `{ "other": 21415 }` of the record in the comment of `fetchCountryEvData` reaches `JSON.parse` trimmed. */
  lemma CleanBodyPlainExample(body: string)
    requires body == " \"other\": 21415 "
    ensures CleanBody(body) == "{\"other\": 21415}"
  {
    var inner := "\"other\": 21415";
    PlainLiteral(body, inner);
    TrimAround(" ", inner, " ");
    CleanPlain(body, inner);
  }
}
