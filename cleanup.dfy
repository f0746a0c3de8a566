/** The two whitespace normalisations of the converter, `_cleanup_block` and
    `_cleanup_doc`, written as functions over maximal whitespace runs.

    A regular-expression substitution whose pattern matches only whitespace and
    ends in a greedy `[\n\s]*` consumes a maximal whitespace run from its first
    character on; the run is replaced when it holds enough newlines and is left
    untouched otherwise (a later start inside the same run sees fewer newlines).
    The functions below walk the string run by run in exactly that way. */
module Cleanup {
  import opened Whitespace

  // ---------------------------------------------------------------------------
  // Shape predicates
  // ---------------------------------------------------------------------------

  /** Two neighbours are acceptable when neither is a newline touching other whitespace. */
  predicate NlApart(x: char, y: char) {
    !(x == '\n' && IsWs(y)) && !(IsWs(x) && y == '\n')
  }

  /** No newline of `s` has a whitespace neighbour. */
  predicate NewlinesIsolated(s: string) {
    PairsOk(s, NlApart)
  }

  predicate NotTwoSpaces(x: char, y: char) {
    !(x == ' ' && y == ' ')
  }

  /** No two spaces of `s` are adjacent. */
  predicate NoDoubleSpace(s: string) {
    PairsOk(s, NotTwoSpaces)
  }

  /** The shape `_cleanup_block` produces. */
  predicate BlockClean(s: string) {
    NewlinesIsolated(s) && NoDoubleSpace(s)
  }

  /** `s` ends in a newline that is not preceded by other whitespace. */
  predicate EndsWithSingleNewline(s: string) {
    |s| > 0 && s[|s| - 1] == '\n' && (|s| == 1 || !IsWs(s[|s| - 2]))
  }

  /** Every maximal whitespace run of `s` holds at most one newline or is
      exactly one blank line. This is the shape `_cleanup_doc` produces. */
  predicate DocClean(s: string)
    decreases |s|
  {
    if |s| == 0 then true
    else if !IsWs(s[0]) then DocClean(s[1..])
    else
      var n := WsRun(s);
      (multiset(s[..n])['\n'] <= 1 || s[..n] == "\n\n") && DocClean(s[n..])
  }

  predicate NoTripleNewline(s: string) {
    forall i :: 0 <= i && i + 2 < |s| ==> !(s[i] == '\n' && s[i + 1] == '\n' && s[i + 2] == '\n')
  }

  // ---------------------------------------------------------------------------
  // First substitution of _cleanup_block: [\n\s]*\n[\n\s]*  ->  \n
  // ---------------------------------------------------------------------------

  /** Replaces every maximal whitespace run that holds a newline by one newline. */
  function CollapseNewlineRuns(s: string): (r: string)
    ensures |r| == 0 <==> |s| == 0
    ensures |s| > 0 && !IsWs(s[0]) ==> r[0] == s[0]
    decreases |s|
  {
    if |s| == 0 then ""
    else if !IsWs(s[0]) then [s[0]] + CollapseNewlineRuns(s[1..])
    else
      var n := WsRun(s);
      (if '\n' in s[..n] then "\n" else s[..n]) + CollapseNewlineRuns(s[n..])
  }

  lemma CollapseCharStep(c: char, x: string)
    requires !IsWs(c)
    ensures CollapseNewlineRuns([c] + x) == [c] + CollapseNewlineRuns(x)
  {
    assert ([c] + x)[1..] == x;
  }

  /** A maximal whitespace run holding a newline becomes exactly "\n"; any
      other maximal whitespace run is left as it is. */
  lemma CollapseRunStep(r: string, x: string)
    requires |r| > 0 && AllWs(r) && StartsNonWs(x)
    ensures CollapseNewlineRuns(r + x)
            == (if '\n' in r then "\n" else r) + CollapseNewlineRuns(x)
  {
    WsRunOfRun(r, x);
    assert (r + x)[..|r|] == r;
    assert (r + x)[|r|..] == x;
  }

  lemma {:induction false} CollapseIsolatesNewlines(s: string)
    ensures NewlinesIsolated(CollapseNewlineRuns(s))
    decreases |s|
  {
    if |s| == 0 {
    } else if !IsWs(s[0]) {
      CollapseIsolatesNewlines(s[1..]);
      PairsOkAppend([s[0]], CollapseNewlineRuns(s[1..]), NlApart);
    } else {
      var n := WsRun(s);
      var head := if '\n' in s[..n] then "\n" else s[..n];
      var tail := CollapseNewlineRuns(s[n..]);
      CollapseIsolatesNewlines(s[n..]);
      assert PairsOk(head, NlApart) by {
        if '\n' !in s[..n] {
          forall i | 0 < i < |head| ensures NlApart(head[i - 1], head[i]) {
            assert head[i - 1] in s[..n] && head[i] in s[..n];
          }
        }
      }
      PairsOkAppend(head, tail, NlApart);
    }
  }

  /** In a string whose newlines are isolated, a whitespace run holding a
      newline is that newline alone. */
  lemma IsolatedRun(s: string)
    requires NewlinesIsolated(s) && |s| > 0 && IsWs(s[0])
    requires '\n' in s[..WsRun(s)]
    ensures s[..WsRun(s)] == "\n"
  {
    var n := WsRun(s);
    var k :| 0 <= k < n && s[..n][k] == '\n';
    if n >= 2 {
      assert false;
    }
  }

  lemma {:induction false} CollapseIdentity(s: string)
    requires NewlinesIsolated(s)
    ensures CollapseNewlineRuns(s) == s
    decreases |s|
  {
    if |s| == 0 {
    } else if !IsWs(s[0]) {
      PairsOkSuffix(s, 1, NlApart);
      CollapseIdentity(s[1..]);
      assert s == [s[0]] + s[1..];
    } else {
      var n := WsRun(s);
      if '\n' in s[..n] {
        IsolatedRun(s);
      }
      PairsOkSuffix(s, n, NlApart);
      CollapseIdentity(s[n..]);
      assert s == s[..n] + s[n..];
    }
  }

  lemma {:induction false} CollapseKeepsNonWs(s: string)
    ensures NonWs(CollapseNewlineRuns(s)) == NonWs(s)
    decreases |s|
  {
    if |s| == 0 {
    } else if !IsWs(s[0]) {
      CollapseKeepsNonWs(s[1..]);
      NonWsAppend([s[0]], CollapseNewlineRuns(s[1..]));
    } else {
      var n := WsRun(s);
      assert s == s[..n] + s[n..];
      NonWsAppend(s[..n], s[n..]);
      NonWsOfWs(s[..n]);
      var head := if '\n' in s[..n] then "\n" else s[..n];
      CollapseKeepsNonWs(s[n..]);
      NonWsAppend(head, CollapseNewlineRuns(s[n..]));
      NonWsOfWs(head);
    }
  }

  lemma {:induction false} CollapseKeepsFinalNewline(s: string)
    requires |s| > 0 && s[|s| - 1] == '\n'
    ensures var r := CollapseNewlineRuns(s); |r| > 0 && r[|r| - 1] == '\n'
    decreases |s|
  {
    if !IsWs(s[0]) {
      CollapseKeepsFinalNewline(s[1..]);
    } else {
      var n := WsRun(s);
      if n < |s| {
        CollapseKeepsFinalNewline(s[n..]);
      } else {
        assert s[..n][|s| - 1] == '\n';
      }
    }
  }

  // ---------------------------------------------------------------------------
  // Second substitution of _cleanup_block:  ' +'  ->  ' '
  // ---------------------------------------------------------------------------

  /** Length of the run of spaces at the front of `s`. */
  function SpaceRun(s: string): (n: nat)
    ensures n <= |s|
    ensures forall i :: 0 <= i < n ==> s[i] == ' '
    ensures n < |s| ==> s[n] != ' '
    decreases |s|
  {
    if |s| == 0 || s[0] != ' ' then 0 else 1 + SpaceRun(s[1..])
  }

  /** Replaces every maximal run of spaces by a single space. */
  function SqueezeSpaces(s: string): (r: string)
    ensures |r| == 0 <==> |s| == 0
    ensures |s| > 0 ==> r[0] == s[0]
    decreases |s|
  {
    if |s| == 0 then ""
    else if s[0] != ' ' then [s[0]] + SqueezeSpaces(s[1..])
    else " " + SqueezeSpaces(s[SpaceRun(s)..])
  }

  lemma {:induction false} SpaceRunOfRun(r: string, x: string)
    requires forall i :: 0 <= i < |r| ==> r[i] == ' '
    requires |x| == 0 || x[0] != ' '
    ensures SpaceRun(r + x) == |r|
    decreases |r|
  {
    if |r| > 0 {
      assert (r + x)[1..] == r[1..] + x;
      SpaceRunOfRun(r[1..], x);
    } else {
      assert r + x == x;
    }
  }

  /** A maximal run of spaces becomes one space. */
  lemma SqueezeRunStep(r: string, x: string)
    requires |r| > 0 && forall i :: 0 <= i < |r| ==> r[i] == ' '
    requires |x| == 0 || x[0] != ' '
    ensures SqueezeSpaces(r + x) == " " + SqueezeSpaces(x)
  {
    SpaceRunOfRun(r, x);
    assert (r + x)[|r|..] == x;
  }

  lemma {:induction false} SqueezeKeepsLast(s: string)
    requires |s| > 0
    ensures var r := SqueezeSpaces(s); r[|r| - 1] == s[|s| - 1]
    decreases |s|
  {
    if s[0] != ' ' {
      if |s| > 1 {
        SqueezeKeepsLast(s[1..]);
      }
    } else {
      var n := SpaceRun(s);
      if n < |s| {
        SqueezeKeepsLast(s[n..]);
      }
    }
  }

  lemma SqueezeCharStep(c: char, x: string)
    requires c != ' '
    ensures SqueezeSpaces([c] + x) == [c] + SqueezeSpaces(x)
  {
    assert ([c] + x)[1..] == x;
  }

  lemma {:induction false} SqueezeAppend(a: string, b: string)
    requires |b| == 0 || b[0] != ' '
    ensures SqueezeSpaces(a + b) == SqueezeSpaces(a) + SqueezeSpaces(b)
    decreases |a|
  {
    if |a| == 0 {
      assert a + b == b;
    } else if a[0] != ' ' {
      var c := a[0];
      assert a + b == [c] + (a[1..] + b) && a == [c] + a[1..];
      SqueezeAppend(a[1..], b);
      SqueezeCharStep(c, a[1..] + b);
      SqueezeCharStep(c, a[1..]);
    } else {
      SqueezeAppendRun(a, b);
    }
  }

  lemma {:induction false} SqueezeAppendRun(a: string, b: string)
    requires |a| > 0 && a[0] == ' '
    requires |b| == 0 || b[0] != ' '
    ensures SqueezeSpaces(a + b) == SqueezeSpaces(a) + SqueezeSpaces(b)
    decreases |a|, 0
  {
    var n := SpaceRun(a);
    var rest := a[n..] + b;
    assert a + b == a[..n] + rest;
    assert |rest| == 0 || rest[0] != ' ' by {
      if n < |a| {
        assert rest[0] == a[n];
      } else {
        assert rest == b;
      }
    }
    calc {
      SqueezeSpaces(a + b);
      SqueezeSpaces(a[..n] + rest);
      { SqueezeRunStep(a[..n], rest); }
      " " + SqueezeSpaces(rest);
      { SqueezeAppend(a[n..], b); }
      " " + (SqueezeSpaces(a[n..]) + SqueezeSpaces(b));
      (" " + SqueezeSpaces(a[n..])) + SqueezeSpaces(b);
      SqueezeSpaces(a) + SqueezeSpaces(b);
    }
  }

  lemma {:induction false} SqueezeNoDoubleSpace(s: string)
    ensures NoDoubleSpace(SqueezeSpaces(s))
    decreases |s|
  {
    if |s| == 0 {
    } else if s[0] != ' ' {
      SqueezeNoDoubleSpace(s[1..]);
      PairsOkAppend([s[0]], SqueezeSpaces(s[1..]), NotTwoSpaces);
    } else {
      var n := SpaceRun(s);
      SqueezeNoDoubleSpace(s[n..]);
      PairsOkAppend(" ", SqueezeSpaces(s[n..]), NotTwoSpaces);
    }
  }

  lemma {:induction false} SqueezeKeepsIsolation(s: string)
    requires NewlinesIsolated(s)
    ensures NewlinesIsolated(SqueezeSpaces(s))
    decreases |s|
  {
    if |s| == 0 {
    } else if s[0] != ' ' {
      PairsOkSuffix(s, 1, NlApart);
      SqueezeKeepsIsolation(s[1..]);
      if |s| > 1 {
        assert NlApart(s[0], s[1]);
      }
      PairsOkAppend([s[0]], SqueezeSpaces(s[1..]), NlApart);
    } else {
      var n := SpaceRun(s);
      PairsOkSuffix(s, n, NlApart);
      SqueezeKeepsIsolation(s[n..]);
      if n < |s| {
        assert NlApart(s[n - 1], s[n]);
      }
      PairsOkAppend(" ", SqueezeSpaces(s[n..]), NlApart);
    }
  }

  lemma {:induction false} SqueezeIdentity(s: string)
    requires NoDoubleSpace(s)
    ensures SqueezeSpaces(s) == s
    decreases |s|
  {
    if |s| == 0 {
    } else {
      PairsOkSuffix(s, 1, NotTwoSpaces);
      SqueezeIdentity(s[1..]);
      if s[0] == ' ' && |s| > 1 {
        assert NotTwoSpaces(s[0], s[1]);
      }
      assert s == [s[0]] + s[1..];
    }
  }

  lemma {:induction false} SqueezeKeepsNonWs(s: string)
    ensures NonWs(SqueezeSpaces(s)) == NonWs(s)
    decreases |s|
  {
    if |s| == 0 {
    } else if s[0] != ' ' {
      SqueezeKeepsNonWs(s[1..]);
      NonWsAppend([s[0]], SqueezeSpaces(s[1..]));
    } else {
      var n := SpaceRun(s);
      SqueezeKeepsNonWs(s[n..]);
      NonWsAppend(" ", SqueezeSpaces(s[n..]));
      assert s == s[..n] + s[n..];
      NonWsAppend(s[..n], s[n..]);
      NonWsOfWs(s[..n]);
    }
  }

  // ---------------------------------------------------------------------------
  // _cleanup_block
  // ---------------------------------------------------------------------------

  /** `_cleanup_block`: the newline-run substitution, then the space squeeze. */
  function CleanupBlock(s: string): (r: string)
    ensures |r| == 0 <==> |s| == 0
  {
    SqueezeSpaces(CollapseNewlineRuns(s))
  }

  /** No newline of the result touches other whitespace and no two spaces are adjacent. */
  lemma CleanupBlockIsClean(s: string)
    ensures BlockClean(CleanupBlock(s))
  {
    CollapseIsolatesNewlines(s);
    SqueezeKeepsIsolation(CollapseNewlineRuns(s));
    SqueezeNoDoubleSpace(CollapseNewlineRuns(s));
  }

  /** The strings `_cleanup_block` leaves unchanged are exactly the clean ones. */
  lemma CleanupBlockFixedPoints(s: string)
    ensures CleanupBlock(s) == s <==> BlockClean(s)
  {
    CleanupBlockIsClean(s);
    if BlockClean(s) {
      CollapseIdentity(s);
      SqueezeIdentity(s);
    }
  }

  lemma CleanupBlockIdempotent(s: string)
    ensures CleanupBlock(CleanupBlock(s)) == CleanupBlock(s)
  {
    CleanupBlockIsClean(s);
    CleanupBlockFixedPoints(CleanupBlock(s));
  }

  lemma CleanupBlockKeepsNonWs(s: string)
    ensures NonWs(CleanupBlock(s)) == NonWs(s)
  {
    CollapseKeepsNonWs(s);
    SqueezeKeepsNonWs(CollapseNewlineRuns(s));
  }

  /** A non-whitespace character passes through unchanged. */
  lemma CleanupBlockCharStep(c: char, x: string)
    requires !IsWs(c)
    ensures CleanupBlock([c] + x) == [c] + CleanupBlock(x)
  {
    CollapseCharStep(c, x);
    assert ([c] + CollapseNewlineRuns(x))[1..] == CollapseNewlineRuns(x);
  }

  /** A maximal whitespace run holding a newline becomes exactly "\n"; in any
      other maximal whitespace run only the runs of spaces are squeezed. */
  lemma CleanupBlockRunStep(r: string, x: string)
    requires |r| > 0 && AllWs(r) && StartsNonWs(x)
    ensures CleanupBlock(r + x)
            == (if '\n' in r then "\n" else SqueezeSpaces(r)) + CleanupBlock(x)
  {
    CollapseRunStep(r, x);
    var rest := CollapseNewlineRuns(x);
    assert |rest| == 0 || rest[0] != ' ';
    if '\n' in r {
      SqueezeAppend("\n", rest);
      assert SqueezeSpaces("\n") == "\n" by {
        assert "\n"[1..] == "";
      }
    } else {
      SqueezeAppend(r, rest);
    }
  }

  /** A text ending in a newline cleans to a text ending in exactly one newline. */
  lemma CleanupBlockFinalNewline(s: string)
    requires |s| > 0 && s[|s| - 1] == '\n'
    ensures EndsWithSingleNewline(CleanupBlock(s))
  {
    CollapseKeepsFinalNewline(s);
    SqueezeKeepsLast(CollapseNewlineRuns(s));
    CleanupBlockIsClean(s);
    var r := CleanupBlock(s);
    if |r| > 1 {
      assert NlApart(r[|r| - 2], r[|r| - 1]);
    }
  }

  /** Text without whitespace passes through `_cleanup_block` unchanged. */
  lemma {:induction false} CleanupBlockWord(w: string, x: string)
    requires NoWs(w)
    ensures CleanupBlock(w + x) == w + CleanupBlock(x)
    decreases |w|
  {
    if |w| == 0 {
      assert w + x == x;
    } else {
      var t := w[1..] + x;
      calc {
        CleanupBlock(w + x);
        { assert w + x == [w[0]] + t; }
        CleanupBlock([w[0]] + t);
        { CleanupBlockCharStep(w[0], t); }
        [w[0]] + CleanupBlock(t);
        { CleanupBlockWord(w[1..], x); }
        [w[0]] + (w[1..] + CleanupBlock(x));
        { assert [w[0]] + w[1..] == w; }
        w + CleanupBlock(x);
      }
    }
  }

  // ---------------------------------------------------------------------------
  // _cleanup_doc:  [\n\s]*\n\s*\n[\n\s]*  ->  \n\n
  // ---------------------------------------------------------------------------

  /** `_cleanup_doc`: every maximal whitespace run holding two or more newlines
      becomes one blank line; other runs are left as they are. */
  function CleanupDoc(s: string): (r: string)
    ensures |r| == 0 <==> |s| == 0
    ensures |s| > 0 && !IsWs(s[0]) ==> r[0] == s[0]
    decreases |s|
  {
    if |s| == 0 then ""
    else if !IsWs(s[0]) then [s[0]] + CleanupDoc(s[1..])
    else
      var n := WsRun(s);
      (if multiset(s[..n])['\n'] >= 2 then "\n\n" else s[..n]) + CleanupDoc(s[n..])
  }

  lemma CleanupDocRunStep(r: string, x: string)
    requires |r| > 0 && AllWs(r) && StartsNonWs(x)
    ensures CleanupDoc(r + x)
            == (if multiset(r)['\n'] >= 2 then "\n\n" else r) + CleanupDoc(x)
  {
    WsRunOfRun(r, x);
    assert (r + x)[..|r|] == r;
    assert (r + x)[|r|..] == x;
  }

  lemma CleanupDocCharStep(c: char, x: string)
    requires !IsWs(c)
    ensures CleanupDoc([c] + x) == [c] + CleanupDoc(x)
  {
    assert ([c] + x)[1..] == x;
  }

  lemma DocCleanCharStep(c: char, x: string)
    requires !IsWs(c)
    ensures DocClean([c] + x) == DocClean(x)
  {
    assert ([c] + x)[1..] == x;
  }

  lemma DocCleanRunStep(r: string, x: string)
    requires |r| > 0 && AllWs(r) && StartsNonWs(x)
    ensures DocClean(r + x) == ((multiset(r)['\n'] <= 1 || r == "\n\n") && DocClean(x))
  {
    WsRunOfRun(r, x);
    assert (r + x)[..|r|] == r;
    assert (r + x)[|r|..] == x;
  }

  /** Text without whitespace passes through `_cleanup_doc` unchanged. */
  lemma {:induction false} CleanupDocWord(w: string, x: string)
    requires NoWs(w)
    ensures CleanupDoc(w + x) == w + CleanupDoc(x)
    decreases |w|
  {
    if |w| == 0 {
      assert w + x == x;
    } else {
      var t := w[1..] + x;
      calc {
        CleanupDoc(w + x);
        { assert w + x == [w[0]] + t; }
        CleanupDoc([w[0]] + t);
        { CleanupDocCharStep(w[0], t); }
        [w[0]] + CleanupDoc(t);
        { CleanupDocWord(w[1..], x); }
        [w[0]] + (w[1..] + CleanupDoc(x));
        { assert [w[0]] + w[1..] == w; }
        w + CleanupDoc(x);
      }
    }
  }

  lemma {:induction false} CleanupDocIsClean(s: string)
    ensures DocClean(CleanupDoc(s))
    decreases |s|
  {
    if |s| == 0 {
    } else if !IsWs(s[0]) {
      CleanupDocIsClean(s[1..]);
      DocCleanCharStep(s[0], CleanupDoc(s[1..]));
    } else {
      var n := WsRun(s);
      var head := if multiset(s[..n])['\n'] >= 2 then "\n\n" else s[..n];
      CleanupDocIsClean(s[n..]);
      assert multiset("\n\n")['\n'] == 2;
      DocCleanRunStep(head, CleanupDoc(s[n..]));
    }
  }

  lemma {:induction false} CleanupDocIdentity(s: string)
    requires DocClean(s)
    ensures CleanupDoc(s) == s
    decreases |s|
  {
    if |s| == 0 {
    } else if !IsWs(s[0]) {
      CleanupDocIdentity(s[1..]);
      assert s == [s[0]] + s[1..];
    } else {
      var n := WsRun(s);
      assert multiset("\n\n")['\n'] == 2;
      CleanupDocIdentity(s[n..]);
      assert s == s[..n] + s[n..];
    }
  }

  /** The strings `_cleanup_doc` leaves unchanged are exactly the DocClean ones. */
  lemma CleanupDocFixedPoints(s: string)
    ensures CleanupDoc(s) == s <==> DocClean(s)
  {
    CleanupDocIsClean(s);
    if DocClean(s) {
      CleanupDocIdentity(s);
    }
  }

  lemma CleanupDocIdempotent(s: string)
    ensures CleanupDoc(CleanupDoc(s)) == CleanupDoc(s)
  {
    CleanupDocIsClean(s);
    CleanupDocIdentity(CleanupDoc(s));
  }

  lemma {:induction false} CleanupDocKeepsNonWs(s: string)
    ensures NonWs(CleanupDoc(s)) == NonWs(s)
    decreases |s|
  {
    if |s| == 0 {
    } else if !IsWs(s[0]) {
      CleanupDocKeepsNonWs(s[1..]);
      NonWsAppend([s[0]], CleanupDoc(s[1..]));
    } else {
      var n := WsRun(s);
      assert s == s[..n] + s[n..];
      NonWsAppend(s[..n], s[n..]);
      NonWsOfWs(s[..n]);
      var head := if multiset(s[..n])['\n'] >= 2 then "\n\n" else s[..n];
      CleanupDocKeepsNonWs(s[n..]);
      NonWsAppend(head, CleanupDoc(s[n..]));
      NonWsOfWs(head);
    }
  }

  lemma TwoNewlines(r: string, i: nat, j: nat)
    requires i < j < |r| && r[i] == '\n' && r[j] == '\n'
    ensures multiset(r)['\n'] >= 2
  {
    assert r == r[..j] + r[j..];
    assert r[..j][i] == '\n';
    assert r[j..][0] == '\n';
    assert multiset(r[..j])['\n'] >= 1;
    assert multiset(r[j..])['\n'] >= 1;
  }

  lemma {:induction false} DocCleanNoTriple(s: string)
    requires DocClean(s)
    ensures NoTripleNewline(s)
    decreases |s|
  {
    if |s| == 0 {
    } else if !IsWs(s[0]) {
      DocCleanNoTriple(s[1..]);
      forall i | 0 <= i && i + 2 < |s|
        ensures !(s[i] == '\n' && s[i + 1] == '\n' && s[i + 2] == '\n')
      {
        if i > 0 {
          assert s[1..][i - 1] == s[i];
        }
      }
    } else {
      var n := WsRun(s);
      var r := s[..n];
      DocCleanNoTriple(s[n..]);
      forall i | 0 <= i && i + 2 < |s|
        ensures !(s[i] == '\n' && s[i + 1] == '\n' && s[i + 2] == '\n')
      {
        if i >= n {
          assert s[n..][i - n] == s[i];
        } else if i + 2 < n && s[i] == '\n' && s[i + 1] == '\n' {
          TwoNewlines(r, i, i + 1);
          assert false;
        }
      }
    }
  }

  /** The result of `_cleanup_doc` never holds three newlines in a row. */
  lemma CleanupDocNoTriple(s: string)
    ensures NoTripleNewline(CleanupDoc(s))
  {
    CleanupDocIsClean(s);
    DocCleanNoTriple(CleanupDoc(s));
  }

  /** `_cleanup_doc` works piecewise when the cut does not fall inside a
      whitespace run. */
  lemma {:induction false} CleanupDocAppend(a: string, b: string)
    requires |a| == 0 || !IsWs(a[|a| - 1]) || StartsNonWs(b)
    ensures CleanupDoc(a + b) == CleanupDoc(a) + CleanupDoc(b)
    decreases |a|, 1
  {
    if |a| == 0 {
      assert a + b == b;
    } else if !IsWs(a[0]) {
      CleanupDocAppendChar(a, b);
    } else {
      CleanupDocAppendRun(a, b);
    }
  }

  lemma {:induction false} CleanupDocAppendChar(a: string, b: string)
    requires |a| > 0 && !IsWs(a[0])
    requires !IsWs(a[|a| - 1]) || StartsNonWs(b)
    ensures CleanupDoc(a + b) == CleanupDoc(a) + CleanupDoc(b)
    decreases |a|, 0
  {
    var t := a[1..];
    calc {
      CleanupDoc(a + b);
      { assert a + b == [a[0]] + (t + b); }
      CleanupDoc([a[0]] + (t + b));
      { CleanupDocCharStep(a[0], t + b); }
      [a[0]] + CleanupDoc(t + b);
      { CleanupDocAppend(t, b); }
      [a[0]] + (CleanupDoc(t) + CleanupDoc(b));
      ([a[0]] + CleanupDoc(t)) + CleanupDoc(b);
      { assert a == [a[0]] + t;
        CleanupDocCharStep(a[0], t); }
      CleanupDoc(a) + CleanupDoc(b);
    }
  }

  lemma {:induction false} CleanupDocAppendRun(a: string, b: string)
    requires |a| > 0 && IsWs(a[0])
    requires !IsWs(a[|a| - 1]) || StartsNonWs(b)
    ensures CleanupDoc(a + b) == CleanupDoc(a) + CleanupDoc(b)
    decreases |a|, 0
  {
    var n := WsRun(a);
    var r, t := a[..n], a[n..];
    var out := if multiset(r)['\n'] >= 2 then "\n\n" else r;
    if n == |a| {
      assert a == r;
      calc {
        CleanupDoc(a + b);
        { CleanupDocRunStep(r, b); }
        out + CleanupDoc(b);
        { assert r + "" == r;
          CleanupDocRunStep(r, ""); }
        CleanupDoc(a) + CleanupDoc(b);
      }
    } else {
      calc {
        CleanupDoc(a + b);
        { assert a + b == r + (t + b); }
        CleanupDoc(r + (t + b));
        { CleanupDocRunStep(r, t + b); }
        out + CleanupDoc(t + b);
        { CleanupDocAppend(t, b); }
        out + (CleanupDoc(t) + CleanupDoc(b));
        (out + CleanupDoc(t)) + CleanupDoc(b);
        { assert a == r + t;
          CleanupDocRunStep(r, t); }
        CleanupDoc(a) + CleanupDoc(b);
      }
    }
  }

  /** A final non-whitespace character survives `_cleanup_doc`. */
  lemma CleanupDocKeepsLast(s: string)
    requires |s| > 0 && !IsWs(s[|s| - 1])
    ensures var r := CleanupDoc(s); |r| > 0 && r[|r| - 1] == s[|s| - 1]
  {
    var c := s[|s| - 1];
    assert s == s[..|s| - 1] + [c];
    CleanupDocAppend(s[..|s| - 1], [c]);
    assert [c] + "" == [c];
    CleanupDocCharStep(c, "");
  }

  /** Two pieces around a whitespace run with two or more newlines come out of
      `_cleanup_doc` cleaned on their own, with one blank line between them. */
  lemma CleanupDocBlankJoin(xh: string, run: string, yt: string)
    requires |xh| > 0 && !IsWs(xh[|xh| - 1])
    requires |run| > 0 && AllWs(run) && multiset(run)['\n'] >= 2
    requires |yt| > 0 && !IsWs(yt[0])
    ensures CleanupDoc(xh + (run + yt)) == CleanupDoc(xh) + "\n\n" + CleanupDoc(yt)
  {
    calc {
      CleanupDoc(xh + (run + yt));
      { CleanupDocAppend(xh, run + yt); }
      CleanupDoc(xh) + CleanupDoc(run + yt);
      { CleanupDocRunStep(run, yt); }
      CleanupDoc(xh) + ("\n\n" + CleanupDoc(yt));
    }
  }

  lemma RegroupAtCuts(x: string, k: nat, y: string, m: nat)
    requires k <= |x| && m <= |y|
    ensures x + "\n" + y == x[..k] + ((x[k..] + "\n" + y[..m]) + y[m..])
  {
    assert x == x[..k] + x[k..];
    assert y == y[..m] + y[m..];
  }

  /** The join of `x` (ending in a newline) and `y` by one more newline, cleaned:
      `x` without its trailing run, one blank line, `y` without its leading run. */
  lemma CleanupDocSeparatesAt(x: string, y: string)
    requires |x| > 0 && x[|x| - 1] == '\n' && NonWs(x) != "" && NonWs(y) != ""
    ensures CleanupDoc(x + "\n" + y)
            == CleanupDoc(x[..TrimEnd(x)]) + "\n\n" + CleanupDoc(y[WsRun(y)..])
  {
    var k, m := TrimEnd(x), WsRun(y);
    TrimEndOfText(x);
    WsRunOfText(y);
    var xt, yh := x[k..], y[..m];
    var run := xt + "\n" + yh;
    assert AllWs(yh);
    AllWsJoin(xt, "\n");
    AllWsJoin(xt + "\n", yh);
    assert run[|xt| - 1] == '\n' && run[|xt|] == '\n';
    TwoNewlines(run, |xt| - 1, |xt|);
    RegroupAtCuts(x, k, y, m);
    CleanupDocBlankJoin(x[..k], run, y[m..]);
  }

  /** The two pieces around the blank line keep the non-whitespace characters of
      their sides and do not start or end in whitespace at the blank line. */
  lemma SeparatedPieces(x: string, y: string)
    requires |x| > 0 && x[|x| - 1] == '\n' && NonWs(x) != "" && NonWs(y) != ""
    ensures var u := CleanupDoc(x[..TrimEnd(x)]);
      NonWs(u) == NonWs(x) && |u| > 0 && !IsWs(u[|u| - 1])
    ensures var v := CleanupDoc(y[WsRun(y)..]);
      NonWs(v) == NonWs(y) && |v| > 0 && !IsWs(v[0])
  {
    var k, m := TrimEnd(x), WsRun(y);
    TrimEndOfText(x);
    WsRunOfText(y);
    var xh, yt := x[..k], y[m..];
    CleanupDocKeepsNonWs(xh);
    CleanupDocKeepsNonWs(yt);
    assert |xh| == k && !IsWs(xh[k - 1]);
    CleanupDocKeepsLast(xh);
  }

  /** Text that ends in a newline, joined by one more newline to text that holds
      a non-whitespace character, comes out of `_cleanup_doc` as two pieces with
      exactly one blank line between them: the blank line is neither lost nor
      widened, and each side keeps its own non-whitespace characters. */
  lemma CleanupDocSeparates(x: string, y: string)
    requires |x| > 0 && x[|x| - 1] == '\n' && NonWs(x) != "" && NonWs(y) != ""
    ensures exists u, v ::
      && CleanupDoc(x + "\n" + y) == u + "\n\n" + v
      && NonWs(u) == NonWs(x) && NonWs(v) == NonWs(y)
      && |u| > 0 && !IsWs(u[|u| - 1]) && |v| > 0 && !IsWs(v[0])
  {
    CleanupDocSeparatesAt(x, y);
    SeparatedPieces(x, y);
    var u, v := CleanupDoc(x[..TrimEnd(x)]), CleanupDoc(y[WsRun(y)..]);
    SplitWitness(CleanupDoc(x + "\n" + y), u, v, NonWs(x), NonWs(y));
  }

  /** Explicit pieces around a blank line witness the split. */
  lemma SplitWitness(w: string, u: string, v: string, p: string, q: string)
    requires w == u + "\n\n" + v && NonWs(u) == p && NonWs(v) == q
    requires |u| > 0 && !IsWs(u[|u| - 1]) && |v| > 0 && !IsWs(v[0])
    ensures exists u', v' ::
      && w == u' + "\n\n" + v'
      && NonWs(u') == p && NonWs(v') == q
      && |u'| > 0 && !IsWs(u'[|u'| - 1]) && |v'| > 0 && !IsWs(v'[0])
  {
  }
}
