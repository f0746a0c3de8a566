/** Characters, whitespace runs and the non-whitespace projection of a string. */
module Whitespace {

  /** The class `\s` of Python's regular expressions on `str`: every character
      for which `str.isspace()` holds. */
  predicate IsWs(c: char) {
    var n := c as int;
    (0x09 <= n <= 0x0D) || (0x1C <= n <= 0x20) || n == 0x85 || n == 0xA0 || n == 0x1680
    || (0x2000 <= n <= 0x200A) || n == 0x2028 || n == 0x2029 || n == 0x202F
    || n == 0x205F || n == 0x3000
  }

  predicate AllWs(s: string) {
    forall i :: 0 <= i < |s| ==> IsWs(s[i])
  }

  /** `s` holds no whitespace at all. */
  predicate NoWs(s: string) {
    forall i :: 0 <= i < |s| ==> !IsWs(s[i])
  }

  /** `s` is empty or begins with a non-whitespace character, so a whitespace
      run that ends just before `s` is maximal on its right. */
  predicate StartsNonWs(s: string) {
    |s| == 0 || !IsWs(s[0])
  }

  /** Length of the whitespace run at the front of `s`. */
  function WsRun(s: string): (n: nat)
    ensures n <= |s|
    ensures forall i :: 0 <= i < n ==> IsWs(s[i])
    ensures n < |s| ==> !IsWs(s[n])
    decreases |s|
  {
    if |s| == 0 || !IsWs(s[0]) then 0 else 1 + WsRun(s[1..])
  }

  /** A whitespace run followed by a non-whitespace character (or the end) is
      exactly the run that WsRun measures. */
  lemma {:induction false} WsRunOfRun(r: string, x: string)
    requires AllWs(r) && StartsNonWs(x)
    ensures WsRun(r + x) == |r|
    decreases |r|
  {
    if |r| > 0 {
      assert (r + x)[1..] == r[1..] + x;
      WsRunOfRun(r[1..], x);
    } else {
      assert r + x == x;
    }
  }

  /** Length of `s` without its trailing whitespace run. */
  function TrimEnd(s: string): (n: nat)
    ensures n <= |s|
    ensures AllWs(s[n..])
    ensures n > 0 ==> !IsWs(s[n - 1])
    decreases |s|
  {
    if |s| == 0 || !IsWs(s[|s| - 1]) then |s|
    else
      var n := TrimEnd(s[..|s| - 1]);
      assert s[n..] == s[..|s| - 1][n..] + [s[|s| - 1]];
      n
  }

  /** The non-whitespace characters of `s`, in order. */
  function NonWs(s: string): (r: string)
    ensures |r| <= |s|
    ensures forall i :: 0 <= i < |r| ==> !IsWs(r[i])
    decreases |s|
  {
    if |s| == 0 then ""
    else (if IsWs(s[0]) then "" else [s[0]]) + NonWs(s[1..])
  }

  lemma {:induction false} NonWsAppend(a: string, b: string)
    ensures NonWs(a + b) == NonWs(a) + NonWs(b)
    decreases |a|
  {
    if |a| == 0 {
      assert a + b == b;
    } else {
      assert (a + b)[1..] == a[1..] + b;
      NonWsAppend(a[1..], b);
    }
  }

  lemma {:induction false} NonWsOfWs(r: string)
    requires AllWs(r)
    ensures NonWs(r) == ""
    decreases |r|
  {
    if |r| > 0 {
      NonWsOfWs(r[1..]);
    }
  }

  /** Trailing whitespace holds no non-whitespace character. */
  lemma TrimEndNonWs(s: string)
    ensures NonWs(s[..TrimEnd(s)]) == NonWs(s)
  {
    var n := TrimEnd(s);
    assert s == s[..n] + s[n..];
    NonWsAppend(s[..n], s[n..]);
    NonWsOfWs(s[n..]);
  }

  /** Leading whitespace holds no non-whitespace character. */
  lemma WsRunNonWs(s: string)
    ensures NonWs(s[WsRun(s)..]) == NonWs(s)
  {
    var n := WsRun(s);
    assert s == s[..n] + s[n..];
    NonWsAppend(s[..n], s[n..]);
    NonWsOfWs(s[..n]);
  }

  /** Text with a non-whitespace character that ends in whitespace splits into
      a non-empty part ending in a non-whitespace character and its trailing run. */
  lemma TrimEndOfText(x: string)
    requires |x| > 0 && IsWs(x[|x| - 1]) && NonWs(x) != ""
    ensures 0 < TrimEnd(x) < |x|
    ensures !IsWs(x[..TrimEnd(x)][TrimEnd(x) - 1])
    ensures NonWs(x[..TrimEnd(x)]) == NonWs(x)
  {
    var k := TrimEnd(x);
    TrimEndNonWs(x);
    assert x[..0] == "";
  }

  /** Text with a non-whitespace character splits into its leading run and a
      part that starts with a non-whitespace character. */
  lemma WsRunOfText(y: string)
    requires NonWs(y) != ""
    ensures WsRun(y) < |y|
    ensures !IsWs(y[WsRun(y)..][0])
    ensures NonWs(y[WsRun(y)..]) == NonWs(y)
  {
    var m := WsRun(y);
    WsRunNonWs(y);
    assert y[|y|..] == "";
  }

  lemma AllWsJoin(a: string, b: string)
    requires AllWs(a) && AllWs(b)
    ensures AllWs(a + b)
  {
    forall i | 0 <= i < |a + b| ensures IsWs((a + b)[i]) {
      if i < |a| {
        assert (a + b)[i] == a[i];
      } else {
        assert (a + b)[i] == b[i - |a|];
      }
    }
  }

  /** Every pair of neighbouring characters of `s` satisfies `ok`. */
  predicate PairsOk(s: string, ok: (char, char) -> bool) {
    forall i :: 0 < i < |s| ==> ok(s[i - 1], s[i])
  }

  lemma PairsOkAppend(a: string, b: string, ok: (char, char) -> bool)
    requires PairsOk(a, ok) && PairsOk(b, ok)
    requires |a| > 0 && |b| > 0 ==> ok(a[|a| - 1], b[0])
    ensures PairsOk(a + b, ok)
  {
    var s := a + b;
    forall i | 0 < i < |s|
      ensures ok(s[i - 1], s[i])
    {
      if i < |a| {
        assert s[i - 1] == a[i - 1] && s[i] == a[i];
      } else if i == |a| {
        assert s[i - 1] == a[|a| - 1] && s[i] == b[0];
      } else {
        assert s[i - 1] == b[i - 1 - |a|] && s[i] == b[i - |a|];
      }
    }
  }

  lemma PairsOkSuffix(s: string, k: nat, ok: (char, char) -> bool)
    requires PairsOk(s, ok) && k <= |s|
    ensures PairsOk(s[k..], ok)
  {
    var t := s[k..];
    forall i | 0 < i < |t|
      ensures ok(t[i - 1], t[i])
    {
      assert t[i - 1] == s[k + i - 1] && t[i] == s[k + i];
    }
  }
}
