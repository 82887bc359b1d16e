/**
 * The parts of Go's `strings` package that the limiter's classifier uses:
 * `HasPrefix`, `TrimPrefix`, `Index` and `LastIndex` with a one-character
 * separator, and `TrimSpace`. Strings are sequences of characters.
 */
module GoStrings {

  /** Go's `unicode.IsSpace`: the Latin-1 white space characters and the
      other characters with the Unicode White_Space property. */
  predicate IsSpace(c: char) {
    || c == ' ' || c == '\t' || c == '\n' || c == '\r'
    || c == '\U{0B}' || c == '\U{0C}' || c == '\U{85}' || c == '\U{A0}'
    || c == '\U{1680}' || ('\U{2000}' <= c <= '\U{200A}')
    || c == '\U{2028}' || c == '\U{2029}' || c == '\U{202F}'
    || c == '\U{205F}' || c == '\U{3000}'
  }

  /** The white space of Go's `unicode.IsSpace` within Latin-1. */
  const LatinSpace := ['\t', '\n', '\U{0B}', '\U{0C}', '\r', ' ', '\U{85}', '\U{A0}']

  /** `unicode.IsSpace` on Latin-1 is exactly its fast-path table. */
  lemma IsSpaceLatin1(c: char)
    ensures c <= '\U{FF}' ==> (IsSpace(c) <==> c in LatinSpace)
  {
  }

  /** `strings.HasPrefix`. */
  predicate HasPrefix(s: string, prefix: string): (b: bool)
    ensures b <==> |prefix| <= |s| && forall k :: 0 <= k < |prefix| ==> s[k] == prefix[k]
  {
    |prefix| <= |s| && s[..|prefix|] == prefix
  }

  /** `strings.TrimPrefix`: drops `prefix` when `s` starts with it. */
  function TrimPrefix(s: string, prefix: string): (r: string)
    ensures HasPrefix(s, prefix) ==> prefix + r == s
    ensures !HasPrefix(s, prefix) ==> r == s
  {
    if HasPrefix(s, prefix) then
      assert s == s[..|prefix|] + s[|prefix|..];
      s[|prefix|..]
    else s
  }

  /** `strings.Index(s, string(c))`: the first position of `c`, or -1. */
  function Index(s: string, c: char): (i: int)
    ensures -1 <= i < |s|
    ensures i == -1 <==> c !in s
    ensures i >= 0 ==> s[i] == c && c !in s[..i]
  {
    if s == [] then -1
    else if s[0] == c then 0
    else
      var j := Index(s[1..], c);
      assert s == [s[0]] + s[1..];
      if j == -1 then -1
      else
        assert s[..j + 1] == [s[0]] + s[1..][..j];
        j + 1
  }

  /** `strings.LastIndex(s, string(c))`: the last position of `c`, or -1. */
  function LastIndex(s: string, c: char): (i: int)
    ensures -1 <= i < |s|
    ensures i == -1 <==> c !in s
    ensures i >= 0 ==> s[i] == c && c !in s[i + 1..]
  {
    if s == [] then -1
    else if s[|s| - 1] == c then |s| - 1
    else
      var init := s[..|s| - 1];
      assert s == init + [s[|s| - 1]];
      var j := LastIndex(init, c);
      assert j >= 0 ==> s[j + 1..] == init[j + 1..] + [s[|s| - 1]];
      j
  }

  /** The characters of `s` before the first `c` (all of `s` when there is
      none): a reference definition for slicing at `Index`. */
  function TakeUntil(s: string, c: char): (r: string)
    decreases |s|
  {
    if s == [] || s[0] == c then [] else [s[0]] + TakeUntil(s[1..], c)
  }

  lemma {:induction false} TakeUntilExcludes(s: string, c: char)
    ensures c !in TakeUntil(s, c)
    decreases |s|
  {
    if s != [] && s[0] != c {
      TakeUntilExcludes(s[1..], c);
    }
  }

  lemma {:induction false} TakeUntilIndex(s: string, c: char)
    ensures Index(s, c) == -1 ==> TakeUntil(s, c) == s
    ensures Index(s, c) >= 0 ==> TakeUntil(s, c) == s[..Index(s, c)]
    decreases |s|
  {
    if s != [] && s[0] != c {
      TakeUntilIndex(s[1..], c);
      assert s == [s[0]] + s[1..];
      if Index(s, c) >= 0 {
        assert s[..Index(s, c)] == [s[0]] + s[1..][..Index(s[1..], c)];
      }
    }
  }

  /** `strings.TrimLeftFunc(s, unicode.IsSpace)`. */
  function TrimLeftSpace(s: string): (r: string)
    ensures |r| <= |s| && r == s[|s| - |r|..]
    ensures AllSpace(s[..|s| - |r|])
    ensures r != [] ==> !IsSpace(r[0])
  {
    if s != [] && IsSpace(s[0]) then
      var r := TrimLeftSpace(s[1..]);
      assert s[..|s| - |r|] == [s[0]] + s[1..][..|s| - 1 - |r|];
      AllSpaceJoin([s[0]], s[1..][..|s| - 1 - |r|]);
      assert s[1..][|s| - 1 - |r|..] == s[|s| - |r|..];
      r
    else s
  }

  /** `strings.TrimRightFunc(s, unicode.IsSpace)`. */
  function TrimRightSpace(s: string): (r: string)
    ensures |r| <= |s| && r == s[..|r|]
    ensures AllSpace(s[|r|..])
    ensures r != [] ==> !IsSpace(r[|r| - 1])
  {
    if s != [] && IsSpace(s[|s| - 1]) then
      var r := TrimRightSpace(s[..|s| - 1]);
      assert s[|r|..] == s[..|s| - 1][|r|..] + [s[|s| - 1]];
      AllSpaceJoin(s[..|s| - 1][|r|..], [s[|s| - 1]]);
      r
    else s
  }

  /** Every character of `t` is white space. */
  predicate AllSpace(t: string) {
    forall j :: 0 <= j < |t| ==> IsSpace(t[j])
  }

  lemma AllSpaceJoin(a: string, b: string)
    requires AllSpace(a) && AllSpace(b)
    ensures AllSpace(a + b)
  {
    forall j | 0 <= j < |a + b| ensures IsSpace((a + b)[j]) {
      if j < |a| { assert (a + b)[j] == a[j]; } else { assert (a + b)[j] == b[j - |a|]; }
    }
  }

  /** `strings.TrimSpace`: `s` without its leading and trailing white space. */
  function TrimSpace(s: string): (r: string)
    ensures |r| <= |s|
    ensures r != [] ==> !IsSpace(r[0]) && !IsSpace(r[|r| - 1])
  {
    var left := TrimLeftSpace(s);
    var r := TrimRightSpace(left);
    assert r != [] ==> r[0] == left[0];
    r
  }

  /** The trimmed string is a slice `s[i..j]` of its input, and all that is
      cut off before `i` and after `j` is white space. */
  lemma TrimSpaceIsSlice(s: string)
    ensures exists i, j :: 0 <= i <= j <= |s| && TrimSpace(s) == s[i..j] && AllSpace(s[..i]) && AllSpace(s[j..])
  {
    var left := TrimLeftSpace(s);
    var r := TrimRightSpace(left);
    assert r == TrimSpace(s);
    SliceOfSuffix(s, left, r);
    var i := |s| - |left|;
    var j := i + |r|;
    assert 0 <= i <= j <= |s| && TrimSpace(s) == s[i..j] && AllSpace(s[..i]) && AllSpace(s[j..]);
  }

  /** A prefix `r` of a suffix `left` of `s` sits in `s` right where `left`
      starts, and what follows it in `left` is the rest of `s`. */
  lemma SliceOfSuffix(s: string, left: string, r: string)
    requires |left| <= |s| && left == s[|s| - |left|..]
    requires |r| <= |left| && r == left[..|r|]
    ensures s[|s| - |left|..|s| - |left| + |r|] == r
    ensures s[|s| - |left| + |r|..] == left[|r|..]
  {
  }

  /** Trimming adds no character. */
  lemma TrimSpaceKeepsChars(s: string, c: char)
    requires c !in s
    ensures c !in TrimSpace(s)
  {
    var left := TrimLeftSpace(s);
    assert c !in left by {
      forall k | 0 <= k < |left| ensures left[k] != c {
        assert left[k] == s[|s| - |left| + k];
      }
    }
    var r := TrimRightSpace(left);
    assert r == TrimSpace(s);
    forall k | 0 <= k < |r| ensures r[k] != c {
      assert r[k] == left[k];
    }
  }

  /** White space on neither end: trimming changes nothing. */
  lemma TrimSpaceUnpadded(s: string)
    requires s != [] ==> !IsSpace(s[0]) && !IsSpace(s[|s| - 1])
    ensures TrimSpace(s) == s
  {
  }

  /** Trimming twice is trimming once. */
  lemma TrimSpaceIdempotent(s: string)
    ensures TrimSpace(TrimSpace(s)) == TrimSpace(s)
  {
    TrimSpaceUnpadded(TrimSpace(s));
  }
}
