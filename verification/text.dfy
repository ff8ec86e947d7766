/** The two JavaScript string operations the handlers rely on:
    `String.prototype.trim` and `slice(0, n)`. Strings are sequences of
    Unicode characters; JavaScript counts UTF-16 code units instead, which
    agrees on text inside the Basic Multilingual Plane. */
module Text {

  /** The characters `trim` removes: ECMAScript WhiteSpace and LineTerminator. */
  predicate IsWS(c: char) {
    || c == '\t' || c == '\n' || c == '\U{000B}' || c == '\U{000C}' || c == '\r'
    || c == ' ' || c == '\U{00A0}' || c == '\U{1680}' || ('\U{2000}' <= c <= '\U{200A}')
    || c == '\U{2028}' || c == '\U{2029}' || c == '\U{202F}' || c == '\U{205F}'
    || c == '\U{3000}' || c == '\U{FEFF}'
  }

  predicate AllWS(s: string) {
    forall k :: 0 <= k < |s| ==> IsWS(s[k])
  }

  function Min(a: int, b: int): int {
    if a <= b then a else b
  }

  /** `s.slice(0, n)`: the first `n` elements, or all of `s` when it is shorter. */
  function Take<T>(s: seq<T>, n: nat): (r: seq<T>)
    ensures |r| == Min(|s|, n)
    ensures r == s[..|r|]
  {
    if |s| <= n then s else s[..n]
  }

  /** A sequence no longer than `n` is its own first `n` elements. */
  lemma TakeAll<T>(s: seq<T>, n: nat)
    requires |s| <= n
    ensures Take(s, n) == s
  {
  }

  /** Taking `|a|` elements of `a + b` gives back `a`. */
  lemma TakeFront<T>(a: seq<T>, b: seq<T>)
    ensures Take(a + b, |a|) == a
  {
    assert (a + b)[..|a|] == a;
  }

  lemma AppendAssoc<T>(a: seq<T>, b: seq<T>, c: seq<T>)
    ensures a + (b + c) == a + b + c
  {
  }

  lemma AppendAssoc4<T>(a: seq<T>, b: seq<T>, c: seq<T>, d: seq<T>)
    ensures a + (b + c + d) == a + b + c + d
  {
  }

  /** A prefix of a prefix is a prefix. */
  lemma PrefixOfPrefix<T>(r: seq<T>, a: seq<T>, b: seq<T>)
    requires |a + b| <= |r| && r[..|a + b|] == a + b
    ensures r[..|a|] == a
  {
    assert r[..|a|] == (r[..|a + b|])[..|a|];
    assert (a + b)[..|a|] == a;
  }

  /** The first index at or after `i` that does not hold whitespace, or
      `|s|` when there is none. */
  function SkipWS(s: string, i: nat): (j: nat)
    requires i <= |s|
    ensures i <= j <= |s|
    ensures forall k :: i <= k < j ==> IsWS(s[k])
    ensures j < |s| ==> !IsWS(s[j])
    decreases |s| - i
  {
    if i < |s| && IsWS(s[i]) then SkipWS(s, i + 1) else i
  }

  /** The least index `i` down to `lo` such that `s[i..j]` is all
      whitespace. */
  function BackWS(s: string, lo: nat, j: nat): (i: nat)
    requires lo <= j <= |s|
    ensures lo <= i <= j
    ensures forall k :: i <= k < j ==> IsWS(s[k])
    ensures lo < i ==> !IsWS(s[i - 1])
    decreases j
  {
    if lo < j && IsWS(s[j - 1]) then BackWS(s, lo, j - 1) else j
  }

  /** Where the trimmed part of `s` starts. */
  function TrimOffset(s: string): (a: nat)
    ensures a <= |s|
  {
    SkipWS(s, 0)
  }

  /** Where the trimmed part of `s` ends. */
  function TrimLimit(s: string): (b: nat)
    ensures TrimOffset(s) <= b <= |s|
  {
    BackWS(s, TrimOffset(s), |s|)
  }

  /** `s.trim()`: the part of `s` between its first and last
      non-whitespace characters; empty exactly when `s` is all whitespace. */
  function Trim(s: string): (r: string)
    ensures |r| <= |s|
    ensures r != [] ==> !IsWS(r[0]) && !IsWS(r[|r| - 1])
    ensures r == [] <==> AllWS(s)
  {
    var a := TrimOffset(s);
    var b := TrimLimit(s);
    assert b > a ==> s[a..b][0] == s[a] && s[a..b][b - a - 1] == s[b - 1];
    assert a < |s| ==> a < b;
    s[a..b]
  }

  /** What `trim` removes is whitespace on both sides: the result is a
      contiguous part of `s` with only whitespace before and after it. */
  lemma TrimIsSlice(s: string)
    ensures var r, a := Trim(s), TrimOffset(s);
      && a + |r| <= |s| && r == s[a..a + |r|]
      && AllWS(s[..a]) && AllWS(s[a + |r|..])
  {
    var a, b := TrimOffset(s), TrimLimit(s);
    assert Trim(s) == s[a..b];
    forall k | 0 <= k < a ensures IsWS(s[..a][k]) {
      assert s[..a][k] == s[k];
    }
    forall k | 0 <= k < |s| - b ensures IsWS(s[b..][k]) {
      assert s[b..][k] == s[b + k];
    }
  }

  /** A string with no whitespace at either end is its own trim. */
  lemma TrimOfTrimmed(r: string)
    requires r != [] ==> !IsWS(r[0]) && !IsWS(r[|r| - 1])
    ensures Trim(r) == r
  {
    if r != [] {
      assert SkipWS(r, 0) == 0;
      assert BackWS(r, 0, |r|) == |r|;
      assert r[0..|r|] == r;
    }
  }

  /** No whitespace at either end. */
  predicate Trimmed(s: string) {
    s != [] ==> !IsWS(s[0]) && !IsWS(s[|s| - 1])
  }

  /** `t` is `raw` with its whitespace cut from both ends: a piece of `raw`
      with no whitespace at its own ends and only whitespace around it. */
  ghost predicate IsTrimOf(t: string, raw: string) {
    && Trimmed(t)
    && exists a: nat :: TrimmedAt(t, raw, a)
  }

  /** `t` sits in `raw` at `a` with only whitespace before and after it. */
  ghost predicate TrimmedAt(t: string, raw: string, a: nat) {
    && a + |t| <= |raw| && raw[a..a + |t|] == t
    && AllWS(raw[..a]) && AllWS(raw[a + |t|..])
  }

  /** `Trim` meets that description. */
  lemma TrimIsTrimOf(raw: string)
    ensures IsTrimOf(Trim(raw), raw)
  {
    TrimIsSlice(raw);
    assert TrimmedAt(Trim(raw), raw, TrimOffset(raw));
  }

  /** Only `Trim` meets it: the description fixes the result. */
  lemma TrimOfUnique(t: string, raw: string)
    requires IsTrimOf(t, raw)
    ensures t == Trim(raw)
  {
    var a: nat :| TrimmedAt(t, raw, a);
    if t == [] {
      assert AllWS(raw) by {
        forall k | 0 <= k < |raw| ensures IsWS(raw[k]) {
          if k < a { assert raw[..a][k] == raw[k]; }
          else { assert raw[a..][k - a] == raw[k]; }
        }
      }
    } else {
      var e := a + |t|;
      assert raw[a] == t[0] && raw[e - 1] == t[|t| - 1];
      assert forall k :: 0 <= k < a ==> raw[..a][k] == raw[k];
      assert forall k :: e <= k < |raw| ==> raw[e..][k - e] == raw[k];
      assert SkipWS(raw, 0) == a;
      assert BackWS(raw, a, |raw|) == e;
      assert Trim(raw) == raw[a..e];
    }
  }
}
