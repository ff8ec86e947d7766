/** Delimiter scanning over strings.

    Every regular expression the news parser uses but the `<source…>` one
    has the shape `OPEN([\s\S]*?)CLOSE` with literal delimiters. For such a pattern the
    leftmost match starts at the first occurrence of OPEN, and the lazy group
    ends at the first occurrence of CLOSE after it: if that OPEN has no CLOSE
    after it, no later OPEN has one either. This module computes matches
    that way and proves they are the leftmost-shortest matches. The
    `<source[^>]*>([\s\S]*?)</source>` pattern is handled by `TagGroup`. */
module Scan {
  import opened Wrappers

  /** `pat` occurs in `s` starting at index `k`. */
  predicate OccursAt(s: string, pat: string, k: nat) {
    k + |pat| <= |s| && s[k..k + |pat|] == pat
  }

  /** The first index at or after `from` where `pat` occurs in `s`. */
  function FindFrom(s: string, pat: string, from: nat): (r: Option<nat>)
    ensures r.Some? ==> from <= r.value && OccursAt(s, pat, r.value)
    ensures r.Some? ==> forall k :: from <= k < r.value ==> !OccursAt(s, pat, k)
    ensures r.None? ==> forall k :: from <= k ==> !OccursAt(s, pat, k)
    decreases |s| - from
  {
    if from + |pat| > |s| then None
    else if s[from..from + |pat|] == pat then Some(from)
    else FindFrom(s, pat, from + 1)
  }

  /** The first occurrence is the only index with "occurs here, not earlier". */
  lemma FindFromIs(s: string, pat: string, from: nat, p: nat)
    requires from <= p && OccursAt(s, pat, p)
    requires forall k :: from <= k < p ==> !OccursAt(s, pat, k)
    ensures FindFrom(s, pat, from) == Some(p)
  {
  }

  /** Occurrences in a suffix keep their offset relative to it. */
  lemma OccursShift(a: string, b: string, pat: string, k: nat)
    ensures OccursAt(a + b, pat, |a| + k) <==> OccursAt(b, pat, k)
  {
    if k + |pat| <= |b| {
      assert (a + b)[|a| + k..|a| + k + |pat|] == b[k..k + |pat|];
    }
  }

  /** A match of `OPEN([\s\S]*?)CLOSE`: OPEN starts at `open`, CLOSE at
      `close`, and the captured group is `s[open + |OPEN|..close]`. */
  datatype Span = Span(open: nat, close: nat)

  ghost predicate Delimits(s: string, openPat: string, closePat: string, sp: Span) {
    && OccursAt(s, openPat, sp.open)
    && sp.open + |openPat| <= sp.close
    && OccursAt(s, closePat, sp.close)
  }

  /** The match a JavaScript regular expression reports when searching from
      `from`: the leftmost start, and for it the shortest lazy group. */
  ghost predicate IsFirstMatch(s: string, openPat: string, closePat: string, from: nat, sp: Span) {
    && from <= sp.open
    && Delimits(s, openPat, closePat, sp)
    && (forall other: Span :: from <= other.open && Delimits(s, openPat, closePat, other) ==> sp.open <= other.open)
    && (forall c :: sp.open + |openPat| <= c < sp.close ==> !OccursAt(s, closePat, c))
  }

  /** Searches `s` from `from` for `OPEN([\s\S]*?)CLOSE`: the first OPEN,
      then the first CLOSE after it. */
  function Enclosed(s: string, openPat: string, closePat: string, from: nat): (r: Option<Span>)
    ensures r.Some? ==> && from <= r.value.open
                        && r.value.open + |openPat| <= r.value.close
                        && r.value.close + |closePat| <= |s|
  {
    match FindFrom(s, openPat, from)
    case None => None
    case Some(i) =>
      match FindFrom(s, closePat, i + |openPat|)
      case None => None
      case Some(j) => Some(Span(i, j))
  }

  /** What `Enclosed` finds is the regular expression's match, and when it
      finds nothing there is no match at all. */
  lemma EnclosedIsFirstMatch(s: string, openPat: string, closePat: string, from: nat)
    ensures var r := Enclosed(s, openPat, closePat, from);
      && (r.Some? ==> IsFirstMatch(s, openPat, closePat, from, r.value))
      && (r.None? ==> forall sp: Span :: from <= sp.open ==> !Delimits(s, openPat, closePat, sp))
  {
  }

  /** `Enclosed` is the first OPEN and the first CLOSE after it. */
  lemma EnclosedIs(s: string, openPat: string, closePat: string, from: nat, i: nat, j: nat)
    requires FindFrom(s, openPat, from) == Some(i)
    requires FindFrom(s, closePat, i + |openPat|) == Some(j)
    ensures Enclosed(s, openPat, closePat, from) == Some(Span(i, j))
  {
  }

  /** Index just past the closing delimiter of a match. */
  function End(sp: Span, closePat: string): nat {
    sp.close + |closePat|
  }

  /** The captured group of the first match, or "" when there is none:
      `(s.match(re) || [])[1] || ''`. */
  function Capture(s: string, openPat: string, closePat: string): (r: string)
    ensures |r| <= |s|
  {
    match Enclosed(s, openPat, closePat, 0)
    case None => []
    case Some(sp) => s[sp.open + |openPat|..sp.close]
  }

  /** There is at most one leftmost-shortest match from a given start. */
  lemma FirstMatchUnique(s: string, openPat: string, closePat: string, from: nat, a: Span, b: Span)
    requires IsFirstMatch(s, openPat, closePat, from, a)
    requires IsFirstMatch(s, openPat, closePat, from, b)
    ensures a == b
  {
    assert a.open <= b.open && b.open <= a.open;
    assert !(a.close < b.close) && !(b.close < a.close);
  }

  /** `Capture` returns the group of the leftmost-shortest match whenever
      there is one, and "" when there is none. */
  lemma CaptureIsFirstGroup(s: string, openPat: string, closePat: string)
    ensures var r := Capture(s, openPat, closePat);
      && (forall sp :: IsFirstMatch(s, openPat, closePat, 0, sp) ==> r == s[sp.open + |openPat|..sp.close])
      && (r != [] ==> exists sp :: IsFirstMatch(s, openPat, closePat, 0, sp)
                                   && r == s[sp.open + |openPat|..sp.close])
      && ((forall sp: Span :: !Delimits(s, openPat, closePat, sp)) ==> r == [])
  {
    EnclosedIsFirstMatch(s, openPat, closePat, 0);
    var e := Enclosed(s, openPat, closePat, 0);
    forall sp | IsFirstMatch(s, openPat, closePat, 0, sp)
      ensures Capture(s, openPat, closePat) == s[sp.open + |openPat|..sp.close]
    {
      FirstMatchUnique(s, openPat, closePat, 0, e.value, sp);
    }
  }

  /** `s.replace(/OPEN([\s\S]*?)CLOSE/g, '$1')`: every match, scanning left
      to right from the end of the previous one, is replaced by its group. */
  function ReplaceEnclosed(s: string, openPat: string, closePat: string): (r: string)
    requires closePat != []
    ensures |r| <= |s|
    ensures (forall sp: Span :: !Delimits(s, openPat, closePat, sp)) ==> r == s
    decreases |s|
  {
    EnclosedIsFirstMatch(s, openPat, closePat, 0);
    match Enclosed(s, openPat, closePat, 0)
    case None => s
    case Some(sp) =>
      s[..sp.open] + s[sp.open + |openPat|..sp.close]
      + ReplaceEnclosed(s[End(sp, closePat)..], openPat, closePat)
  }

  /** Text that holds no CLOSE of its own, wrapped once, comes out whole. */
  lemma ReplaceUnwraps(x: string, openPat: string, closePat: string)
    requires closePat != []
    requires forall k :: 0 <= k < |x| ==> !OccursAt(x + closePat, closePat, k)
    ensures ReplaceEnclosed(openPat + x + closePat, openPat, closePat) == x
  {
    var s := openPat + x + closePat;
    var n := |openPat|;
    var sp := Span(0, n + |x|);
    WrappedSpan(x, openPat, closePat);
    ReplaceStep(s, openPat, closePat, sp);
    var after := s[End(sp, closePat)..];
    assert after == [];
    ReplaceEmpty(openPat, closePat);
    var before, group := s[..0], s[n..n + |x|];
    assert before == [] && group == x;
    assert before + group + [] == x;
  }

  /** One replacement, then the rest of the string. */
  lemma ReplaceStep(s: string, openPat: string, closePat: string, sp: Span)
    requires closePat != []
    requires Enclosed(s, openPat, closePat, 0) == Some(sp)
    ensures ReplaceEnclosed(s, openPat, closePat)
         == s[..sp.open] + s[sp.open + |openPat|..sp.close]
            + ReplaceEnclosed(s[End(sp, closePat)..], openPat, closePat)
  {
  }

  lemma ReplaceEmpty(openPat: string, closePat: string)
    requires closePat != []
    ensures ReplaceEnclosed([], openPat, closePat) == []
  {
  }

  lemma WrappedSpan(x: string, openPat: string, closePat: string)
    requires forall k :: 0 <= k < |x| ==> !OccursAt(x + closePat, closePat, k)
    ensures Enclosed(openPat + x + closePat, openPat, closePat, 0) == Some(Span(0, |openPat| + |x|))
  {
    var s := openPat + x + closePat;
    assert s[..|openPat|] == openPat;
    FindFromIs(s, openPat, 0, 0);
    ClosesAfter(x, openPat, closePat);
    EnclosedIs(s, openPat, closePat, 0, 0, |openPat| + |x|);
  }

  lemma ClosesAfter(x: string, openPat: string, closePat: string)
    requires forall k :: 0 <= k < |x| ==> !OccursAt(x + closePat, closePat, k)
    ensures FindFrom(openPat + x + closePat, closePat, |openPat|) == Some(|openPat| + |x|)
  {
    var s := openPat + (x + closePat);
    var n := |openPat|;
    assert s == openPat + x + closePat;
    assert OccursAt(x + closePat, closePat, |x|) by {
      assert (x + closePat)[|x|..] == closePat;
    }
    OccursShift(openPat, x + closePat, closePat, |x|);
    forall c | n <= c < n + |x| ensures !OccursAt(s, closePat, c) {
      OccursShift(openPat, x + closePat, closePat, c - n);
    }
    FindFromIs(s, closePat, n, n + |x|);
  }

  /** A match of `OPEN[^M]*M([\s\S]*?)CLOSE` for a one-character `M`:
      OPEN at `i`, the first M after it at `g`, CLOSE at `c`. */
  ghost predicate TagMatch(s: string, openPat: string, mid: string, closePat: string, i: nat, g: nat, c: nat) {
    && OccursAt(s, openPat, i)
    && i + |openPat| <= g && OccursAt(s, mid, g)
    && (forall k :: i + |openPat| <= k < g ==> !OccursAt(s, mid, k))
    && g + |mid| <= c && OccursAt(s, closePat, c)
  }

  /** No match starts earlier, and none from the same start ends sooner. */
  ghost predicate FirstTagMatch(s: string, openPat: string, mid: string, closePat: string, i: nat, g: nat, c: nat) {
    && TagMatch(s, openPat, mid, closePat, i, g, c)
    && forall i': nat, g': nat, c': nat :: TagMatch(s, openPat, mid, closePat, i', g', c') ==> i <= i' && (i' == i ==> c <= c')
  }

  /** `t` is what `(s.match(re) || [])[1] || ''` yields for that pattern:
      the group of the first match whenever there is one, and "" when
      nothing matches. */
  ghost predicate IsTagGroup(s: string, openPat: string, mid: string, closePat: string, t: string) {
    && (forall i: nat, g: nat, c: nat :: FirstTagMatch(s, openPat, mid, closePat, i, g, c) ==> t == s[g + |mid|..c])
    && (t != [] ==> exists i: nat, g: nat, c: nat ::
          FirstTagMatch(s, openPat, mid, closePat, i, g, c) && t == s[g + |mid|..c])
    && ((forall i: nat, g: nat, c: nat :: !TagMatch(s, openPat, mid, closePat, i, g, c)) ==> t == [])
  }

  /** The first OPEN, the first M after it, and the text up to the first
      CLOSE after that; "" when any of them is missing. */
  function TagGroup(s: string, openPat: string, mid: string, closePat: string): string {
    match TagSpan(s, openPat, mid, closePat)
    case None => []
    case Some(sp) => s[sp.open + |mid|..sp.close]
  }

  /** Where M and CLOSE are after the first OPEN, if both are there. */
  function TagSpan(s: string, openPat: string, mid: string, closePat: string): (r: Option<Span>)
    ensures r.Some? ==> r.value.open + |mid| <= r.value.close <= |s|
  {
    match FindFrom(s, openPat, 0)
    case None => None
    case Some(i) => Enclosed(s, mid, closePat, i + |openPat|)
  }

  /** Looking at the first OPEN alone is enough: when it has no match, a
      later OPEN has none either. */
  lemma TagGroupIsFirstMatch(s: string, openPat: string, mid: string, closePat: string)
    ensures IsTagGroup(s, openPat, mid, closePat, TagGroup(s, openPat, mid, closePat))
  {
    match FindFrom(s, openPat, 0)
    case None =>
      NoTagOpen(s, openPat, mid, closePat);
    case Some(i) =>
      match FindFrom(s, mid, i + |openPat|)
      case None =>
        NoTagMid(s, openPat, mid, closePat, i);
      case Some(g) =>
        match FindFrom(s, closePat, g + |mid|)
        case None =>
          NoTagClose(s, openPat, mid, closePat, i, g);
        case Some(c) =>
          TagFound(s, openPat, mid, closePat, i, g, c);
  }

  lemma NoTagOpen(s: string, openPat: string, mid: string, closePat: string)
    requires FindFrom(s, openPat, 0).None?
    ensures IsTagGroup(s, openPat, mid, closePat, TagGroup(s, openPat, mid, closePat))
  {
    assert TagGroup(s, openPat, mid, closePat) == [];
  }

  lemma NoTagMid(s: string, openPat: string, mid: string, closePat: string, i: nat)
    requires FindFrom(s, openPat, 0) == Some(i)
    requires FindFrom(s, mid, i + |openPat|).None?
    ensures IsTagGroup(s, openPat, mid, closePat, TagGroup(s, openPat, mid, closePat))
  {
    assert TagSpan(s, openPat, mid, closePat) == None;
    assert TagGroup(s, openPat, mid, closePat) == [];
    assert forall i': nat, g': nat, c': nat :: !TagMatch(s, openPat, mid, closePat, i', g', c');
  }

  lemma NoTagClose(s: string, openPat: string, mid: string, closePat: string, i: nat, g: nat)
    requires FindFrom(s, openPat, 0) == Some(i)
    requires FindFrom(s, mid, i + |openPat|) == Some(g)
    requires FindFrom(s, closePat, g + |mid|).None?
    ensures IsTagGroup(s, openPat, mid, closePat, TagGroup(s, openPat, mid, closePat))
  {
    assert TagSpan(s, openPat, mid, closePat) == None;
    assert TagGroup(s, openPat, mid, closePat) == [];
    assert forall i': nat, g': nat, c': nat :: !TagMatch(s, openPat, mid, closePat, i', g', c');
  }

  lemma TagFound(s: string, openPat: string, mid: string, closePat: string, i: nat, g: nat, c: nat)
    requires FindFrom(s, openPat, 0) == Some(i)
    requires FindFrom(s, mid, i + |openPat|) == Some(g)
    requires FindFrom(s, closePat, g + |mid|) == Some(c)
    ensures IsTagGroup(s, openPat, mid, closePat, TagGroup(s, openPat, mid, closePat))
  {
    EnclosedIs(s, mid, closePat, i + |openPat|, g, c);
    TagSpanIs(s, openPat, mid, closePat, i, Span(g, c));
    TagGroupIs(s, openPat, mid, closePat, g, c);
    FirstTagIsFirst(s, openPat, mid, closePat, i, g, c);
    GroupOfFirstTag(s, openPat, mid, closePat, i, g, c);
  }

  lemma TagSpanIs(s: string, openPat: string, mid: string, closePat: string, i: nat, sp: Span)
    requires FindFrom(s, openPat, 0) == Some(i)
    requires Enclosed(s, mid, closePat, i + |openPat|) == Some(sp)
    ensures TagSpan(s, openPat, mid, closePat) == Some(sp)
  {
  }

  lemma TagGroupIs(s: string, openPat: string, mid: string, closePat: string, g: nat, c: nat)
    requires TagSpan(s, openPat, mid, closePat) == Some(Span(g, c))
    ensures TagGroup(s, openPat, mid, closePat) == s[g + |mid|..c]
  {
  }

  /** The first OPEN, its first M and the first CLOSE after that make the
      match that starts leftmost and ends soonest. */
  lemma FirstTagIsFirst(s: string, openPat: string, mid: string, closePat: string, i: nat, g: nat, c: nat)
    requires FindFrom(s, openPat, 0) == Some(i)
    requires FindFrom(s, mid, i + |openPat|) == Some(g)
    requires FindFrom(s, closePat, g + |mid|) == Some(c)
    ensures FirstTagMatch(s, openPat, mid, closePat, i, g, c)
  {
    forall i': nat, g': nat, c': nat | TagMatch(s, openPat, mid, closePat, i', g', c')
      ensures i <= i' && (i' == i ==> c <= c')
    {
      if i' == i {
        assert g <= g';
        assert !(g < g');
      }
    }
  }

  lemma GroupOfFirstTag(s: string, openPat: string, mid: string, closePat: string, i: nat, g: nat, c: nat)
    requires FirstTagMatch(s, openPat, mid, closePat, i, g, c)
    ensures IsTagGroup(s, openPat, mid, closePat, s[g + |mid|..c])
  {
    forall i': nat, g': nat, c': nat | FirstTagMatch(s, openPat, mid, closePat, i', g', c')
      ensures s[g + |mid|..c] == s[g' + |mid|..c']
    {
      FirstTagUnique(s, openPat, mid, closePat, i, g, c, i', g', c');
    }
  }

  /** There is at most one first match of the tag pattern. */
  lemma FirstTagUnique(s: string, openPat: string, mid: string, closePat: string,
                       i: nat, g: nat, c: nat, i': nat, g': nat, c': nat)
    requires FirstTagMatch(s, openPat, mid, closePat, i, g, c)
    requires FirstTagMatch(s, openPat, mid, closePat, i', g', c')
    ensures i == i' && g == g' && c == c'
  {
    assert i <= i' && i' <= i;
    assert !(g < g') && !(g' < g);
    assert c <= c' && c' <= c;
  }
}
