/** The leaderboard upsert shared by the three score handlers: append the new
    record, sort descending by score with `Array.prototype.sort` and the
    comparator `(a, b) => b.score - a.score`, keep the first 20. */
module Leaderboard {
  import opened Text

  /** `MAX_ENTRIES`. */
  const MaxEntries: nat := 20

  /** The mode-specific fields of a stored record. */
  datatype Extra =
    | DropExtra(chains: int)
    | OsoujiExtra(difficulty: string)
    | RunnerExtra(laps: int, zone: string)

  /** One stored score record; `date` is the ISO timestamp taken at submission. */
  datatype Entry = Entry(name: string, score: int, extra: Extra, date: string)

  /** Non-increasing by score. */
  predicate Sorted(s: seq<Entry>) {
    forall i, j :: 0 <= i < j < |s| ==> s[i].score >= s[j].score
  }

  /** The entries of `s` whose score is `k`, in their order in `s`. */
  function WithScore(s: seq<Entry>, k: int): seq<Entry> {
    if |s| == 0 then []
    else (if s[0].score == k then [s[0]] else []) + WithScore(s[1..], k)
  }

  /** What ECMAScript requires of `s.sort((a, b) => b.score - a.score)`
      producing `r`: a permutation of `s`, ordered by the comparator, and
      stable (entries with equal scores keep their relative order). */
  ghost predicate IsStableSortOf(r: seq<Entry>, s: seq<Entry>) {
    && multiset(r) == multiset(s)
    && Sorted(r)
    && forall k :: WithScore(r, k) == WithScore(s, k)
  }

  /** Inserts `x` into `t` after every leading entry whose score is at least
      `x.score`: the stable place for a later element with a tied score. */
  function Insert(t: seq<Entry>, x: Entry): (r: seq<Entry>)
    ensures |r| == |t| + 1
    ensures multiset(r) == multiset(t) + multiset{x}
  {
    if |t| == 0 then [x]
    else if t[0].score >= x.score then
      assert t == [t[0]] + t[1..];
      [t[0]] + Insert(t[1..], x)
    else [x] + t
  }

  /** No entry of `s` scores above `m`. */
  predicate AtMost(s: seq<Entry>, m: int) {
    forall i :: 0 <= i < |s| ==> s[i].score <= m
  }

  lemma SortedCons(a: Entry, s: seq<Entry>)
    requires Sorted(s) && AtMost(s, a.score)
    ensures Sorted([a] + s)
  {
    var r := [a] + s;
    forall i, j | 0 <= i < j < |r| ensures r[i].score >= r[j].score {
      assert r[j] == s[j - 1];
      if i > 0 {
        assert r[i] == s[i - 1];
      }
    }
  }

  lemma {:induction false} InsertAtMost(t: seq<Entry>, x: Entry, m: int)
    requires AtMost(t, m) && x.score <= m
    ensures AtMost(Insert(t, x), m)
  {
    if |t| > 0 && t[0].score >= x.score {
      InsertAtMost(t[1..], x, m);
      var r := [t[0]] + Insert(t[1..], x);
      assert forall i :: 0 < i < |r| ==> r[i] == Insert(t[1..], x)[i - 1];
    } else if |t| > 0 {
      var r := [x] + t;
      assert forall i :: 0 < i < |r| ==> r[i] == t[i - 1];
    }
  }

  /** Inserting into a sorted board keeps it sorted. */
  lemma {:induction false} InsertSorted(t: seq<Entry>, x: Entry)
    requires Sorted(t)
    ensures Sorted(Insert(t, x))
  {
    if |t| > 0 && t[0].score >= x.score {
      assert Sorted(t[1..]);
      assert AtMost(t[1..], t[0].score) by {
        forall i | 0 <= i < |t[1..]| ensures t[1..][i].score <= t[0].score {
          assert t[1..][i] == t[i + 1];
        }
      }
      InsertSorted(t[1..], x);
      InsertAtMost(t[1..], x, t[0].score);
      SortedCons(t[0], Insert(t[1..], x));
    } else if |t| > 0 {
      assert AtMost(t, x.score);
      SortedCons(x, t);
    }
  }

  /** The array sort the handlers perform, as a stable insertion sort. */
  function SortByScore(s: seq<Entry>): (r: seq<Entry>)
    ensures IsStableSortOf(r, s)
  {
    if |s| == 0 then []
    else
      var sorted := SortByScore(s[..|s| - 1]);
      SortLast(s, sorted);
      Insert(sorted, s[|s| - 1])
  }

  lemma SortLast(s: seq<Entry>, sorted: seq<Entry>)
    requires |s| > 0 && IsStableSortOf(sorted, s[..|s| - 1])
    ensures IsStableSortOf(Insert(sorted, s[|s| - 1]), s)
  {
    assert s == s[..|s| - 1] + [s[|s| - 1]];
    SortStep(s[..|s| - 1], sorted, s[|s| - 1]);
  }

  lemma SortStep(init: seq<Entry>, sorted: seq<Entry>, x: Entry)
    requires IsStableSortOf(sorted, init)
    ensures IsStableSortOf(Insert(sorted, x), init + [x])
  {
    InsertSorted(sorted, x);
    forall k ensures WithScore(Insert(sorted, x), k) == WithScore(init + [x], k) {
      InsertWithScore(sorted, x, k);
      WithScoreAppend(init, [x], k);
    }
  }

  lemma {:induction false} WithScoreAppend(a: seq<Entry>, b: seq<Entry>, k: int)
    ensures WithScore(a + b, k) == WithScore(a, k) + WithScore(b, k)
  {
    if |a| == 0 {
      assert a + b == b;
    } else {
      var head := if a[0].score == k then [a[0]] else [];
      assert (a + b)[0] == a[0];
      assert (a + b)[1..] == a[1..] + b;
      WithScoreAppend(a[1..], b, k);
      assert WithScore(a + b, k) == head + WithScore(a[1..] + b, k);
      assert WithScore(a, k) == head + WithScore(a[1..], k);
    }
  }

  lemma {:induction false} WithScoreNone(s: seq<Entry>, k: int)
    requires forall i :: 0 <= i < |s| ==> s[i].score != k
    ensures WithScore(s, k) == []
  {
    if |s| > 0 {
      WithScoreNone(s[1..], k);
    }
  }

  /** Inserting `x` appends it to the run of its own score and leaves every
      other run alone. */
  lemma {:induction false} InsertWithScore(t: seq<Entry>, x: Entry, k: int)
    requires Sorted(t)
    ensures WithScore(Insert(t, x), k) == WithScore(t, k) + (if x.score == k then [x] else [])
  {
    var tail := if x.score == k then [x] else [];
    if |t| == 0 {
      WithScoreCons(x, [], k);
    } else if t[0].score >= x.score {
      SortedTail(t);
      InsertWithScore(t[1..], x, k);
      RunCons(t, x, k);
    } else {
      assert Insert(t, x) == [x] + t;
      WithScoreCons(x, t, k);
      if x.score == k {
        BelowTop(t, x.score);
        WithScoreNone(t, k);
      }
    }
  }

  lemma RunCons(t: seq<Entry>, x: Entry, k: int)
    requires |t| > 0 && t[0].score >= x.score
    requires WithScore(Insert(t[1..], x), k) == WithScore(t[1..], k) + (if x.score == k then [x] else [])
    ensures WithScore(Insert(t, x), k) == WithScore(t, k) + (if x.score == k then [x] else [])
  {
    var head := if t[0].score == k then [t[0]] else [];
    var rest := Insert(t[1..], x);
    assert Insert(t, x) == [t[0]] + rest;
    WithScoreCons(t[0], rest, k);
    WithScoreCons(t[0], t[1..], k);
    assert [t[0]] + t[1..] == t;
    AppendAssoc(head, WithScore(t[1..], k), if x.score == k then [x] else []);
  }

  lemma WithScoreCons(e: Entry, s: seq<Entry>, k: int)
    ensures WithScore([e] + s, k) == (if e.score == k then [e] else []) + WithScore(s, k)
  {
    assert ([e] + s)[0] == e;
    assert ([e] + s)[1..] == s;
  }

  lemma SortedTail(s: seq<Entry>)
    requires Sorted(s) && |s| > 0
    ensures Sorted(s[1..])
  {
    forall i, j | 0 <= i < j < |s| - 1 ensures s[1..][i].score >= s[1..][j].score {
      assert s[1..][i] == s[i + 1] && s[1..][j] == s[j + 1];
    }
  }

  /** A non-empty run of score `k` in a sorted board means `k` is at most the top score. */
  lemma {:induction false} WithScoreBelowTop(s: seq<Entry>, k: int)
    requires Sorted(s) && WithScore(s, k) != []
    ensures |s| > 0 && k <= s[0].score
  {
    if s[0].score != k {
      assert WithScore(s[1..], k) != [];
      assert Sorted(s[1..]);
      WithScoreBelowTop(s[1..], k);
    }
  }

  /** The first entry of a board opens the run of its own score. */
  lemma LeadRun(s: seq<Entry>)
    ensures |s| > 0 ==> WithScore(s, s[0].score) == [s[0]] + WithScore(s[1..], s[0].score)
  {
  }

  /** Sorted by score and stable: two sorted boards with the same run of
      entries for every score are the same board. This is why the result of
      the handlers' sort does not depend on which sorting algorithm the
      JavaScript engine uses. */
  lemma {:induction false} StableSortUnique(r1: seq<Entry>, r2: seq<Entry>)
    requires Sorted(r1) && Sorted(r2)
    requires forall k :: WithScore(r1, k) == WithScore(r2, k)
    ensures r1 == r2
  {
    LeadRun(r1);
    LeadRun(r2);
    if |r1| == 0 || |r2| == 0 {
    } else {
      var k := r1[0].score;
      assert WithScore(r1, k) != [];
      WithScoreBelowTop(r2, k);
      assert WithScore(r2, r2[0].score) != [];
      WithScoreBelowTop(r1, r2[0].score);
      assert r2[0].score == k;
      assert WithScore(r1, k) == [r1[0]] + WithScore(r1[1..], k);
      assert WithScore(r2, k) == [r2[0]] + WithScore(r2[1..], k);
      assert r1[0] == WithScore(r1, k)[0] == WithScore(r2, k)[0] == r2[0];
      forall k' ensures WithScore(r1[1..], k') == WithScore(r2[1..], k') {
        if k' == k {
          assert WithScore(r1[1..], k) == WithScore(r1, k)[1..];
          assert WithScore(r2[1..], k) == WithScore(r2, k)[1..];
        } else {
          assert WithScore(r1, k') == WithScore(r1[1..], k');
          assert WithScore(r2, k') == WithScore(r2[1..], k');
        }
      }
      assert Sorted(r1[1..]) && Sorted(r2[1..]);
      StableSortUnique(r1[1..], r2[1..]);
      assert r1 == [r1[0]] + r1[1..] && r2 == [r2[0]] + r2[1..];
    }
  }

  /** Any result an ECMAScript engine may return for the handlers' sort is
      exactly `SortByScore`. */
  lemma EngineSortIsSortByScore(s: seq<Entry>, r: seq<Entry>)
    requires IsStableSortOf(r, s)
    ensures r == SortByScore(s)
  {
    StableSortUnique(r, SortByScore(s));
  }

  /** Sorting a sorted board with one record appended is the same as
      inserting the record after every entry scoring at least as much. */
  lemma SortedAppendIsInsert(board: seq<Entry>, rec: Entry)
    requires Sorted(board)
    ensures SortByScore(board + [rec]) == Insert(board, rec)
  {
    SortStep(board, board, rec);
    EngineSortIsSortByScore(board + [rec], Insert(board, rec));
  }

  /** The number of entries of `s` scoring at least `m`. */
  function CountAtLeast(s: seq<Entry>, m: int): (c: nat)
    ensures c <= |s|
  {
    if |s| == 0 then 0
    else (if s[0].score >= m then 1 else 0) + CountAtLeast(s[1..], m)
  }

  lemma {:induction false} CountAtLeastNone(s: seq<Entry>, m: int)
    requires forall i :: 0 <= i < |s| ==> s[i].score < m
    ensures CountAtLeast(s, m) == 0
  {
    if |s| > 0 {
      CountAtLeastNone(s[1..], m);
    }
  }

  lemma {:induction false} CountAtLeastAll(s: seq<Entry>, m: int)
    requires forall i :: 0 <= i < |s| ==> s[i].score >= m
    ensures CountAtLeast(s, m) == |s|
  {
    if |s| > 0 {
      CountAtLeastAll(s[1..], m);
    }
  }

  /** On a sorted board, `Insert` places the record right after the last
      entry whose score is at least the record's. */
  lemma {:induction false} InsertAtRank(t: seq<Entry>, x: Entry)
    requires Sorted(t)
    ensures var p := CountAtLeast(t, x.score);
      p <= |t| && Insert(t, x) == t[..p] + [x] + t[p..]
  {
    if |t| == 0 {
      assert Insert(t, x) == [x];
    } else if t[0].score >= x.score {
      var tail := t[1..];
      SortedTail(t);
      InsertAtRank(tail, x);
      var q := CountAtLeast(tail, x.score);
      assert CountAtLeast(t, x.score) == q + 1;
      RankCons(t, x, q);
    } else {
      assert Insert(t, x) == [x] + t;
      BelowTop(t, x.score);
      CountAtLeastNone(t, x.score);
      assert t[..0] == [] && t[0..] == t;
    }
  }

  lemma RankCons(t: seq<Entry>, x: Entry, q: nat)
    requires |t| > 0 && t[0].score >= x.score && q < |t|
    requires Insert(t[1..], x) == t[1..][..q] + [x] + t[1..][q..]
    ensures Insert(t, x) == t[..q + 1] + [x] + t[q + 1..]
  {
    var tail := t[1..];
    assert Insert(t, x) == [t[0]] + Insert(tail, x);
    assert t[..q + 1] == [t[0]] + tail[..q];
    assert t[q + 1..] == tail[q..];
    AppendAssoc4([t[0]], tail[..q], [x], tail[q..]);
  }

  lemma BelowTop(t: seq<Entry>, m: int)
    requires Sorted(t) && |t| > 0 && t[0].score < m
    ensures forall i :: 0 <= i < |t| ==> t[i].score < m
  {
  }

  /** Upsert: append `rec`, sort descending by score, keep the first 20.
      The result is a valid leaderboard drawn from the board entries and `rec`,
      one longer than before until the board is full, and it keeps `rec`
      whenever the board had room. */
  function Upsert(board: seq<Entry>, rec: Entry): (r: seq<Entry>)
    ensures Sorted(r)
    ensures |r| == Min(|board| + 1, MaxEntries)
    ensures multiset(r) <= multiset(board + [rec])
    ensures |board| < MaxEntries ==> rec in r
  {
    var all := SortByScore(board + [rec]);
    var r := Take(all, MaxEntries);
    assert all == r + all[|r|..];
    assert rec in multiset(all);
    r
  }

  /** Every entry of the new board was on the old board or is the new record. */
  lemma UpsertDrawsFrom(board: seq<Entry>, rec: Entry)
    ensures forall e :: e in Upsert(board, rec) ==> e in board || e == rec
  {
    var r := Upsert(board, rec);
    forall e | e in r ensures e in board || e == rec {
      assert e in multiset(board + [rec]);
      assert e in board + [rec];
    }
  }

  /** On a sorted board, the record lands after every entry scoring at least
      as much, and the board is then cut to 20. */
  lemma UpsertInsertsAfterTies(board: seq<Entry>, rec: Entry)
    requires Sorted(board)
    ensures var p := CountAtLeast(board, rec.score);
      p <= |board| && Upsert(board, rec) == Take(board[..p] + [rec] + board[p..], MaxEntries)
  {
    SortedAppendIsInsert(board, rec);
    InsertAtRank(board, rec);
  }

  /** Below capacity nothing is cut: the record is inserted after every
      entry scoring at least as much, and every old entry stays. */
  lemma UpsertBelowCapacity(board: seq<Entry>, rec: Entry)
    requires Sorted(board) && |board| < MaxEntries
    ensures var p := CountAtLeast(board, rec.score);
      p <= |board| && Upsert(board, rec) == board[..p] + [rec] + board[p..]
  {
    var p := CountAtLeast(board, rec.score);
    UpsertInsertsAfterTies(board, rec);
    var ins := board[..p] + [rec] + board[p..];
    assert |ins| <= MaxEntries;
    assert Take(ins, MaxEntries) == ins;
  }

  /** On a sorted board the record survives exactly when fewer than 20
      entries score at least as much: then it sits at that rank after an
      unchanged top; otherwise the board is the board top 20. */
  lemma UpsertKeepsRecordIffRanked(board: seq<Entry>, rec: Entry)
    requires Sorted(board)
    ensures var p, r := CountAtLeast(board, rec.score), Upsert(board, rec);
      && (p < MaxEntries ==> p < |r| && r[p] == rec && r[..p] == board[..p])
      && (p >= MaxEntries ==> r == board[..MaxEntries])
  {
    UpsertInsertsAfterTies(board, rec);
    CutAroundRank(board, rec, CountAtLeast(board, rec.score));
  }

  lemma CutAroundRank(board: seq<Entry>, rec: Entry, p: nat)
    requires p <= |board|
    ensures var r := Take(board[..p] + [rec] + board[p..], MaxEntries);
      && (p < MaxEntries ==> p < |r| && r[p] == rec && r[..p] == board[..p])
      && (p >= MaxEntries ==> r == board[..MaxEntries])
  {
    var ins := board[..p] + [rec] + board[p..];
    if p < MaxEntries {
      assert ins[p] == rec && ins[..p] == board[..p];
    } else {
      assert ins[..MaxEntries] == board[..MaxEntries];
    }
  }

  /** A full sorted board is left as it is by a record that does not beat
      its last entry. */
  lemma UpsertFullBoardUnchanged(board: seq<Entry>, rec: Entry)
    requires Sorted(board) && |board| == MaxEntries
    requires rec.score <= board[MaxEntries - 1].score
    ensures Upsert(board, rec) == board
  {
    CountAtLeastAll(board, rec.score);
    UpsertKeepsRecordIffRanked(board, rec);
  }
}
