# ahiru-space score and news endpoints, in Dafny

This project models the four serverless handlers of the ahiru-space site
(`api/drop-scores.js`, `api/runner-scores.js`, `api/osouji-scores.js` and
`api/news.js`) as pure Dafny functions, and proves what they guarantee.

- **Leaderboards** (modules `Leaderboard`, `Submission`, `ScoreHandlers`).
  A POST checks the name and then the score, normalises the record, appends
  it to the stored board, sorts descending by score and keeps the first 20.
  The JavaScript `Array.prototype.sort` with comparator `b.score - a.score`
  is specified as ECMAScript requires it: a permutation, sorted, and stable.
  The model proves that exactly one board meets that specification. It is
  computed by a stable insertion sort (`SortByScore`). On a sorted board,
  that sort is the same as inserting the record after every entry whose
  score is at least as high. The three handlers share one `Handle` function
  and differ in their storage key and record constructor. Osouji files
  records under one key per difficulty and answers GET with one board or
  all three.
- **News cache** (module `News`). A GET serves the stored feed when it is
  less than a day old. Otherwise it fetches, parses, stores and serves the
  new items. When the store read, the fetch or the store write throws, it
  re-reads the store and serves its items marked stale, or an empty list.
- **RSS scan** (modules `Scan`, `Rss`). Every regular expression in
  `parseItems` but the `<source…>` one has the shape `OPEN([\s\S]*?)CLOSE`
  with literal delimiters.
  It reduces to "first OPEN, then first CLOSE after it"; the model proves
  this gives the leftmost, shortest match. The `<source[^>]*>` prefix
  becomes "first `<source`, then first `>` after it". CDATA removal is a
  left-to-right replacement of every match by its group. The scan loop stops
  once ten items are held, and the model proves this yields exactly the first
  ten items of the whole document.

Behaviour of the code worth stating on its own:

- Ties between equal scores keep board order, with the new record after
  every entry of equal score, because `Array.prototype.sort` is stable.
- A score of 0.5 passes validation (`score <= 0` is false) and is stored as
  `Math.floor(0.5)`, which is 0.
- An unknown osouji difficulty is filed under "ふつう" on POST. On GET an
  unknown difficulty is not snapped: it returns all three boards.
- A cache whose `updatedAt` is 0 or missing is never fresh. A cache with
  `updatedAt` in the future counts as fresh.
- The stale fallback needs the re-read to succeed and to hold `items`.
- A store read that throws before the freshness test leads straight to
  the fallback, with no fetch and no write.

## Model

| member | source | states |
|---|---|---|
| Text.Trim | api/drop-scores.js:33 | `trim` gives a string with no whitespace at either end, no longer than its input, and empty exactly when the input is all whitespace |
| Text.TrimIsSlice | api/drop-scores.js:33 | what `trim` keeps is one contiguous piece of the input, with only whitespace cut from each side |
| Text.TrimIsTrimOf | api/drop-scores.js:33 | `trim`'s result is a piece of its input with no whitespace at its ends and only whitespace around it |
| Text.TrimOfUnique | api/drop-scores.js:33 | that description fixes the result: any such piece is `trim`'s result |
| Text.Take | api/drop-scores.js:45 | `slice(0, n)` keeps the first min(length, n) elements |
| Scan.FindFrom | api/news.js:12 | the first index at or after the start where the literal occurs; none means it occurs nowhere from there |
| Scan.EnclosedIsFirstMatch | api/news.js:12-14 | first OPEN then first CLOSE after it is the leftmost match with the shortest lazy group, and finding none means no match exists from that point |
| Scan.FirstMatchUnique | api/news.js:12-14 | there is only one leftmost-shortest match from a given start |
| Scan.CaptureIsFirstGroup | api/news.js:16-18 | `(block.match(re) \|\| [])[1] \|\| ''` is the group of the leftmost-shortest match whenever there is one, and "" when nothing matches |
| Scan.ReplaceEnclosed | api/news.js:22 | global replacement of each match by its group never lengthens the string and leaves it as is when there is no match |
| Scan.ReplaceUnwraps | api/news.js:22 | one wrapper around text with no closing delimiter inside comes off whole |
| Scan.TagGroupIsFirstMatch | api/news.js:19 | the `OPEN[^M]*M([\s\S]*?)CLOSE` group is that of the match starting leftmost and ending soonest whenever there is one, and "" when none exists |
| Scan.FirstTagUnique | api/news.js:19 | there is only one first match of the `<source[^>]*>…</source>` pattern |
| Rss.StripCdata | api/news.js:22-25 | CDATA stripping never lengthens a field and leaves text without a CDATA section unchanged |
| Rss.StripCdataUnwraps | api/news.js:22 | a title wrapped once in CDATA comes out as its content |
| Rss.SourceTextIsFirstMatch | api/news.js:19 | the source field is the group of the leftmost-shortest `<source…>…</source>` match whenever there is one, and "" otherwise |
| Rss.ItemOf | api/news.js:15-27 | a block gives an item exactly when its raw title is non-empty; each field is its raw capture with whitespace cut from both ends, title and source after CDATA stripping, link and date without it; a missing link, date or source becomes "" |
| Rss.BlankTitleGivesEmpty | api/news.js:16-22 | a whitespace-only raw title still makes an item, with title "" |
| Rss.TitleLosesCdata | api/news.js:22 | a title wrapped once in CDATA comes out as its trimmed content |
| Rss.LinkKeepsCdata | api/news.js:17-23 | a link wrapped in CDATA keeps its wrapper |
| Rss.ItemBlocks | api/news.js:12-15 | every block the scan finds lies inside the document between its delimiters |
| Rss.ItemBlocksAreMatches | api/news.js:12-15 | the blocks are exactly the successive `exec` matches: each is the leftmost-shortest from where the previous ended, so they come in order without overlap, and none follows the last |
| Rss.Collect | api/news.js:11-14 | the loop only adds items, to the end, never beyond ten |
| Rss.ParseItems | api/news.js:5-14 | `parseItems` returns at most ten items |
| Rss.CollectIsFirstTen | api/news.js:14-28 | the loop started with some items held gives the first ten of those items followed by every item the remaining blocks yield |
| Rss.ParseItemsIsFirstTen | api/news.js:10-30 | `parseItems` is the first ten of the items of all blocks, in document order, so stopping early loses nothing before the tenth |
| Leaderboard.Insert | api/drop-scores.js:44 | insertion adds exactly one element and keeps all the others (multiset) |
| Leaderboard.InsertSorted | api/drop-scores.js:44 | inserting into a board sorted by score keeps it sorted |
| Leaderboard.InsertWithScore | api/drop-scores.js:44 | inserting puts the record at the end of its own score's run and leaves every other score's run alone |
| Leaderboard.SortByScore | api/drop-scores.js:44 | the sort's result is a permutation of its input, sorted descending by score, with equal scores in input order |
| Leaderboard.StableSortUnique | api/drop-scores.js:44 | two boards sorted by score with the same entries of every score, in the same order, are equal |
| Leaderboard.EngineSortIsSortByScore | api/drop-scores.js:44 | any result a conforming engine may give for the sort is `SortByScore`'s |
| Leaderboard.SortedAppendIsInsert | api/drop-scores.js:36-44 | sorting a sorted board with one record pushed on the end is inserting that record after every entry scoring at least as much |
| Leaderboard.InsertAtRank | api/drop-scores.js:44 | on a sorted board the record lands right after the entries scoring at least as much as it |
| Leaderboard.Upsert | api/drop-scores.js:34-45 | the new board is sorted, has min(old length + 1, 20) entries, is a sub-multiset of old board plus record, and keeps the record when the old board had fewer than 20 |
| Leaderboard.UpsertDrawsFrom | api/drop-scores.js:34-45 | every entry of the new board was on the old board or is the new record |
| Leaderboard.UpsertInsertsAfterTies | api/drop-scores.js:36-45 | on a sorted board the upsert is "insert after every entry scoring at least as much, then keep 20" |
| Leaderboard.UpsertBelowCapacity | api/drop-scores.js:36-45 | on a sorted board with room, nothing is cut: old entries keep their order around the inserted record |
| Leaderboard.UpsertKeepsRecordIffRanked | api/drop-scores.js:36-45 | the record survives exactly when fewer than 20 entries score at least as much; then the entries above it are unchanged, otherwise the board becomes its own top 20 |
| Leaderboard.UpsertFullBoardUnchanged | api/drop-scores.js:36-45 | a full sorted board is unchanged by a record scoring no more than its 20th entry |
| Submission.NameRejectedIffBlank | api/drop-scores.js:26 | the name check rejects exactly what is not a string with a non-whitespace character |
| Submission.CleanName | api/drop-scores.js:33 | the stored name is the first min(trimmed length, 15) characters of the trimmed name, empty only for an all-whitespace name |
| Submission.Floor | api/drop-scores.js:38 | `Math.floor` gives the integer n with n ≤ x < n + 1 |
| Submission.Validate | api/drop-scores.js:26-38 | "Name is required" exactly for a non-string or blank name; otherwise "Invalid score" exactly for a non-number or a score outside (0, 99999999]; otherwise the first min(trimmed length, 15) characters of the trimmed name, never empty, and the floor of the score, in [0, 99999999] |
| Submission.HalfPointStoredAsZero | api/drop-scores.js:29-38 | a score of 0.5 passes the check and is stored as 0 |
| Submission.DropRecord | api/drop-scores.js:36-41 | `chains` is the floor of a number and 0 otherwise; name, score and date are the validated ones |
| Submission.RunnerRecord | api/runner-scores.js:34-40 | `laps` is the floor of a number and 1 otherwise; `zone` is the first 20 characters of a string and "" otherwise |
| Submission.KeyFor | api/osouji-scores.js:7-9 | `keyFor` is prefix plus the difficulty for a valid one and prefix plus "ふつう" otherwise, so only three keys exist |
| Submission.SnapDifficulty | api/osouji-scores.js:44 | a valid difficulty is kept, anything else becomes "ふつう" |
| Submission.KeyForInjective | api/osouji-scores.js:3-9 | a difficulty's key ends in that difficulty, so different difficulties use different keys |
| Submission.OsoujiRecord | api/osouji-scores.js:44-54 | the record carries the difficulty when it is one of the three labels, and "ふつう" for any other value |
| ScoreHandlers.HandlePost | api/drop-scores.js:22-57 | a POST answers 200, 400 or 500. 400 is exactly a validation failure, with its message. 500 is exactly a null body, or a valid submission whose store read or write throws. 200 is exactly a stored upsert, written under the mode's key. Nothing is written unless the answer is 200 |
| ScoreHandlers.OsoujiGet | api/osouji-scores.js:21-31 | a valid difficulty reads its own board; anything else reads all three; a store error gives an empty list |
| ScoreHandlers.Handle | api/drop-scores.js:12-58 | OPTIONS gives 200 with no body, GET always 200 (empty on a store error), other methods 405, and only a successful POST changes the store |
| ScoreHandlers.PostStoresBoard | api/drop-scores.js:34-48 | a successful POST stores the board it returns under its key, and that board is sorted with min(old length + 1, 20) entries |
| ScoreHandlers.HandleKeepsBoardsValid | api/drop-scores.js:43-47 | when every stored board is sorted and at most 20 long, they all stay so after any request |
| ScoreHandlers.HandleDrop | api/drop-scores.js:6-59 | the duck-drop handler reads and writes only its own key, and a POST returns what it stored |
| ScoreHandlers.HandleRunner | api/runner-scores.js:6-56 | the runner handler reads and writes only its own key, and the persisted list equals the returned one |
| ScoreHandlers.HandleOsouji | api/osouji-scores.js:11-70 | a POST is `HandlePost` for osouji; on 200 the sorted upsert, of length min(\|old\|+1, 20), is written under `keyFor` of the snapped submitted difficulty and nowhere else; GET follows `OsoujiGet` |
| ScoreHandlers.OsoujiKeepsDifficultiesApart | api/osouji-scores.js:44-59 | if each difficulty's board holds only that difficulty's records, any request keeps it so |
| ScoreHandlers.FirstDropSubmission | api/drop-scores.js:22-48 | Taro's 1500 with 3 chains on an empty store returns the one-entry board |
| ScoreHandlers.HigherLaterScoreComesFirst | api/drop-scores.js:43-45 | a 200 submitted after a 100 is ranked above it |
| News.FetchNews | api/news.js:32-37 | the fetch gives items exactly for a 2xx response, and then at most ten |
| News.Fallback | api/news.js:60-69 | the stored items are served stale exactly when the re-read succeeds and holds items, with their old time stamp; otherwise an empty list with a null time stamp |
| News.ServeNews | api/news.js:47-69 | a GET always answers 200. A throwing first read goes straight to the fallback with no fetch or write. A fresh cache is served as is and the store is kept. A successful refresh stores and serves the new items stamped `now`; a failed fetch or write falls back. The store changes only by a successful refresh, and a stale answer leaves it alone |
| News.HandleNews | api/news.js:39-70 | OPTIONS answers 200 empty, any method but GET 405, and only a GET can change the store |
| News.HandleNewsKeepsCacheValid | api/news.js:47-69 | starting from an empty or handler-written cache, the cache stays one of at most ten items with a time stamp, and every list served has at most ten items |
| News.ExpiredCacheServedStale | api/news.js:60-66 | when the fetch fails and the store holds items, an expired cache is served marked stale and the store is left alone |
| News.FreshCacheIgnoresFeed | api/news.js:51-53 | a fresh cache answers the same whatever the feed or later store failures |
| News.FailedReadFallsBack | api/news.js:47-48 | when the first store read throws, the answer is the fallback whatever the feed, the clock or the write, and the store is unchanged |
| News.RefreshedFreshForOneDay | api/news.js:51-58 | a cache written at a non-zero `now` is fresh exactly until `now` plus 86400000 ms |

## Left out

- The `@vercel/kv` client is modelled as a map from keys to boards, plus flags
  saying whether reads and writes throw. A write that throws leaves the map as
  it was. Stored values of any other shape, such as a non-array under a
  leaderboard key, are not modelled.
- The network `fetch` is a parameter: a status and body text, or an exception.
- `Date.now()` and `new Date().toISOString()` are parameters (`now`, `date`).
- CORS headers and the `res.status().json()` plumbing are left out. Only the
  status and body value are modelled.
- The RSS URL and its `encodeURIComponent` call are left out. The URL only
  matters to the fetch.
- `Promise.all` in the osouji GET is left out: it is a concurrent read. The
  read-modify-write race between concurrent POSTs is left out too. Each
  request is modelled on its own.
- Numbers are Dafny reals, with `Math.floor` as `.Floor`. IEEE rounding is not
  modelled. A JSON number too large for a double parses to ±Infinity, and
  `Math.floor` keeps it infinite, so an over-large `chains` or `laps` is
  stored and answered as `null` in JavaScript. Reals have no infinity: the
  model floors the large value to a large integer instead. A `score` that
  large is rejected either way, since it exceeds 99999999. NaN cannot come
  out of a JSON body.
- Submission.DropRecord: does not model an infinite `chains`, which
  JavaScript stores as `null`; reals have no infinity.
- Submission.RunnerRecord: does not model an infinite `laps` either, for the
  same reason.
- Strings are sequences of Dafny `char`, which are Unicode scalar values.
  JavaScript strings are sequences of UTF-16 code units, where a character
  outside the Basic Multilingual Plane is a surrogate pair of two units.
  The model agrees with JavaScript on text inside that plane, which covers
  the difficulty labels and every delimiter.
- Submission.CleanName: cuts the trimmed name at 15 characters. JavaScript's
  `slice(0, 15)` cuts at 15 code units, so a name with characters outside
  the Basic Multilingual Plane keeps more characters here and never ends
  in half a surrogate pair. Dafny `char` cannot hold a lone surrogate.
- Submission.RunnerRecord: cuts `zone` at 20 characters rather than 20
  code units, for the same reason as `Submission.CleanName`.
- The regular expression engine is not modelled in general. Only the
  delimiter scans `parseItems` performs are modelled, and the model proves
  they agree with the leftmost-shortest match.
- Scan.ReplaceEnclosed: its contract states a length bound and the no-match
  case. For a single wrapper, `ReplaceUnwraps` gives the exact result.
  Nested or repeated wrappers are only defined by the function body.
- Rss.StripCdata: weaker for the same reason as `Scan.ReplaceEnclosed`.
- A response field that is `null` or missing is `None`. `stale` being absent
  is `false`. The JSON encoding itself is not modelled.
