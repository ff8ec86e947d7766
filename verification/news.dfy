/** The `news` endpoint: the first ten items of a news feed, cached in the
    store for a day, refreshed on demand, and served stale (or empty) when a
    refresh fails. */
module News {
  import opened Wrappers
  import opened Http
  import opened Rss

  /** `CACHE_TTL_MS`: 24 hours in milliseconds. */
  const CacheTtlMs: int := 24 * 60 * 60 * 1000

  /** The value stored under `rubber-duck-news`. A field that is absent
      or `null` is `None`; `updatedAt: 0` is `Some(0)`. */
  datatype Cache = Cache(items: Option<seq<NewsItem>>, updatedAt: Option<int>)

  /** The feed request: a response with its status and body text, or an
      exception (no connection, or reading the body fails). */
  datatype Fetch = Fetched(status: int, text: string) | Unreachable

  /** Which store calls throw: the first read, the write of a refreshed
      cache, and the read in the fallback. */
  datatype Faults = Faults(readFails: bool, writeFails: bool, rereadFails: bool)

  /** A response body. `updatedAt` `None` is JSON `null`; `stale` is
      present, as `true`, only on the fallback to stored items. */
  datatype Feed = Feed(items: Option<seq<NewsItem>>, updatedAt: Option<int>, stale: bool)

  datatype Payload = NoContent | Error(message: string) | News(feed: Feed)
  datatype Reply = Reply(status: nat, payload: Payload)
  /** The reply and the store contents after the request. */
  datatype Outcome = Outcome(reply: Reply, store: Option<Cache>)

  /** `cached && cached.updatedAt && (now - cached.updatedAt) < CACHE_TTL_MS`.
      A time stamp of 0 is falsy, and one in the future counts as fresh. */
  predicate IsFresh(store: Option<Cache>, now: int) {
    && store.Some?
    && store.value.updatedAt.Some?
    && store.value.updatedAt.value != 0
    && now - store.value.updatedAt.value < CacheTtlMs
  }

  /** `res.ok`: a 2xx status. */
  predicate FetchOk(f: Fetch) {
    f.Fetched? && 200 <= f.status <= 299
  }

  /** `fetchNews`: the parsed items of a 2xx response; anything else throws. */
  function FetchNews(f: Fetch): (r: Option<seq<NewsItem>>)
    ensures r.Some? <==> FetchOk(f)
    ensures r.Some? ==> |r.value| <= MaxItems && r.value == ParseItems(f.text)
  {
    if FetchOk(f) then Some(ParseItems(f.text)) else None
  }

  /** The refreshed cache written after a successful fetch at `now`. */
  function Refreshed(f: Fetch, now: int): Cache
    requires FetchOk(f)
  {
    Cache(Some(ParseItems(f.text)), Some(now))
  }

  /** The `catch` block: re-read the store and serve its items marked
      stale, or serve an empty list. */
  function Fallback(store: Option<Cache>, rereadFails: bool): (r: Feed)
    ensures r.stale <==> !rereadFails && store.Some? && store.value.items.Some?
    ensures r.stale ==> r.items == store.value.items && r.updatedAt == store.value.updatedAt
    ensures !r.stale ==> r == Feed(Some([]), None, false)
  {
    if !rereadFails && store.Some? && store.value.items.Some? then
      Feed(store.value.items, store.value.updatedAt, true)
    else
      Feed(Some([]), None, false)
  }

  /** A GET: read the store and serve a fresh cache as is; otherwise
      fetch, store and serve the new items. If the read, the fetch or the
      write throws, fall back. */
  function ServeNews(store: Option<Cache>, now: int, fetch: Fetch, faults: Faults): (o: Outcome)
    ensures o.reply.status == 200 && o.reply.payload.News?
    ensures faults.readFails ==>
      o == Outcome(Reply(200, News(Fallback(store, faults.rereadFails))), store)
    ensures !faults.readFails && IsFresh(store, now) ==>
      o == Outcome(Reply(200, News(Feed(store.value.items, store.value.updatedAt, false))), store)
    ensures !faults.readFails && !IsFresh(store, now) && FetchOk(fetch) && !faults.writeFails ==>
      && o.store == Some(Refreshed(fetch, now))
      && o.reply.payload.feed == Feed(Some(ParseItems(fetch.text)), Some(now), false)
    ensures !faults.readFails && !IsFresh(store, now) && !(FetchOk(fetch) && !faults.writeFails) ==>
      o == Outcome(Reply(200, News(Fallback(store, faults.rereadFails))), store)
    ensures o.store != store ==> !faults.readFails && FetchOk(fetch) && o.store == Some(Refreshed(fetch, now))
    ensures o.reply.payload.feed.stale ==> o.store == store
  {
    if faults.readFails then
      Outcome(Reply(200, News(Fallback(store, faults.rereadFails))), store)
    else if IsFresh(store, now) then
      Outcome(Reply(200, News(Feed(store.value.items, store.value.updatedAt, false))), store)
    else
      match FetchNews(fetch)
      case Some(items) =>
        if faults.writeFails then
          Outcome(Reply(200, News(Fallback(store, faults.rereadFails))), store)
        else
          var data := Cache(Some(items), Some(now));
          Outcome(Reply(200, News(Feed(data.items, data.updatedAt, false))), Some(data))
      case None =>
        Outcome(Reply(200, News(Fallback(store, faults.rereadFails))), store)
  }

  /** The handler: OPTIONS is answered empty, every method but GET is
      refused with 405, and a GET is always answered 200. */
  function HandleNews(verb: Method, store: Option<Cache>, now: int, fetch: Fetch, faults: Faults): (o: Outcome)
    ensures verb == Options ==> o == Outcome(Reply(200, NoContent), store)
    ensures verb == Get ==> o.reply.status == 200 && o.reply.payload.News?
    ensures !verb.Options? && !verb.Get? ==>
      o == Outcome(Reply(405, Error(MethodNotAllowed)), store)
    ensures o.store != store ==> verb == Get
  {
    match verb
    case Options => Outcome(Reply(200, NoContent), store)
    case Get => ServeNews(store, now, fetch, faults)
    case _ => Outcome(Reply(405, Error(MethodNotAllowed)), store)
  }

  /** What the handler itself ever stores: a list of at most ten items
      and a time stamp. */
  predicate ValidCache(store: Option<Cache>) {
    store.Some? ==>
      && store.value.items.Some?
      && |store.value.items.value| <= MaxItems
      && store.value.updatedAt.Some?
  }

  /** Starting from an empty or handler-written store, every request keeps
      it so, and every list served has at most ten items. */
  lemma HandleNewsKeepsCacheValid(verb: Method, store: Option<Cache>, now: int, fetch: Fetch, faults: Faults)
    requires ValidCache(store)
    ensures var o := HandleNews(verb, store, now, fetch, faults);
      && ValidCache(o.store)
      && (o.reply.payload.News? ==>
            o.reply.payload.feed.items.Some? && |o.reply.payload.feed.items.value| <= MaxItems)
  {
    var o := HandleNews(verb, store, now, fetch, faults);
    if verb == Get {
      var r := ServeNews(store, now, fetch, faults);
      assert o == r;
      if faults.readFails || IsFresh(store, now) {
      } else if FetchOk(fetch) && !faults.writeFails {
        assert |ParseItems(fetch.text)| <= MaxItems;
      } else {
        assert r.reply.payload.feed == Fallback(store, faults.rereadFails);
      }
    }
  }

  /** When the refresh fails, a cache that has outlived its day is still
      served, marked stale, rather than nothing. */
  lemma ExpiredCacheServedStale(store: Option<Cache>, now: int, fetch: Fetch, faults: Faults)
    requires store.Some? && store.value.items.Some?
    requires !FetchOk(fetch) && !faults.rereadFails
    ensures var o := HandleNews(Get, store, now, fetch, faults);
      && o.store == store
      && o.reply == Reply(200, News(Feed(store.value.items, store.value.updatedAt, !IsFresh(store, now) || faults.readFails)))
  {
  }

  /** A fresh cache answers without regard to the feed or to later store
      failures. */
  lemma FreshCacheIgnoresFeed(store: Option<Cache>, now: int, f1: Fetch, f2: Fetch, faults1: Faults, faults2: Faults)
    requires IsFresh(store, now) && !faults1.readFails && !faults2.readFails
    ensures HandleNews(Get, store, now, f1, faults1) == HandleNews(Get, store, now, f2, faults2)
  {
  }

  /** When the first store read throws, nothing is fetched or written: the
      answer is the fallback whatever the feed, the clock or the write. */
  lemma FailedReadFallsBack(store: Option<Cache>, now1: int, now2: int, f1: Fetch, f2: Fetch, faults1: Faults, faults2: Faults)
    requires faults1.readFails && faults2.readFails
    requires faults1.rereadFails == faults2.rereadFails
    ensures HandleNews(Get, store, now1, f1, faults1) == HandleNews(Get, store, now2, f2, faults2)
    ensures HandleNews(Get, store, now1, f1, faults1).store == store
  {
  }

  /** A cache written at `now` stays fresh for exactly one day. */
  lemma RefreshedFreshForOneDay(f: Fetch, now: int, later: int)
    requires FetchOk(f)
    requires now != 0
    ensures IsFresh(Some(Refreshed(f, now)), later) <==> later < now + CacheTtlMs
  {
  }
}
