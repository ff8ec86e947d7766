/** `parseItems`: a tolerant scan of an RSS document for at most ten items. */
module Rss {
  import opened Wrappers
  import opened Text
  import opened Scan

  /** `MAX_ITEMS` */
  const MaxItems: nat := 10

  datatype NewsItem = NewsItem(title: string, link: string, date: string, source: string)

  const ItemOpen := "<item>"
  const ItemClose := "</item>"
  const CdataOpen := "<![CDATA["
  const CdataClose := "]]>"
  const SourceOpen := "<source"
  const SourceClose := "</source>"

  /** `s.replace(/<!\[CDATA\[([\s\S]*?)\]\]>/g, '$1')`: every complete
      CDATA wrapper loses its delimiters. */
  function StripCdata(s: string): (r: string)
    ensures |r| <= |s|
    ensures (forall sp: Span :: !Delimits(s, CdataOpen, CdataClose, sp)) ==> r == s
  {
    ReplaceEnclosed(s, CdataOpen, CdataClose)
  }

  /** A single wrapper around text that does not itself end a CDATA
      section comes off whole. */
  lemma StripCdataUnwraps(x: string)
    requires forall k :: 0 <= k < |x| ==> !OccursAt(x + CdataClose, CdataClose, k)
    ensures StripCdata(CdataOpen + x + CdataClose) == x
  {
    ReplaceUnwraps(x, CdataOpen, CdataClose);
  }

  /** `(block.match(/<source[^>]*>([\s\S]*?)<\/source>/) || [])[1] || ''`:
      the first `<source`, the first `>` after it, and the text up to the
      first `</source>` after that. */
  function SourceText(block: string): string {
    TagGroup(block, SourceOpen, ">", SourceClose)
  }

  /** `SourceText` is the source regular expression's group: that of the
      leftmost, shortest match, or "" when nothing matches. */
  lemma SourceTextIsFirstMatch(block: string)
    ensures IsTagGroup(block, SourceOpen, ">", SourceClose, SourceText(block))
  {
    TagGroupIsFirstMatch(block, SourceOpen, ">", SourceClose);
  }

  const TitleOpen := "<title>"
  const TitleClose := "</title>"
  const LinkOpen := "<link>"
  const LinkClose := "</link>"
  const DateOpen := "<pubDate>"
  const DateClose := "</pubDate>"

  /** One `<item>` block's fields. An item needs a non-empty raw title. Each
      field is its raw capture with whitespace cut from both ends; title and
      source lose their CDATA wrappers first, link and date keep theirs. A
      missing link, date or source becomes "". */
  function ItemOf(block: string): (r: Option<NewsItem>)
    ensures r.Some? <==> Capture(block, TitleOpen, TitleClose) != []
    ensures r.Some? ==>
      && IsTrimOf(r.value.title, StripCdata(Capture(block, TitleOpen, TitleClose)))
      && IsTrimOf(r.value.link, Capture(block, LinkOpen, LinkClose))
      && IsTrimOf(r.value.date, Capture(block, DateOpen, DateClose))
      && IsTrimOf(r.value.source, StripCdata(SourceText(block)))
    ensures r.Some? && Capture(block, LinkOpen, LinkClose) == [] ==> r.value.link == []
    ensures r.Some? && Capture(block, DateOpen, DateClose) == [] ==> r.value.date == []
    ensures r.Some? && SourceText(block) == [] ==> r.value.source == []
  {
    var title := Capture(block, TitleOpen, TitleClose);
    if title == [] then None
    else
      var link := Capture(block, LinkOpen, LinkClose);
      var date := Capture(block, DateOpen, DateClose);
      var source := StripCdata(SourceText(block));
      TrimIsTrimOf(StripCdata(title));
      TrimIsTrimOf(link);
      TrimIsTrimOf(date);
      TrimIsTrimOf(source);
      Some(NewsItem(Trim(StripCdata(title)), Trim(link), Trim(date), Trim(source)))
  }

  /** A whitespace-only raw title still makes an item, with an empty title. */
  lemma BlankTitleGivesEmpty(block: string)
    requires Capture(block, TitleOpen, TitleClose) != []
    requires AllWS(Capture(block, TitleOpen, TitleClose))
    ensures ItemOf(block).Some? && ItemOf(block).value.title == []
  {
    var raw := Capture(block, TitleOpen, TitleClose);
    NoCdataInBlank(raw);
    assert StripCdata(raw) == raw;
  }

  /** Whitespace holds no CDATA section: one starts with `<`. */
  lemma NoCdataInBlank(s: string)
    requires AllWS(s)
    ensures forall sp: Span :: !Delimits(s, CdataOpen, CdataClose, sp)
  {
    forall k: nat ensures !OccursAt(s, CdataOpen, k) {
      if k + |CdataOpen| <= |s| {
        assert s[k..k + |CdataOpen|][0] == s[k];
      }
    }
  }

  /** A title wrapped once in CDATA comes out as its content, trimmed. */
  lemma TitleLosesCdata(block: string, x: string)
    requires Capture(block, TitleOpen, TitleClose) == CdataOpen + x + CdataClose
    requires forall k :: 0 <= k < |x| ==> !OccursAt(x + CdataClose, CdataClose, k)
    ensures ItemOf(block).Some? && ItemOf(block).value.title == Trim(x)
  {
    StripCdataUnwraps(x);
  }

  /** A link wrapped in CDATA keeps its wrapper: only title and source are
      unwrapped. */
  lemma LinkKeepsCdata(block: string, x: string)
    requires Capture(block, TitleOpen, TitleClose) != []
    requires Capture(block, LinkOpen, LinkClose) == CdataOpen + x + CdataClose
    ensures ItemOf(block).Some? && ItemOf(block).value.link == CdataOpen + x + CdataClose
  {
    var w := CdataOpen + x + CdataClose;
    assert w[0] == '<' && w[|w| - 1] == '>';
    TrimOfTrimmed(w);
  }

  /** The block of `xml` between an `<item>` match's delimiters. */
  predicate ValidBlock(xml: string, sp: Span) {
    sp.open + |ItemOpen| <= sp.close <= |xml|
  }

  function BlockText(xml: string, sp: Span): string
    requires ValidBlock(xml, sp)
  {
    xml[sp.open + |ItemOpen|..sp.close]
  }

  /** Every `<item>` block from `from` on, as repeated `itemRegex.exec(xml)`
      calls find them. */
  function ItemBlocks(xml: string, from: nat): (r: seq<Span>)
    ensures forall k :: 0 <= k < |r| ==> ValidBlock(xml, r[k])
    decreases |xml| - from
  {
    match Enclosed(xml, ItemOpen, ItemClose, from)
    case None => []
    case Some(sp) => [sp] + ItemBlocks(xml, End(sp, ItemClose))
  }

  /** Where the `k`th search of the scan starts: at `from`, then just past
      the previous block (`lastIndex`). */
  function StartOf(r: seq<Span>, from: nat, k: nat): nat
    requires k <= |r|
  {
    if k == 0 then from else End(r[k - 1], ItemClose)
  }

  /** Each block is the leftmost-shortest match from where its search
      starts, and after the last block there is no match. */
  ghost predicate ChainedMatches(xml: string, from: nat, r: seq<Span>) {
    && (forall k :: 0 <= k < |r| ==> IsFirstMatch(xml, ItemOpen, ItemClose, StartOf(r, from, k), r[k]))
    && (forall sp: Span :: StartOf(r, from, |r|) <= sp.open ==> !Delimits(xml, ItemOpen, ItemClose, sp))
  }

  lemma ChainedCons(xml: string, from: nat, sp: Span, rest: seq<Span>)
    requires IsFirstMatch(xml, ItemOpen, ItemClose, from, sp)
    requires ChainedMatches(xml, End(sp, ItemClose), rest)
    ensures ChainedMatches(xml, from, [sp] + rest)
  {
    var r := [sp] + rest;
    StartOfCons(from, sp, rest, |r|);
    forall k | 0 <= k < |r|
      ensures IsFirstMatch(xml, ItemOpen, ItemClose, StartOf(r, from, k), r[k])
    {
      if k > 0 {
        StartOfCons(from, sp, rest, k);
        assert r[k] == rest[k - 1];
      }
    }
  }

  /** After the first block, the searches of `[sp] + rest` start where
      those of `rest` do. */
  lemma StartOfCons(from: nat, sp: Span, rest: seq<Span>, k: nat)
    requires 1 <= k <= |rest| + 1
    ensures StartOf([sp] + rest, from, k) == StartOf(rest, End(sp, ItemClose), k - 1)
  {
    if k > 1 {
      assert ([sp] + rest)[k - 1] == rest[k - 2];
    }
  }

  /** The blocks are exactly the matches repeated `exec` calls report: in
      document order, not overlapping, and none missed after the last. */
  lemma {:induction false} ItemBlocksAreMatches(xml: string, from: nat)
    ensures ChainedMatches(xml, from, ItemBlocks(xml, from))
    decreases |xml| - from
  {
    EnclosedIsFirstMatch(xml, ItemOpen, ItemClose, from);
    match Enclosed(xml, ItemOpen, ItemClose, from)
    case None =>
      assert ItemBlocks(xml, from) == [];
    case Some(sp) =>
      var next := End(sp, ItemClose);
      assert ItemBlocks(xml, from) == [sp] + ItemBlocks(xml, next);
      ItemBlocksAreMatches(xml, next);
      ChainedCons(xml, from, sp, ItemBlocks(xml, next));
  }

  /** The item one block yields, if any. */
  function Found(xml: string, sp: Span): (r: seq<NewsItem>)
    requires ValidBlock(xml, sp)
    ensures |r| <= 1
  {
    match ItemOf(BlockText(xml, sp)) case None => [] case Some(it) => [it]
  }

  /** The items the blocks yield, in order, untitled blocks skipped. */
  function ItemsIn(xml: string, blocks: seq<Span>): seq<NewsItem>
    requires forall k :: 0 <= k < |blocks| ==> ValidBlock(xml, blocks[k])
  {
    if |blocks| == 0 then []
    else Found(xml, blocks[0]) + ItemsIn(xml, blocks[1..])
  }

  /** The `while` loop of `parseItems`: `exec` runs first, then the count
      is checked, so scanning stops as soon as ten items are held. */
  function Collect(xml: string, from: nat, items: seq<NewsItem>): (r: seq<NewsItem>)
    requires |items| <= MaxItems
    ensures |items| <= |r| <= MaxItems
    ensures r[..|items|] == items
    decreases |xml| - from
  {
    match Enclosed(xml, ItemOpen, ItemClose, from)
    case None => items
    case Some(sp) =>
      if |items| >= MaxItems then items
      else
        var found := Found(xml, sp);
        var r := Collect(xml, End(sp, ItemClose), items + found);
        PrefixOfPrefix(r, items, found);
        r
  }

  /** `parseItems(xml)` */
  function ParseItems(xml: string): (r: seq<NewsItem>)
    ensures |r| <= MaxItems
  {
    Collect(xml, 0, [])
  }

  lemma {:induction false} CollectIsFirstTen(xml: string, from: nat, items: seq<NewsItem>)
    requires |items| <= MaxItems
    ensures Collect(xml, from, items) == Take(items + ItemsIn(xml, ItemBlocks(xml, from)), MaxItems)
    decreases |xml| - from
  {
    var e := Enclosed(xml, ItemOpen, ItemClose, from);
    if e.None? {
      CollectEnd(xml, from, items);
    } else if |items| < MaxItems {
      var sp := e.value;
      CollectIsFirstTen(xml, End(sp, ItemClose), items + Found(xml, sp));
      CollectMore(xml, from, items, sp);
    } else {
      CollectFull(xml, from, items, e.value);
    }
  }

  /** A block while fewer than ten items are held: its item, if any, joins
      the list and the scan goes on past it. */
  lemma CollectMore(xml: string, from: nat, items: seq<NewsItem>, sp: Span)
    requires |items| < MaxItems
    requires Enclosed(xml, ItemOpen, ItemClose, from) == Some(sp)
    requires ValidBlock(xml, sp)
    requires var next := End(sp, ItemClose);
      Collect(xml, next, items + Found(xml, sp))
        == Take(items + Found(xml, sp) + ItemsIn(xml, ItemBlocks(xml, next)), MaxItems)
    ensures Collect(xml, from, items) == Take(items + ItemsIn(xml, ItemBlocks(xml, from)), MaxItems)
  {
    var rest := ItemBlocks(xml, End(sp, ItemClose));
    CollectUnfold(xml, from, items, sp);
    ItemsInCons(xml, sp, rest);
    AppendAssoc(items, Found(xml, sp), ItemsIn(xml, rest));
  }

  /** A block once ten items are held: the scan stops. */
  lemma CollectFull(xml: string, from: nat, items: seq<NewsItem>, sp: Span)
    requires |items| == MaxItems
    requires Enclosed(xml, ItemOpen, ItemClose, from) == Some(sp)
    ensures Collect(xml, from, items) == Take(items + ItemsIn(xml, ItemBlocks(xml, from)), MaxItems)
  {
    CollectUnfold(xml, from, items, sp);
    TakeFront(items, ItemsIn(xml, ItemBlocks(xml, from)));
  }

  /** When no block is left the scan returns what it holds. */
  lemma CollectEnd(xml: string, from: nat, items: seq<NewsItem>)
    requires |items| <= MaxItems
    requires Enclosed(xml, ItemOpen, ItemClose, from).None?
    ensures ItemBlocks(xml, from) == []
    ensures Collect(xml, from, items) == Take(items + ItemsIn(xml, ItemBlocks(xml, from)), MaxItems)
  {
    assert ItemsIn(xml, []) == [];
    assert items + [] == items;
    TakeAll(items, MaxItems);
  }

  /** One step of the scan: the match found from `from` heads the block
      list, and the loop either stops on a full list or continues past it. */
  lemma CollectUnfold(xml: string, from: nat, items: seq<NewsItem>, sp: Span)
    requires |items| <= MaxItems
    requires Enclosed(xml, ItemOpen, ItemClose, from) == Some(sp)
    ensures ValidBlock(xml, sp)
    ensures ItemBlocks(xml, from) == [sp] + ItemBlocks(xml, End(sp, ItemClose))
    ensures |items| == MaxItems ==> Collect(xml, from, items) == items
    ensures |items| < MaxItems ==>
      Collect(xml, from, items) == Collect(xml, End(sp, ItemClose), items + Found(xml, sp))
  {
  }

  lemma ItemsInCons(xml: string, sp: Span, rest: seq<Span>)
    requires ValidBlock(xml, sp)
    requires forall k :: 0 <= k < |rest| ==> ValidBlock(xml, rest[k])
    ensures ItemsIn(xml, [sp] + rest) == Found(xml, sp) + ItemsIn(xml, rest)
  {
    assert ([sp] + rest)[1..] == rest;
  }

  /** Scanning with an early stop yields exactly the first ten items of
      the whole document, in document order. */
  lemma ParseItemsIsFirstTen(xml: string)
    ensures ParseItems(xml) == Take(ItemsIn(xml, ItemBlocks(xml, 0)), MaxItems)
  {
    CollectIsFirstTen(xml, 0, []);
    assert [] + ItemsIn(xml, ItemBlocks(xml, 0)) == ItemsIn(xml, ItemBlocks(xml, 0));
  }
}
