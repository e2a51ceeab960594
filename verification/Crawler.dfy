/** The breadth-first crawl (recon/modules/passive/crawler.py): one host at a time, over
    any web, also an infinite one. */
module Crawler {
  import opened Prelude

  const MAX_PAGES: nat := 150
  const MAX_DEPTH: nat := 4
  const MAX_PAGES_PER_HOST: nat := 40

  /** What the crawl asks for: the host of a URL, the scope decision, and the answer to a
      request, `None` when it fails and otherwise the links of the page (absolute, without
      fragment, `http` or `https`). A URL is requested at most once, so the answer is a
      function of the URL. */
  datatype World = World(hostOf: string -> Option<string>, inScope: string -> bool,
      answer: string -> Option<seq<string>>)

  datatype Item = Item(url: string, depth: nat)

  // -------------------------------------------------------------- what is crawled

  /** A page's link that the crawl follows. */
  predicate Follows(w: World, p: Item, url: string) {
    && w.answer(p.url).Some? && url in w.answer(p.url).value
    && w.hostOf(url).Some? && w.hostOf(url) == w.hostOf(p.url)
    && p.depth < MAX_DEPTH && w.inScope(url)
  }

  /** Where an item comes from: it is a seed, or a crawled page one level up links to it. */
  ghost predicate Rooted(w: World, seeds: seq<string>, pages: seq<Item>, x: Item) {
    (x.depth == 0 && x.url in seeds) || exists p :: p in pages && Follows(w, p, x.url) && x.depth == p.depth + 1
  }

  ghost predicate AllRooted(w: World, seeds: seq<string>, pages: seq<Item>, items: seq<Item>) {
    forall x :: x in items ==> Rooted(w, seeds, pages, x)
  }

  /** The URL is listed, at this depth or above. */
  ghost predicate Listed(items: seq<Item>, url: string, depth: nat) {
    exists x :: x in items && x.url == url && x.depth <= depth
  }

  ghost predicate Known(seen: seq<Item>, queue: seq<Item>, url: string, depth: nat) {
    Listed(seen, url, depth) || Listed(queue, url, depth)
  }

  /** Every seed and every followed link is known. */
  ghost predicate NothingLost(w: World, seeds: seq<string>, seen: seq<Item>, queue: seq<Item>, pages: seq<Item>) {
    && (forall s :: s in seeds ==> Known(seen, queue, s, 0))
    && (forall p, url :: p in pages && Follows(w, p, url) ==> Known(seen, queue, url, p.depth + 1))
  }

  ghost predicate Nondecreasing(items: seq<Item>) {
    forall i, j :: 0 <= i < j < |items| ==> items[i].depth <= items[j].depth
  }

  ghost predicate DistinctUrls(items: seq<Item>) {
    forall i, j :: 0 <= i < j < |items| ==> items[i].url != items[j].url
  }

  /** Breadth first: everything seen is at most `cur` deep, and the queue holds the rest of
      that level and some of the next. */
  ghost predicate Levels(seen: seq<Item>, queue: seq<Item>, cur: nat) {
    && Nondecreasing(seen) && Nondecreasing(queue)
    && (forall x :: x in seen ==> x.depth <= cur)
    && (forall x :: x in queue ==> cur <= x.depth <= cur + 1)
  }

  /** The crawled pages of one host. */
  ghost function OnHost(w: World, pages: seq<Item>, host: string): nat {
    if pages == [] then 0
    else OnHost(w, pages[..|pages| - 1], host) + (if w.hostOf(pages[|pages| - 1].url) == Some(host) then 1 else 0)
  }

  ghost predicate HostHasRoot(w: World, pages: seq<Item>, host: string) {
    exists p :: p in pages && p.depth == 0 && w.hostOf(p.url) == Some(host)
  }

  /** Why a URL that was taken from the queue is not a crawled page. */
  ghost predicate Excused(w: World, pages: seq<Item>, x: Item) {
    match w.hostOf(x.url)
    case None => true
    case Some(host) =>
      || (x.depth == 0 && HostHasRoot(w, pages, host)) || OnHost(w, pages, host) >= MAX_PAGES_PER_HOST
      || w.answer(x.url).None?
  }

  ghost predicate Explained(w: World, seen: seq<Item>, pages: seq<Item>) {
    forall x :: x in seen ==> x in pages || Excused(w, pages, x)
  }

  /** The crawled pages: requested and answered, within every limit, one root a host. */
  ghost predicate Limits(w: World, seen: seq<Item>, fetched: seq<Item>, pages: seq<Item>) {
    && (forall p :: p in pages ==> p in fetched && w.answer(p.url).Some?)
    && (forall x :: x in fetched ==> x in seen && w.hostOf(x.url).Some?)
    && DistinctUrls(fetched) && DistinctUrls(pages)
    && |pages| <= MAX_PAGES
    && (forall h :: OnHost(w, pages, h) <= MAX_PAGES_PER_HOST)
    && (forall p, q ::
      p in pages && q in pages && p.depth == 0 && q.depth == 0 && w.hostOf(p.url) == w.hostOf(q.url) ==> p == q)
  }

  /** What the crawl keeps all the time: `seen` lists the URLs taken from the queue. */
  ghost predicate CrawlInv(w: World, seeds: seq<string>, seen: seq<Item>, queue: seq<Item>, fetched: seq<Item>,
      pages: seq<Item>, cur: nat) {
    && AllRooted(w, seeds, pages, seen) && AllRooted(w, seeds, pages, queue)
    && NothingLost(w, seeds, seen, queue, pages)
    && Levels(seen, queue, cur) && DistinctUrls(seen)
    && Explained(w, seen, pages) && Limits(w, seen, fetched, pages)
  }

  // ------------------------------------------------------------------ the crawl

  ghost function UrlsOf(items: seq<Item>): set<string> {
    set x | x in items :: x.url
  }

  /** The links of `_parse_page` that are put on the queue. */
  ghost function ToQueue(w: World, p: Item, links: seq<string>, visited: set<string>): seq<Item> {
    if links == [] then []
    else
      var url := links[|links| - 1];
      ToQueue(w, p, links[..|links| - 1], visited) +
      (if w.hostOf(url).Some? && w.hostOf(url) == w.hostOf(p.url) && p.depth < MAX_DEPTH && url !in visited &&
        w.inScope(url)
       then [Item(url, p.depth + 1)]
       else [])
  }

  lemma {:induction false} ToQueueIs(w: World, p: Item, links: seq<string>, visited: set<string>)
    ensures forall x :: x in ToQueue(w, p, links, visited) <==>
      && x.depth == p.depth + 1 && x.url in links && x.url !in visited && w.hostOf(x.url).Some?
      && w.hostOf(x.url) == w.hostOf(p.url) && p.depth < MAX_DEPTH && w.inScope(x.url)
  {
    if links != [] {
      var n := |links| - 1;
      ToQueueIs(w, p, links[..n], visited);
      assert links == links[..n] + [links[n]];
    }
  }

  method Enqueue(w: World, p: Item, links: seq<string>, visited: set<string>, queue: seq<Item>)
      returns (longer: seq<Item>)
    ensures longer == queue + ToQueue(w, p, links, visited)
  {
    longer := queue;
    for k := 0 to |links|
      invariant longer == queue + ToQueue(w, p, links[..k], visited)
    {
      var url := links[k];
      assert links[..k + 1][..k] == links[..k];
      var host := w.hostOf(url);
      if host.None? {
        continue;
      }
      if host == w.hostOf(p.url) && p.depth < MAX_DEPTH && url !in visited && w.inScope(url) {
        longer := longer + [Item(url, p.depth + 1)];
      }
    }
    assert links[..|links|] == links;
  }

  /** The loop between two turns. `seen` lists the URLs taken from the queue for the first
      time, `fetched` those requested, `pages` those answered; `level` is the depth of the
      last item taken. */
  datatype Crawl = Crawl(seen: seq<Item>, queue: seq<Item>, fetched: seq<Item>, pages: seq<Item>, level: nat)

  predicate GoesOn(s: Crawl) {
    s.queue != [] && |s.pages| < MAX_PAGES
  }

  ghost function Start(seeds: seq<string>): Crawl {
    Crawl([], seq(|seeds|, i requires 0 <= i < |seeds| => Item(seeds[i], 0)), [], [], 0)
  }

  /** The item is dropped before a request: no host, a second root, or a full host. */
  ghost predicate PassedOver(w: World, s: Crawl, x: Item) {
    match w.hostOf(x.url)
    case None => true
    case Some(host) => (x.depth == 0 && HostHasRoot(w, s.pages, host)) || OnHost(w, s.pages, host) >= MAX_PAGES_PER_HOST
  }

  /** One turn of the loop. */
  ghost function Turn(w: World, s: Crawl): Crawl
    requires s.queue != []
  {
    var x := s.queue[0];
    var t := s.(queue := s.queue[1..], level := x.depth);
    if x.url in UrlsOf(s.seen) then t
    else Visited(w, t.(seen := s.seen + [x]), x)
  }

  ghost function Visited(w: World, t: Crawl, x: Item): Crawl {
    if PassedOver(w, t, x) then t
    else
      match w.answer(x.url)
      case None => t.(fetched := t.fetched + [x])
      case Some(links) =>
        t.(fetched := t.fetched + [x], pages := t.pages + [x], queue := t.queue + ToQueue(w, x, links, UrlsOf(t.seen)))
  }

  // ------------------------------------------------------------ steps of the loop

  lemma LevelsPop(seen: seq<Item>, queue: seq<Item>, cur: nat)
    requires Levels(seen, queue, cur) && queue != []
    ensures Levels(seen, queue[1..], queue[0].depth) && Levels(seen + [queue[0]], queue[1..], queue[0].depth)
    ensures queue[0].depth >= cur
  {
    var x, rest := queue[0], queue[1..];
    assert x in queue;
    forall y | y in rest ensures x.depth <= y.depth <= x.depth + 1 {
      assert y in queue;
      var i :| 0 <= i < |rest| && rest[i] == y;
      assert queue[i + 1] == y;
    }
    forall i | 0 <= i < |seen| ensures seen[i].depth <= x.depth {
      assert seen[i] in seen;
    }
  }

  lemma LevelsPush(seen: seq<Item>, queue: seq<Item>, longer: seq<Item>, cur: nat)
    requires Levels(seen, queue, cur)
    requires |queue| <= |longer| && longer[..|queue|] == queue
    requires forall i :: |queue| <= i < |longer| ==> longer[i].depth == cur + 1
    ensures Levels(seen, longer, cur)
  {
    forall i | 0 <= i < |longer| ensures cur <= longer[i].depth <= cur + 1 {
      if i < |queue| { assert longer[i] == queue[i] && queue[i] in queue; }
    }
    forall i, j | 0 <= i < j < |longer| ensures longer[i].depth <= longer[j].depth {
      if j < |queue| { assert longer[i] == queue[i] && longer[j] == queue[j]; }
    }
  }

  lemma PopListed(queue: seq<Item>, url: string, depth: nat)
    requires queue != [] && Listed(queue, url, depth)
    ensures Listed(queue[1..], url, depth) || (queue[0].url == url && queue[0].depth <= depth)
  {
    assert queue == [queue[0]] + queue[1..];
  }

  /** Taking an item whose URL is listed, at its depth or above, loses nothing. */
  lemma PopKnown(seen: seq<Item>, longer: seq<Item>, queue: seq<Item>, url: string, depth: nat)
    requires queue != [] && Known(seen, queue, url, depth)
    requires Listed(longer, queue[0].url, queue[0].depth) && forall y :: y in seen ==> y in longer
    ensures Known(longer, queue[1..], url, depth)
  {
    if !Listed(seen, url, depth) {
      PopListed(queue, url, depth);
    }
  }

  lemma PopNothingLost(w: World, seeds: seq<string>, seen: seq<Item>, longer: seq<Item>, queue: seq<Item>,
      pages: seq<Item>)
    requires queue != [] && NothingLost(w, seeds, seen, queue, pages)
    requires Listed(longer, queue[0].url, queue[0].depth) && forall y :: y in seen ==> y in longer
    ensures NothingLost(w, seeds, longer, queue[1..], pages)
  {
    forall s | s in seeds ensures Known(longer, queue[1..], s, 0) {
      PopKnown(seen, longer, queue, s, 0);
    }
    forall p, url | p in pages && Follows(w, p, url) ensures Known(longer, queue[1..], url, p.depth + 1) {
      PopKnown(seen, longer, queue, url, p.depth + 1);
    }
  }

  lemma PopRooted(w: World, seeds: seq<string>, pages: seq<Item>, queue: seq<Item>)
    requires queue != [] && AllRooted(w, seeds, pages, queue)
    ensures AllRooted(w, seeds, pages, queue[1..]) && Rooted(w, seeds, pages, queue[0])
  {
    assert queue[0] in queue;
    assert forall y :: y in queue[1..] ==> y in queue;
  }

  /** A URL that was seen before. */
  lemma PopAgain(w: World, seeds: seq<string>, seen: seq<Item>, queue: seq<Item>, fetched: seq<Item>,
      pages: seq<Item>, cur: nat)
    requires CrawlInv(w, seeds, seen, queue, fetched, pages, cur) && queue != []
    requires exists y :: y in seen && y.url == queue[0].url
    ensures CrawlInv(w, seeds, seen, queue[1..], fetched, pages, queue[0].depth)
  {
    LevelsPop(seen, queue, cur);
    PopRooted(w, seeds, pages, queue);
    assert Listed(seen, queue[0].url, queue[0].depth);
    PopNothingLost(w, seeds, seen, seen, queue, pages);
  }

  lemma SeeDistinct(seen: seq<Item>, x: Item)
    requires DistinctUrls(seen) && forall y :: y in seen ==> y.url != x.url
    ensures DistinctUrls(seen + [x])
  {
    assert forall i :: 0 <= i < |seen| ==> seen[i] in seen;
  }

  /** A new URL that is passed over, or whose request fails. */
  lemma PopPassed(w: World, seeds: seq<string>, seen: seq<Item>, queue: seq<Item>, fetched: seq<Item>,
      longer: seq<Item>, pages: seq<Item>, cur: nat)
    requires CrawlInv(w, seeds, seen, queue, fetched, pages, cur) && queue != []
    requires forall y :: y in seen ==> y.url != queue[0].url
    requires Excused(w, pages, queue[0])
    requires longer == fetched || (longer == fetched + [queue[0]] && w.hostOf(queue[0].url).Some?)
    ensures CrawlInv(w, seeds, seen + [queue[0]], queue[1..], longer, pages, queue[0].depth)
  {
    var x := queue[0];
    LevelsPop(seen, queue, cur);
    PopRooted(w, seeds, pages, queue);
    assert x in seen + [x];
    PopNothingLost(w, seeds, seen, seen + [x], queue, pages);
    SeeDistinct(seen, x);
    SeeDistinct(fetched, x);
  }

  lemma MorePages(w: World, pages: seq<Item>, x: Item, host: string)
    ensures OnHost(w, pages + [x], host) == OnHost(w, pages, host) + (if w.hostOf(x.url) == Some(host) then 1 else 0)
  {
    assert (pages + [x])[..|pages|] == pages;
  }

  lemma MoreExcused(w: World, pages: seq<Item>, x: Item, y: Item)
    requires Excused(w, pages, y)
    ensures Excused(w, pages + [x], y)
  {
    if w.hostOf(y.url).Some? {
      var host := w.hostOf(y.url).value;
      MorePages(w, pages, x, host);
      if HostHasRoot(w, pages, host) {
        var p :| p in pages && p.depth == 0 && w.hostOf(p.url) == Some(host);
        assert p in pages + [x];
      }
    }
  }

  lemma MoreRooted(w: World, seeds: seq<string>, pages: seq<Item>, x: Item, items: seq<Item>)
    requires AllRooted(w, seeds, pages, items)
    ensures AllRooted(w, seeds, pages + [x], items)
  {
    forall y | y in items ensures Rooted(w, seeds, pages + [x], y) {
      assert Rooted(w, seeds, pages, y);
      if !(y.depth == 0 && y.url in seeds) {
        var p :| p in pages && Follows(w, p, y.url) && y.depth == p.depth + 1;
        assert p in pages + [x];
      }
    }
  }

  /** The state after a page, before its links are put on the queue. */
  lemma PopPageLimits(w: World, seen: seq<Item>, fetched: seq<Item>, pages: seq<Item>, x: Item, host: string)
    requires Limits(w, seen, fetched, pages) && DistinctUrls(seen)
    requires forall y :: y in seen ==> y.url != x.url
    requires w.answer(x.url).Some? && w.hostOf(x.url) == Some(host)
    requires |pages| < MAX_PAGES && OnHost(w, pages, host) < MAX_PAGES_PER_HOST
    requires !(x.depth == 0 && HostHasRoot(w, pages, host))
    ensures Limits(w, seen + [x], fetched + [x], pages + [x])
  {
    SeeDistinct(fetched, x);
    SeeDistinct(pages, x);
    forall h ensures OnHost(w, pages + [x], h) <= MAX_PAGES_PER_HOST {
      MorePages(w, pages, x, h);
    }
  }

  lemma PushNothingLost(w: World, seeds: seq<string>, seen: seq<Item>, queue: seq<Item>, longer: seq<Item>,
      pages: seq<Item>, x: Item)
    requires NothingLost(w, seeds, seen, queue, pages)
    requires |queue| <= |longer| && longer[..|queue|] == queue
    requires forall url :: Follows(w, x, url) ==> Known(seen, longer, url, x.depth + 1)
    ensures NothingLost(w, seeds, seen, longer, pages + [x])
  {
    forall url, depth | Known(seen, queue, url, depth) ensures Known(seen, longer, url, depth) {
      if Listed(queue, url, depth) {
        var y :| y in queue && y.url == url && y.depth <= depth;
        assert y in longer[..|queue|];
      }
    }
    forall p, url | p in pages + [x] && Follows(w, p, url) ensures Known(seen, longer, url, p.depth + 1) {
      if p in pages { assert Known(seen, queue, url, p.depth + 1); }
    }
  }

  lemma PushRooted(w: World, seeds: seq<string>, pages: seq<Item>, x: Item, queue: seq<Item>, longer: seq<Item>)
    requires AllRooted(w, seeds, pages, queue) && x in pages
    requires |queue| <= |longer| && longer[..|queue|] == queue
    requires forall i :: |queue| <= i < |longer| ==> longer[i].depth == x.depth + 1 && Follows(w, x, longer[i].url)
    ensures AllRooted(w, seeds, pages, longer)
  {
    forall y | y in longer ensures Rooted(w, seeds, pages, y) {
      var i :| 0 <= i < |longer| && longer[i] == y;
      if i < |queue| { assert longer[..|queue|][i] == y; }
    }
  }

  /** The queue behind the popped item, and then only followed links of `x`. */
  ghost predicate Grown(w: World, x: Item, rest: seq<Item>, longer: seq<Item>) {
    && |rest| <= |longer| && longer[..|rest|] == rest
    && forall i :: |rest| <= i < |longer| ==> longer[i].depth == x.depth + 1 && Follows(w, x, longer[i].url)
  }

  /** All followed links of `x` are seen or queued. */
  ghost predicate Taken(w: World, x: Item, seen: seq<Item>, longer: seq<Item>) {
    forall url :: Follows(w, x, url) ==> Item(url, x.depth + 1) in longer || exists y :: y in seen && y.url == url
  }

  lemma PageRooted(w: World, seeds: seq<string>, seen: seq<Item>, queue: seq<Item>, longer: seq<Item>, pages: seq<Item>)
    requires queue != [] && AllRooted(w, seeds, pages, seen) && AllRooted(w, seeds, pages, queue)
    requires Grown(w, queue[0], queue[1..], longer)
    ensures AllRooted(w, seeds, pages + [queue[0]], seen + [queue[0]]) &&
      AllRooted(w, seeds, pages + [queue[0]], longer)
  {
    var x, rest := queue[0], queue[1..];
    PopRooted(w, seeds, pages, queue);
    MoreRooted(w, seeds, pages, x, rest);
    MoreRooted(w, seeds, pages, x, seen + [x]);
    PushRooted(w, seeds, pages + [x], x, rest, longer);
  }

  lemma PageNothingLost(w: World, seeds: seq<string>, seen: seq<Item>, queue: seq<Item>, longer: seq<Item>,
      pages: seq<Item>)
    requires queue != [] && NothingLost(w, seeds, seen, queue, pages)
    requires forall y :: y in seen ==> y.depth <= queue[0].depth
    requires Grown(w, queue[0], queue[1..], longer) && Taken(w, queue[0], seen + [queue[0]], longer)
    ensures NothingLost(w, seeds, seen + [queue[0]], longer, pages + [queue[0]])
  {
    var x := queue[0];
    var more := seen + [x];
    PopNothingLost(w, seeds, seen, more, queue, pages);
    forall url | Follows(w, x, url) ensures Known(more, longer, url, x.depth + 1) {
      if Item(url, x.depth + 1) !in longer {
        var y :| y in more && y.url == url;
        assert Listed(more, url, x.depth + 1);
      }
    }
    PushNothingLost(w, seeds, more, queue[1..], longer, pages, x);
  }

  lemma PageExplained(w: World, seen: seq<Item>, pages: seq<Item>, x: Item)
    requires Explained(w, seen, pages)
    ensures Explained(w, seen + [x], pages + [x])
  {
    forall y | y in seen + [x] && y !in pages + [x] ensures Excused(w, pages + [x], y) {
      MoreExcused(w, pages, x, y);
    }
  }

  /** A crawled page: its followed links are seen already or go on the queue. */
  lemma PopPage(w: World, seeds: seq<string>, seen: seq<Item>, queue: seq<Item>, longer: seq<Item>,
      fetched: seq<Item>, pages: seq<Item>, cur: nat, host: string)
    requires CrawlInv(w, seeds, seen, queue, fetched, pages, cur) && queue != []
    requires forall y :: y in seen ==> y.url != queue[0].url
    requires w.answer(queue[0].url).Some? && w.hostOf(queue[0].url) == Some(host)
    requires |pages| < MAX_PAGES && OnHost(w, pages, host) < MAX_PAGES_PER_HOST
    requires !(queue[0].depth == 0 && HostHasRoot(w, pages, host))
    requires Grown(w, queue[0], queue[1..], longer) && Taken(w, queue[0], seen + [queue[0]], longer)
    ensures CrawlInv(w, seeds, seen + [queue[0]], longer, fetched + [queue[0]], pages + [queue[0]], queue[0].depth)
  {
    LevelsPop(seen, queue, cur);
    LevelsPush(seen + [queue[0]], queue[1..], longer, queue[0].depth);
    PageRooted(w, seeds, seen, queue, longer, pages);
    PageNothingLost(w, seeds, seen, queue, longer, pages);
    PageExplained(w, seen, pages, queue[0]);
    SeeDistinct(seen, queue[0]);
    PopPageLimits(w, seen, fetched, pages, queue[0], host);
  }

  ghost predicate Inv(w: World, seeds: seq<string>, s: Crawl) {
    CrawlInv(w, seeds, s.seen, s.queue, s.fetched, s.pages, s.level)
  }

  lemma StartInv(w: World, seeds: seq<string>)
    ensures Inv(w, seeds, Start(seeds))
  {
    var queue := Start(seeds).queue;
    forall s | s in seeds ensures Known([], queue, s, 0) {
      var i :| 0 <= i < |seeds| && seeds[i] == s;
      assert queue[i] in queue;
    }
  }

  lemma TurnKeepsInv(w: World, seeds: seq<string>, s: Crawl)
    requires Inv(w, seeds, s) && GoesOn(s)
    ensures Inv(w, seeds, Turn(w, s))
  {
    var x := s.queue[0];
    if x.url in UrlsOf(s.seen) {
      PopAgain(w, seeds, s.seen, s.queue, s.fetched, s.pages, s.level);
    } else {
      assert forall y :: y in s.seen ==> y.url in UrlsOf(s.seen);
      var t := s.(queue := s.queue[1..], level := x.depth, seen := s.seen + [x]);
      if PassedOver(w, t, x) {
        PopPassed(w, seeds, s.seen, s.queue, s.fetched, s.fetched, s.pages, s.level);
      } else if w.answer(x.url).None? {
        PopPassed(w, seeds, s.seen, s.queue, s.fetched, s.fetched + [x], s.pages, s.level);
      } else {
        PageGrows(w, t, x, w.answer(x.url).value);
        PopPage(w, seeds, s.seen, s.queue, Visited(w, t, x).queue, s.fetched, s.pages, s.level, w.hostOf(x.url).value);
      }
    }
  }

  lemma PageGrows(w: World, t: Crawl, x: Item, links: seq<string>)
    requires w.answer(x.url) == Some(links) && w.hostOf(x.url).Some?
    ensures var longer := t.queue + ToQueue(w, x, links, UrlsOf(t.seen));
      Grown(w, x, t.queue, longer) && Taken(w, x, t.seen, longer)
  {
    var added := ToQueue(w, x, links, UrlsOf(t.seen));
    ToQueueIs(w, x, links, UrlsOf(t.seen));
    var longer := t.queue + added;
    forall i | |t.queue| <= i < |longer| ensures longer[i].depth == x.depth + 1 && Follows(w, x, longer[i].url) {
      assert longer[i] in added;
    }
    forall url | Follows(w, x, url) && Item(url, x.depth + 1) !in longer ensures url in UrlsOf(t.seen) {
      assert Item(url, x.depth + 1) !in added;
    }
  }

  /** The number of pages or the queue: one of them moves, lexicographically. */
  lemma {:induction false} TurnDecreases(w: World, s: Crawl)
    requires GoesOn(s)
    ensures |Turn(w, s).pages| > |s.pages| || (|Turn(w, s).pages| == |s.pages| && |Turn(w, s).queue| < |s.queue|)
  {
  }

  /** The loop's own books: the visited set, the page counts, and the rooted hosts. */
  ghost predicate Books(w: World, s: Crawl, visited: set<string>, perHost: map<string, nat>, rooted: set<string>) {
    && visited == UrlsOf(s.seen)
    && (forall h :: OnHost(w, s.pages, h) == if h in perHost then perHost[h] else 0)
    && (forall h :: h in rooted <==> HostHasRoot(w, s.pages, h))
  }

  lemma SeeUrl(seen: seq<Item>, x: Item)
    ensures UrlsOf(seen + [x]) == UrlsOf(seen) + {x.url}
  {
  }

  lemma PageBooks(w: World, s: Crawl, t: Crawl, x: Item, host: string, visited: set<string>,
      perHost: map<string, nat>, rooted: set<string>)
    requires Books(w, s, visited, perHost, rooted) && w.hostOf(x.url) == Some(host)
    requires t.seen == s.seen && t.pages == s.pages + [x]
    ensures Books(w, t, visited, perHost[host := (if host in perHost then perHost[host] else 0) + 1],
      if x.depth == 0 then rooted + {host} else rooted)
  {
    forall h ensures OnHost(w, t.pages, h) == OnHost(w, s.pages, h) + if h == host then 1 else 0 {
      MorePages(w, s.pages, x, h);
    }
    forall h ensures HostHasRoot(w, t.pages, h) <==> HostHasRoot(w, s.pages, h) || (x.depth == 0 && h == host) {
      if HostHasRoot(w, s.pages, h) {
        var p :| p in s.pages && p.depth == 0 && w.hostOf(p.url) == Some(h);
        assert p in t.pages;
      } else if x.depth == 0 && h == host {
        assert x in t.pages;
      }
    }
  }

  /** The loop of `CrawlerModule.run`: every turn is a `Turn`, so whatever `Turn` keeps
      holds at the end. */
  method Loop(w: World, seeds: seq<string>, ghost k: Crawl -> bool) returns (s: Crawl)
    requires k(Start(seeds)) && forall t :: k(t) && GoesOn(t) ==> k(Turn(w, t))
    ensures k(s) && !GoesOn(s)
  {
    s := Crawl([], seq(|seeds|, i requires 0 <= i < |seeds| => Item(seeds[i], 0)), [], [], 0);
    assert s == Start(seeds);
    var visited: set<string>, perHost: map<string, nat>, rooted: set<string> := {}, map[], {};
    while s.queue != [] && |s.pages| < MAX_PAGES
      invariant k(s) && Books(w, s, visited, perHost, rooted)
      invariant |s.pages| <= MAX_PAGES
      decreases MAX_PAGES - |s.pages|, |s.queue|
    {
      ghost var next := Turn(w, s);
      var x := s.queue[0];
      s := s.(queue := s.queue[1..], level := x.depth);
      if x.url in visited {
        assert s == next;
        continue;
      }
      SeeUrl(s.seen, x);
      visited := visited + {x.url};
      s := s.(seen := s.seen + [x]);
      var found := w.hostOf(x.url);
      if found.None? || (x.depth == 0 && found.value in rooted)
        || (found.value in perHost && perHost[found.value] >= MAX_PAGES_PER_HOST) {
        assert s == next;
        continue;
      }
      var host := found.value;
      var answer := w.answer(x.url);
      s := s.(fetched := s.fetched + [x]);
      if answer.None? {
        assert s == next;
        continue;
      }
      PageBooks(w, s, s.(pages := s.pages + [x]), x, host, visited, perHost, rooted);
      if x.depth == 0 {
        rooted := rooted + {host};
      }
      perHost := perHost[host := (if host in perHost then perHost[host] else 0) + 1];
      var queue := Enqueue(w, x, answer.value, visited, s.queue);
      s := s.(pages := s.pages + [x], queue := queue);
      assert s == next;
    }
  }

  /** Where the loop ends. */
  ghost function Final(w: World, s: Crawl): Crawl
    decreases if |s.pages| < MAX_PAGES then MAX_PAGES - |s.pages| else 0, |s.queue|
  {
    if GoesOn(s) then
      TurnDecreases(w, s);
      Final(w, Turn(w, s))
    else s
  }

  /** Whatever a turn keeps holds at the end. */
  lemma {:induction false} FinalKeeps(w: World, s: Crawl, k: Crawl -> bool)
    requires k(s) && forall t :: k(t) && GoesOn(t) ==> k(Turn(w, t))
    ensures k(Final(w, s)) && !GoesOn(Final(w, s))
    decreases if |s.pages| < MAX_PAGES then MAX_PAGES - |s.pages| else 0, |s.queue|
  {
    if GoesOn(s) {
      TurnDecreases(w, s);
      FinalKeeps(w, Turn(w, s), k);
    }
  }

  lemma FinalInv(w: World, seeds: seq<string>)
    ensures Inv(w, seeds, Final(w, Start(seeds))) && !GoesOn(Final(w, Start(seeds)))
  {
    StartInv(w, seeds);
    forall t | Inv(w, seeds, t) && GoesOn(t) ensures Inv(w, seeds, Turn(w, t)) {
      TurnKeepsInv(w, seeds, t);
    }
    FinalKeeps(w, Start(seeds), t => Inv(w, seeds, t));
  }

  /** The crawl of `CrawlerModule.run`. It stops, on any web, with the queue empty or the
      page limit reached. */
  method RunCrawl(w: World, seeds: seq<string>) returns (s: Crawl)
    ensures s == Final(w, Start(seeds))
    ensures Inv(w, seeds, s)
    ensures s.queue == [] || |s.pages| == MAX_PAGES
  {
    s := Loop(w, seeds, t => Final(w, t) == Final(w, Start(seeds)));
    FinalInv(w, seeds);
  }

  // ------------------------------------------------------------------- results

  /** No URL is requested twice, at most 150 pages are crawled and at most 40 of one host,
      none deeper than 4, one root a host; every request is on the host of a seed, and
      unless it is a seed it was in scope. */
  lemma {:induction false} CrawlIsBounded(w: World, seeds: seq<string>, s: Crawl)
    requires Inv(w, seeds, s)
    ensures DistinctUrls(s.fetched) && |s.pages| <= MAX_PAGES
    ensures forall h :: OnHost(w, s.pages, h) <= MAX_PAGES_PER_HOST
    ensures forall x :: x in s.seen ==> x.depth <= MAX_DEPTH && (x.url in seeds || w.inScope(x.url))
    ensures forall x :: x in s.fetched ==> exists seed :: seed in seeds && w.hostOf(seed) == w.hostOf(x.url)
  {
    forall x | x in s.seen ensures x.depth <= MAX_DEPTH && (x.url in seeds || w.inScope(x.url)) {
      assert Rooted(w, seeds, s.pages, x);
    }
    forall x | x in s.fetched ensures exists seed :: seed in seeds && w.hostOf(seed) == w.hostOf(x.url) {
      SeedOfSeen(w, seeds, s, x);
    }
  }

  lemma {:induction false} SeedOfSeen(w: World, seeds: seq<string>, s: Crawl, x: Item)
    requires Inv(w, seeds, s) && x in s.seen
    ensures exists seed :: seed in seeds && w.hostOf(seed) == w.hostOf(x.url)
    decreases x.depth
  {
    assert Rooted(w, seeds, s.pages, x);
    if !(x.depth == 0 && x.url in seeds) {
      var p :| p in s.pages && Follows(w, p, x.url) && x.depth == p.depth + 1;
      assert p in s.fetched;
      SeedOfSeen(w, seeds, s, p);
    }
  }

  /** The URL can be reached from a seed in `n` followed links over crawled pages. */
  ghost predicate Reached(w: World, seeds: seq<string>, pages: seq<Item>, url: string, n: nat)
    decreases n
  {
    if n == 0 then url in seeds
    else exists p :: p in pages && Links(w, p.url, url) && Reached(w, seeds, pages, p.url, n - 1)
  }

  /** An in-scope link to the same host. */
  predicate Links(w: World, page: string, url: string) {
    && w.answer(page).Some? && url in w.answer(page).value
    && w.hostOf(url).Some? && w.hostOf(url) == w.hostOf(page) && w.inScope(url)
  }

  /** A crawled URL is reached in as many links as its depth says. */
  lemma {:induction false} DepthIsReached(w: World, seeds: seq<string>, s: Crawl, x: Item)
    requires Inv(w, seeds, s) && x in s.seen
    ensures Reached(w, seeds, s.pages, x.url, x.depth)
    decreases x.depth
  {
    assert Rooted(w, seeds, s.pages, x);
    if x.depth > 0 {
      var p :| p in s.pages && Follows(w, p, x.url) && x.depth == p.depth + 1;
      assert p in s.fetched;
      DepthIsReached(w, seeds, s, p);
      assert Links(w, p.url, x.url);
    }
  }

  lemma SeenOnce(seen: seq<Item>, x: Item, y: Item)
    requires DistinctUrls(seen) && x in seen && y in seen && x.url == y.url
    ensures x == y
  {
  }

  /** Whatever is reached in `n` links is known at depth `n` or above. */
  lemma {:induction false} ReachedIsKnown(w: World, seeds: seq<string>, seen: seq<Item>, queue: seq<Item>,
      pages: seq<Item>, level: nat, url: string, n: nat)
    requires NothingLost(w, seeds, seen, queue, pages) && Levels(seen, queue, level) && DistinctUrls(seen)
    requires forall p :: p in pages ==> p in seen
    requires Reached(w, seeds, pages, url, n) && n <= MAX_DEPTH
    ensures Known(seen, queue, url, n)
    decreases n
  {
    if n > 0 {
      var p :| p in pages && Links(w, p.url, url) && Reached(w, seeds, pages, p.url, n - 1);
      ReachedIsKnown(w, seeds, seen, queue, pages, level, p.url, n - 1);
      PageIsShallow(seen, queue, p, n - 1, level);
      assert Follows(w, p, url);
      Deeper(seen, queue, url, p.depth + 1, n);
    }
  }

  lemma Deeper(seen: seq<Item>, queue: seq<Item>, url: string, n: nat, m: nat)
    requires Known(seen, queue, url, n) && n <= m
    ensures Known(seen, queue, url, m)
  {
  }

  /** What has been seen is no deeper than any known listing of its URL. */
  lemma PageIsShallow(seen: seq<Item>, queue: seq<Item>, p: Item, n: nat, level: nat)
    requires DistinctUrls(seen) && Levels(seen, queue, level) && p in seen && Known(seen, queue, p.url, n)
    ensures p.depth <= n
  {
    if Listed(seen, p.url, n) {
      var y :| y in seen && y.url == p.url && y.depth <= n;
      SeenOnce(seen, p, y);
    }
  }

  /** Breadth first means shortest: the depth of a crawled URL is the least number of links
      that lead to it from a seed over crawled pages. */
  lemma DepthIsShortest(w: World, seeds: seq<string>, s: Crawl, x: Item)
    requires Inv(w, seeds, s) && x in s.seen
    ensures Reached(w, seeds, s.pages, x.url, x.depth)
    ensures forall n: nat :: Reached(w, seeds, s.pages, x.url, n) ==> x.depth <= n
  {
    DepthIsReached(w, seeds, s, x);
    CrawlIsBounded(w, seeds, s);
    forall n: nat | Reached(w, seeds, s.pages, x.url, n) ensures x.depth <= n {
      if n <= MAX_DEPTH {
        ReachedIsKnown(w, seeds, s.seen, s.queue, s.pages, s.level, x.url, n);
        PageIsShallow(s.seen, s.queue, x, n, s.level);
      }
    }
  }

  /** A crawl that emptied its queue has seen exactly what is within four links of a seed
      over crawled pages, and every URL it did not crawl has its reason. */
  lemma ExhaustedIsComplete(w: World, seeds: seq<string>, s: Crawl, url: string)
    requires Inv(w, seeds, s) && s.queue == []
    ensures url in UrlsOf(s.seen) <==> exists n: nat :: n <= MAX_DEPTH && Reached(w, seeds, s.pages, url, n)
    ensures forall x :: x in s.seen && x !in s.pages ==> Excused(w, s.pages, x)
  {
    if url in UrlsOf(s.seen) {
      SeenIsReached(w, seeds, s, url);
    }
    if n: nat :| n <= MAX_DEPTH && Reached(w, seeds, s.pages, url, n) {
      ReachedIsKnown(w, seeds, s.seen, s.queue, s.pages, s.level, url, n);
    }
  }

  lemma SeenIsReached(w: World, seeds: seq<string>, s: Crawl, url: string)
    requires Inv(w, seeds, s) && url in UrlsOf(s.seen)
    ensures exists n: nat :: n <= MAX_DEPTH && Reached(w, seeds, s.pages, url, n)
  {
    var x :| x in s.seen && x.url == url;
    DepthIsReached(w, seeds, s, x);
    CrawlIsBounded(w, seeds, s);
  }
}
