/** How many requests the crawl makes (recon/modules/passive/crawler.py): the page limit
    counts answers, so what bounds the requests is how many URLs there are to ask for. */
module CrawlRequests {
  import opened Prelude
  import opened Crawler

  // ------------------------------------------------------ requests and failures

  ghost function Failures(w: World, items: seq<Item>): nat {
    if items == [] then 0
    else Failures(w, items[..|items| - 1]) + (if w.answer(items[|items| - 1].url).None? then 1 else 0)
  }

  ghost predicate Counted(w: World, s: Crawl) {
    |s.fetched| == |s.pages| + Failures(w, s.fetched)
  }

  lemma TurnCounts(w: World, s: Crawl)
    requires GoesOn(s) && Counted(w, s)
    ensures Counted(w, Turn(w, s))
  {
    var x := s.queue[0];
    assert (s.fetched + [x])[..|s.fetched|] == s.fetched;
  }

  /** Every request became a page or failed, so the requests are 150 plus the failures at
      most, and the failures are not limited themselves. */
  lemma RequestsAreCounted(w: World, seeds: seq<string>)
    ensures var s := Final(w, Start(seeds)); |s.fetched| == |s.pages| + Failures(w, s.fetched)
  {
    forall t | Counted(w, t) && GoesOn(t) ensures Counted(w, Turn(w, t)) {
      TurnCounts(w, t);
    }
    FinalKeeps(w, Start(seeds), t => Counted(w, t));
  }

  // ------------------------------------------------------- what can be requested

  /** A URL the crawl may ask for: a seed, or in scope on the host of a seed. */
  ghost predicate Requestable(hostOf: string -> Option<string>, inScope: string -> bool, seeds: seq<string>,
      url: string) {
    && hostOf(url).Some?
    && (url in seeds || (inScope(url) && exists seed :: seed in seeds && hostOf(seed) == hostOf(url)))
  }

  ghost predicate AllRequestable(hostOf: string -> Option<string>, inScope: string -> bool, seeds: seq<string>,
      urls: set<string>) {
    forall url :: url in urls ==> Requestable(hostOf, inScope, seeds, url)
  }

  /** There are at most `n` of them. */
  ghost predicate AtMost(n: nat, hostOf: string -> Option<string>, inScope: string -> bool, seeds: seq<string>) {
    forall urls :: AllRequestable(hostOf, inScope, seeds, urls) ==> |urls| <= n
  }

  lemma {:induction false} UrlsAreMany(items: seq<Item>)
    requires DistinctUrls(items)
    ensures |UrlsOf(items)| == |items|
  {
    if items != [] {
      var n := |items| - 1;
      UrlsAreMany(items[..n]);
      assert items == items[..n] + [items[n]];
      SeeUrl(items[..n], items[n]);
    }
  }

  lemma FetchedAreRequestable(w: World, seeds: seq<string>)
    ensures AllRequestable(w.hostOf, w.inScope, seeds, UrlsOf(Final(w, Start(seeds)).fetched))
    ensures |UrlsOf(Final(w, Start(seeds)).fetched)| == |Final(w, Start(seeds)).fetched|
  {
    FinalInv(w, seeds);
    var s := Final(w, Start(seeds));
    CrawlIsBounded(w, seeds, s);
    UrlsAreMany(s.fetched);
  }

  // ---------------------------------------------- a web that answers the latest

  /** The seed of the host that comes to its turn last. */
  function LastSeed(hostOf: string -> Option<string>, seeds: seq<string>, host: string): Option<string> {
    if seeds == [] then None
    else
      var rest, x := seeds[..|seeds| - 1], seeds[|seeds| - 1];
      if hostOf(x) == Some(host) && x !in rest then Some(x) else LastSeed(hostOf, rest, host)
  }

  lemma {:induction false} LastSeedIsSeed(hostOf: string -> Option<string>, seeds: seq<string>, host: string)
    ensures match LastSeed(hostOf, seeds, host)
      case None => forall seed :: seed in seeds ==> hostOf(seed) != Some(host)
      case Some(x) => x in seeds && hostOf(x) == Some(host)
  {
    if seeds != [] {
      LastSeedIsSeed(hostOf, seeds[..|seeds| - 1], host);
      assert seeds == seeds[..|seeds| - 1] + [seeds[|seeds| - 1]];
    }
  }

  /** Before the turn of any other seed of the host, the last one has not been seen. */
  lemma {:induction false} LastSeedIsLast(hostOf: string -> Option<string>, seeds: seq<string>, host: string, k: nat)
    requires k < |seeds| && hostOf(seeds[k]) == Some(host) && seeds[k] !in seeds[..k]
    ensures LastSeed(hostOf, seeds, host).Some? && LastSeed(hostOf, seeds, host).value !in seeds[..k]
  {
    var n := |seeds| - 1;
    var rest := seeds[..n];
    if !(hostOf(seeds[n]) == Some(host) && seeds[n] !in rest) {
      assert k < n by {
        if k == n { assert rest == seeds[..k]; }
      }
      assert rest[..k] == seeds[..k];
      LastSeedIsLast(hostOf, rest, host, k);
    } else {
      assert forall y :: y in seeds[..k] ==> y in rest;
    }
  }

  /** The pages that answer: the last seed of each host that has one of the links. */
  predicate Opens(hostOf: string -> Option<string>, seeds: seq<string>, links: seq<string>, url: string) {
    && hostOf(url).Some? && LastSeed(hostOf, seeds, hostOf(url).value) == Some(url)
    && exists x :: x in links && hostOf(x) == hostOf(url)
  }

  /** Those pages show the links, and every other request fails. */
  ghost predicate Staged(w: World, seeds: seq<string>, links: seq<string>) {
    forall url :: w.answer(url) == if Opens(w.hostOf, seeds, links, url) then Some(links) else None
  }

  /** The seeds before `k` have been taken from the queue, and the rest are its front. */
  ghost predicate Front(seeds: seq<string>, s: Crawl, k: nat) {
    && k <= |seeds| && |seeds| - k <= |s.queue|
    && (forall i :: k <= i < |seeds| ==> s.queue[i - k] == Item(seeds[i], 0))
    && (forall i :: |seeds| - k <= i < |s.queue| ==> s.queue[i].depth > 0)
    && (forall x :: x in s.seen && x.depth == 0 ==> x.url in seeds[..k])
    && (forall url :: url in seeds[..k] ==> url in UrlsOf(s.seen))
  }

  ghost predicate Requested(w: World, s: Crawl) {
    forall x :: x in s.seen && w.hostOf(x.url).Some? ==> x in s.fetched
  }

  ghost predicate StagedInv(w: World, seeds: seq<string>, s: Crawl) {
    Inv(w, seeds, s) && Requested(w, s) && exists k :: Front(seeds, s, k)
  }

  lemma FrontPop(seeds: seq<string>, s: Crawl, t: Crawl, k: nat, added: seq<Item>) returns (next: nat)
    requires Front(seeds, s, k) && s.queue != []
    requires t.queue == s.queue[1..] + added && forall x :: x in added ==> x.depth > 0
    requires t.seen == s.seen + [s.queue[0]] || (t.seen == s.seen && s.queue[0].url in UrlsOf(s.seen))
    ensures Front(seeds, t, next)
  {
    SeeUrl(s.seen, s.queue[0]);
    next := if k < |seeds| then k + 1 else k;
    forall i | |seeds| - next <= i < |t.queue| ensures t.queue[i].depth > 0 {
      if i < |s.queue| - 1 {
        assert t.queue[i] == s.queue[i + 1];
      } else {
        assert t.queue[i] in added;
      }
    }
    if k < |seeds| {
      assert seeds[..next] == seeds[..k] + [seeds[k]];
      assert s.queue[0] == Item(seeds[k], 0);
    }
  }

  lemma LinksAreDeep(w: World, p: Item, links: seq<string>, visited: set<string>)
    ensures forall x :: x in ToQueue(w, p, links, visited) ==> x.depth > 0
  {
    ToQueueIs(w, p, links, visited);
  }

  lemma FrontTurn(w: World, seeds: seq<string>, s: Crawl, k: nat) returns (next: nat)
    requires Front(seeds, s, k) && GoesOn(s)
    ensures Front(seeds, Turn(w, s), next)
  {
    var x, t := s.queue[0], Turn(w, s);
    var rest := s.queue[1..];
    if t.queue == rest {
      assert t.queue == rest + [];
      next := FrontPop(seeds, s, t, k, []);
    } else {
      var added := ToQueue(w, x, w.answer(x.url).value, UrlsOf(s.seen + [x]));
      LinksAreDeep(w, x, w.answer(x.url).value, UrlsOf(s.seen + [x]));
      next := FrontPop(seeds, s, t, k, added);
    }
  }

  lemma {:induction false} OnePageOnHost(w: World, pages: seq<Item>, host: string, url: string)
    requires DistinctUrls(pages) && forall p :: p in pages && w.hostOf(p.url) == Some(host) ==> p.url == url
    ensures OnHost(w, pages, host) <= 1
    ensures OnHost(w, pages, host) == 1 ==> url in UrlsOf(pages)
  {
    if pages != [] {
      var n := |pages| - 1;
      OnePageOnHost(w, pages[..n], host, url);
      assert pages == pages[..n] + [pages[n]];
    }
  }

  /** Every page answered, so it is the last seed of its host. */
  lemma PageIsLastSeed(w: World, seeds: seq<string>, links: seq<string>, s: Crawl, p: Item)
    requires Staged(w, seeds, links) && Inv(w, seeds, s) && p in s.pages
    ensures Opens(w.hostOf, seeds, links, p.url) && p in s.seen
  {
    assert w.answer(p.url).Some?;
  }

  /** On this web nothing that has a host is passed over. */
  lemma NotPassedOver(w: World, seeds: seq<string>, links: seq<string>, s: Crawl, k: nat)
    requires Staged(w, seeds, links) && Inv(w, seeds, s) && Front(seeds, s, k) && GoesOn(s)
    requires s.queue[0].url !in UrlsOf(s.seen) && w.hostOf(s.queue[0].url).Some?
    ensures !PassedOver(w, s, s.queue[0])
  {
    var x := s.queue[0];
    var host := w.hostOf(x.url).value;
    forall p | p in s.pages && w.hostOf(p.url) == Some(host)
      ensures Some(p.url) == LastSeed(w.hostOf, seeds, host) && p in s.seen
    {
      PageIsLastSeed(w, seeds, links, s, p);
    }
    var last := LastSeed(w.hostOf, seeds, host);
    OnePageOnHost(w, s.pages, host, if last.Some? then last.value else x.url);
    if x.depth == 0 {
      assert x == Item(seeds[k], 0) by { assert x == s.queue[k - k]; }
      LastSeedIsLast(w.hostOf, seeds, host, k);
      forall p | p in s.pages && w.hostOf(p.url) == Some(host) ensures p.depth > 0 {
      }
    }
  }

  lemma RequestedTurn(w: World, s: Crawl)
    requires Requested(w, s) && GoesOn(s)
    requires s.queue[0].url !in UrlsOf(s.seen) && w.hostOf(s.queue[0].url).Some? ==> !PassedOver(w, s, s.queue[0])
    ensures Requested(w, Turn(w, s))
  {
  }

  lemma StagedTurn(w: World, seeds: seq<string>, links: seq<string>, s: Crawl)
    requires Staged(w, seeds, links) && StagedInv(w, seeds, s) && GoesOn(s)
    ensures StagedInv(w, seeds, Turn(w, s))
  {
    TurnKeepsInv(w, seeds, s);
    var k :| Front(seeds, s, k);
    var next := FrontTurn(w, seeds, s, k);
    var x := s.queue[0];
    if x.url !in UrlsOf(s.seen) && w.hostOf(x.url).Some? {
      NotPassedOver(w, seeds, links, s, k);
    }
    RequestedTurn(w, s);
  }

  lemma StagedFinal(w: World, seeds: seq<string>, links: seq<string>)
    requires Staged(w, seeds, links)
    ensures StagedInv(w, seeds, Final(w, Start(seeds))) && !GoesOn(Final(w, Start(seeds)))
  {
    StartInv(w, seeds);
    assert Front(seeds, Start(seeds), 0);
    forall t | StagedInv(w, seeds, t) && GoesOn(t) ensures StagedInv(w, seeds, Turn(w, t)) {
      StagedTurn(w, seeds, links, t);
    }
    FinalKeeps(w, Start(seeds), t => StagedInv(w, seeds, t));
  }

  lemma SeedIsFetched(w: World, seeds: seq<string>, s: Crawl, seed: string)
    requires StagedInv(w, seeds, s) && s.queue == [] && seed in seeds && w.hostOf(seed).Some?
    ensures Item(seed, 0) in s.seen && Item(seed, 0) in s.fetched && seed in UrlsOf(s.fetched)
  {
    assert Known(s.seen, s.queue, seed, 0);
    var x :| x in s.seen && x.url == seed && x.depth <= 0;
    assert x == Item(seed, 0);
  }

  /** The last seed of a host with one of the links becomes a page. */
  lemma LastSeedIsPage(w: World, seeds: seq<string>, links: seq<string>, s: Crawl, x: string)
    requires Staged(w, seeds, links) && StagedInv(w, seeds, s) && s.queue == []
    requires x in links && w.hostOf(x).Some? && exists seed :: seed in seeds && w.hostOf(seed) == w.hostOf(x)
    ensures exists p ::
      p in s.pages && p.depth == 0 && w.hostOf(p.url) == w.hostOf(x) && Opens(w.hostOf, seeds, links, p.url)
  {
    var host := w.hostOf(x).value;
    LastSeedIsSeed(w.hostOf, seeds, host);
    var last := LastSeed(w.hostOf, seeds, host).value;
    SeedIsFetched(w, seeds, s, last);
    assert Opens(w.hostOf, seeds, links, last);
    var root := Item(last, 0);
    forall p | p in s.pages && w.hostOf(p.url) == Some(host) ensures p == root {
      PageIsLastSeed(w, seeds, links, s, p);
      SeenOnce(s.seen, p, root);
    }
    OnePageOnHost(w, s.pages, host, last);
    assert root in s.pages || Excused(w, s.pages, root);
  }

  /** All seeds and all requestable links are asked for. */
  lemma LinkIsFetched(w: World, seeds: seq<string>, links: seq<string>, s: Crawl, x: string)
    requires Staged(w, seeds, links) && StagedInv(w, seeds, s) && s.queue == []
    requires x in links && Requestable(w.hostOf, w.inScope, seeds, x)
    ensures x in UrlsOf(s.fetched)
  {
    if x in seeds {
      SeedIsFetched(w, seeds, s, x);
    } else {
      LastSeedIsPage(w, seeds, links, s, x);
      var p :| p in s.pages && p.depth == 0 && w.hostOf(p.url) == w.hostOf(x) && Opens(w.hostOf, seeds, links, p.url);
      assert Follows(w, p, x);
      assert Known(s.seen, s.queue, x, 1);
      var y :| y in s.seen && y.url == x;
      assert y in s.fetched;
    }
  }

  // ------------------------------------------------------- counting the stage

  ghost function SeedsWithHost(hostOf: string -> Option<string>, seeds: seq<string>): set<string> {
    set url | url in seeds && hostOf(url).Some?
  }

  lemma Smaller<T>(a: set<T>, b: set<T>)
    requires a <= b
    ensures |a| <= |b|
  {
    assert b == a + (b - a);
  }

  lemma FewPages(w: World, seeds: seq<string>, links: seq<string>, s: Crawl)
    requires Staged(w, seeds, links) && Inv(w, seeds, s)
    ensures |s.pages| <= |SeedsWithHost(w.hostOf, seeds)|
    ensures links == [] ==> s.pages == []
  {
    forall p | p in s.pages ensures Opens(w.hostOf, seeds, links, p.url) && p.url in SeedsWithHost(w.hostOf, seeds) {
      PageIsLastSeed(w, seeds, links, s, p);
      LastSeedIsSeed(w.hostOf, seeds, w.hostOf(p.url).value);
    }
    UrlsAreMany(s.pages);
    Smaller(UrlsOf(s.pages), SeedsWithHost(w.hostOf, seeds));
  }

  lemma OneLinkOnePage(w: World, seeds: seq<string>, link: string, s: Crawl)
    requires Staged(w, seeds, [link]) && Inv(w, seeds, s) && w.hostOf(link).Some?
    ensures |s.pages| <= 1
  {
    var last := LastSeed(w.hostOf, seeds, w.hostOf(link).value);
    var urls := if last.Some? then {last.value} else {};
    forall p | p in s.pages ensures p.url in urls {
      PageIsLastSeed(w, seeds, [link], s, p);
    }
    UrlsAreMany(s.pages);
    Smaller(UrlsOf(s.pages), urls);
  }

  /** If the seeds with a host and the links are 151 together, or the seeds are more, they
      are all asked for. */
  lemma StageFetchesAll(w: World, seeds: seq<string>, links: seq<string>)
    requires Staged(w, seeds, links) && (|links| > 0 ==> |links| + |SeedsWithHost(w.hostOf, seeds)| <= MAX_PAGES + 1)
    requires AllRequestable(w.hostOf, w.inScope, seeds, Elems(links))
    ensures SeedsWithHost(w.hostOf, seeds) + Elems(links) <= UrlsOf(Final(w, Start(seeds)).fetched)
  {
    StagedFinal(w, seeds, links);
    var s := Final(w, Start(seeds));
    FewPages(w, seeds, links, s);
    if |links| == 1 {
      assert links == [links[0]] && links[0] in Elems(links);
      OneLinkOnePage(w, seeds, links[0], s);
    }
    assert s.queue == [];
    forall x | x in SeedsWithHost(w.hostOf, seeds) ensures x in UrlsOf(s.fetched) {
      SeedIsFetched(w, seeds, s, x);
    }
    forall x | x in Elems(links) ensures x in UrlsOf(s.fetched) {
      LinkIsFetched(w, seeds, links, s, x);
    }
  }

  lemma {:induction false} Pick(urls: set<string>, n: nat) returns (links: seq<string>)
    requires n <= |urls|
    ensures |links| == n && |Elems(links)| == n && Elems(links) <= urls
    decreases n
  {
    if n == 0 {
      links := [];
    } else {
      var x :| x in urls;
      links := Pick(urls - {x}, n - 1);
      assert Elems(links + [x]) == Elems(links) + {x};
      links := links + [x];
    }
  }

  // ------------------------------------------------------------------- results

  /** The page limit does not bound the requests: where every request fails, all seeds are
      asked for, however many they are, and there is no page. */
  lemma DeadWebAsksAllSeeds(w: World, seeds: seq<string>)
    requires forall url :: w.answer(url).None?
    ensures UrlsOf(Final(w, Start(seeds)).fetched) == SeedsWithHost(w.hostOf, seeds)
    ensures |Final(w, Start(seeds)).fetched| == |SeedsWithHost(w.hostOf, seeds)| && Final(w, Start(seeds)).pages == []
  {
    assert Staged(w, seeds, []);
    StageFetchesAll(w, seeds, []);
    FetchedAreRequestable(w, seeds);
    FinalInv(w, seeds);
    var s := Final(w, Start(seeds));
    FewPages(w, seeds, [], s);
    forall x | x in s.fetched ensures x.url in SeedsWithHost(w.hostOf, seeds) {
      assert x in s.seen && Rooted(w, seeds, s.pages, x);
    }
  }

  /** More than 150 URLs to ask for, and some answers make the crawl ask for more than 150. */
  lemma ManyRequests(hostOf: string -> Option<string>, inScope: string -> bool, seeds: seq<string>, urls: set<string>)
      returns (w: World)
    requires AllRequestable(hostOf, inScope, seeds, urls) && |urls| > MAX_PAGES
    ensures w.hostOf == hostOf && w.inScope == inScope && |Final(w, Start(seeds)).fetched| > MAX_PAGES
  {
    var own := SeedsWithHost(hostOf, seeds);
    var links := [];
    if |own| <= MAX_PAGES {
      Smaller(urls, own + (urls - own));
      links := Pick(urls - own, MAX_PAGES + 1 - |own|);
    }
    w := World(hostOf, inScope, url => if Opens(hostOf, seeds, links, url) then Some(links) else None);
    StageFetchesAll(w, seeds, links);
    FetchedAreRequestable(w, seeds);
    Smaller(own + Elems(links), UrlsOf(Final(w, Start(seeds)).fetched));
    assert own !! Elems(links);
  }

  /** The requests stay within the page limit, whatever the answers, exactly if there are at
      most that many URLs which are seeds or in scope on the host of a seed. */
  lemma RequestsBoundedExactly(hostOf: string -> Option<string>, inScope: string -> bool, seeds: seq<string>)
    ensures (forall answer :: |Final(World(hostOf, inScope, answer), Start(seeds)).fetched| <= MAX_PAGES)
      <==> AtMost(MAX_PAGES, hostOf, inScope, seeds)
  {
    if AtMost(MAX_PAGES, hostOf, inScope, seeds) {
      forall answer ensures |Final(World(hostOf, inScope, answer), Start(seeds)).fetched| <= MAX_PAGES {
        FetchedAreRequestable(World(hostOf, inScope, answer), seeds);
      }
    } else {
      var urls :| AllRequestable(hostOf, inScope, seeds, urls) && |urls| > MAX_PAGES;
      var w := ManyRequests(hostOf, inScope, seeds, urls);
      assert w == World(hostOf, inScope, w.answer);
    }
  }
}
