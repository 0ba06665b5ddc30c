/**
 * `discoverUrls`: a breadth-first walk from the start URL over the links of
 * each page, down to a depth bound, that keeps to the start URL's host.
 *
 * The network and the WHATWG URL parser are parameters (`Web`): `fetch`
 * gives a page's text or `None` when `fetch` or `text()` throws; `resolve`
 * gives `new URL(link, base).href` or `None` when it throws; `hostname`
 * gives `new URL(u).hostname` or `None` when it throws.
 */
module Discovery {
  import opened Wrappers
  import opened Text
  import opened Matching
  import opened HtmlPatterns
  import opened OrderedMaps

  datatype Web = Web(
    fetch: string -> Option<string>,
    resolve: (string, string) -> Option<string>,
    hostname: string -> Option<string>)

  const Href := "href=\""

  function HrefMatcher(html: string): nat -> Option<nat> {
    (i: nat) => HrefEnd(html, i)
  }

  lemma HrefAdvances(html: string)
    ensures Advancing(HrefMatcher(html), |html|)
  {
  }

  /** The captures of `/href="([^"]+)"/g` over `html`, one per match, in document order. */
  function Hrefs(html: string): (links: seq<string>)
    ensures |links| == |MatchAll(HrefMatcher(html), 0, |html|)|
    ensures forall t :: 0 <= t < |links| ==> links[t] != [] && '"' !in links[t]
  {
    var m := HrefMatcher(html);
    var hits := MatchAll(m, 0, |html|);
    MatchAllSpec(m, 0, |html|);
    MatchAllOfHits(m, 0, |html|, hits);
    seq(|hits|, t requires 0 <= t < |hits| => Value(html, hits[t].start, Href))
  }

  /** What the loop body does with one captured link. */
  datatype Verdict = Ignore | Queue(url: string) | Abandon

  /**
   * One link: ignored unless it starts with "http" or "/"; a "/" link is
   * resolved against the start URL; queued when its host is the start URL's;
   * `Abandon` when a URL constructor throws, which leaves the page's other
   * links unread.
   */
  function Judge(link: string, startUrl: string, web: Web): (v: Verdict)
    ensures !StartsWith(link, "http") && !StartsWith(link, "/") ==> v == Ignore
    ensures v.Queue? ==> web.hostname(startUrl).Some? && web.hostname(v.url) == web.hostname(startUrl)
    ensures v.Queue? && StartsWith(link, "http") ==> v.url == link
    ensures v.Queue? && !StartsWith(link, "http") ==> StartsWith(link, "/") && web.resolve(link, startUrl) == Some(v.url)
  {
    if !StartsWith(link, "http") && !StartsWith(link, "/") then Ignore
    else
      var absolute := if StartsWith(link, "http") then Some(link) else web.resolve(link, startUrl);
      if absolute.None? then Abandon
      else
        var host := web.hostname(absolute.value);
        var startHost := web.hostname(startUrl);
        if host.None? || startHost.None? then Abandon
        else if host == startHost then Queue(absolute.value)
        else Ignore
  }

  /** The URLs the links queue, in order, up to the first link that throws. */
  function Follow(links: seq<string>, startUrl: string, web: Web): (r: seq<string>)
    ensures |r| <= |links|
    ensures forall u :: u in r ==> web.hostname(startUrl).Some? && web.hostname(u) == web.hostname(startUrl)
  {
    if links == [] then []
    else
      match Judge(links[0], startUrl, web)
      case Ignore => Follow(links[1..], startUrl, web)
      case Queue(u) => [u] + Follow(links[1..], startUrl, web)
      case Abandon => []
  }

  /** A link that throws ends the page: the links after it are never read. */
  lemma {:induction false} FollowAbandons(links: seq<string>, i: nat, startUrl: string, web: Web)
    requires i < |links| && Judge(links[i], startUrl, web) == Abandon
    ensures Follow(links, startUrl, web) == Follow(links[..i], startUrl, web)
  {
    if i > 0 {
      FollowAbandons(links[1..], i - 1, startUrl, web);
      assert links[1..][..i - 1] == links[..i][1..];
    }
  }

  /** Up to a throw, each link is judged on its own: the queued URLs of a concatenation concatenate. */
  lemma {:induction false} FollowAppend(a: seq<string>, b: seq<string>, startUrl: string, web: Web)
    requires forall t :: 0 <= t < |a| ==> Judge(a[t], startUrl, web) != Abandon
    ensures Follow(a + b, startUrl, web) == Follow(a, startUrl, web) + Follow(b, startUrl, web)
  {
    if a == [] {
      assert a + b == b;
    } else {
      assert (a + b)[0] == a[0] && (a + b)[1..] == a[1..] + b;
      FollowAppend(a[1..], b, startUrl, web);
    }
  }

  lemma FollowAt(links: seq<string>, i: nat, startUrl: string, web: Web)
    requires i < |links|
    ensures Follow(links[i..], startUrl, web) ==
      match Judge(links[i], startUrl, web)
      case Ignore => Follow(links[i + 1..], startUrl, web)
      case Queue(u) => [u] + Follow(links[i + 1..], startUrl, web)
      case Abandon => []
  {
    assert links[i..][0] == links[i] && links[i..][1..] == links[i + 1..];
  }

  lemma HrefsAt(html: string, hits: seq<Hit>, t: nat)
    requires hits == MatchAll(HrefMatcher(html), 0, |html|) && t < |hits|
    ensures AttrAt(html, hits[t].start, Href) && Hrefs(html)[t] == Value(html, hits[t].start, Href)
  {
    MatchAllSpec(HrefMatcher(html), 0, |html|);
    MatchAllOfHits(HrefMatcher(html), 0, |html|, hits);
  }

  /** The URLs the walk queues from the page at `url`: none when the fetch throws. */
  function Links(web: Web, startUrl: string, url: string): (r: seq<string>)
    ensures forall u :: u in r ==> web.hostname(startUrl).Some? && web.hostname(u) == web.hostname(startUrl)
  {
    match web.fetch(url)
    case None => []
    case Some(html) => Follow(Hrefs(html), startUrl, web)
  }

  /** The `try` block of one page: fetch it, run the link pattern over it, judge each capture. */
  method PageLinks(url: string, startUrl: string, web: Web) returns (queued: seq<string>)
    ensures queued == Links(web, startUrl, url)
  {
    queued := [];
    var page := web.fetch(url);
    if page.None? {
      return;
    }
    var html := page.value;
    HrefAdvances(html);
    var hits := ExecAll(HrefMatcher(html), |html|);
    ghost var links := Hrefs(html);
    assert Links(web, startUrl, url) == Follow(links, startUrl, web);
    var i := 0;
    while i < |hits|
      invariant 0 <= i <= |hits| == |links|
      invariant queued + Follow(links[i..], startUrl, web) == Follow(links, startUrl, web)
    {
      HrefsAt(html, hits, i);
      var link := Value(html, hits[i].start, Href);
      FollowAt(links, i, startUrl, web);
      var v := Judge(link, startUrl, web);
      if v.Abandon? {
        return;
      }
      if v.Queue? {
        queued := queued + [v.url];
      }
      i := i + 1;
    }
  }

  /** The link relation the walk follows. */
  function Graph(web: Web, startUrl: string): string -> seq<string> {
    (u: string) => Links(web, startUrl, u)
  }

  /** A queue entry: a URL and the number of links followed to reach it. */
  datatype Item = Item(url: string, depth: int)

  function UrlsOf(q: seq<Item>): (r: seq<string>)
    ensures |r| == |q| && forall i :: 0 <= i < |q| ==> r[i] == q[i].url
  {
    seq(|q|, i requires 0 <= i < |q| => q[i].url)
  }

  /** `chain` starts at the start URL and each URL after the first is queued from the page before it. */
  ghost predicate Path(next: string -> seq<string>, startUrl: string, chain: seq<string>) {
    && chain != []
    && chain[0] == startUrl
    && forall j :: 0 <= j < |chain| - 1 ==> chain[j + 1] in next(chain[j])
  }

  lemma PathExtend(next: string -> seq<string>, startUrl: string, chain: seq<string>, u: string)
    requires Path(next, startUrl, chain) && u in next(chain[|chain| - 1])
    ensures Path(next, startUrl, chain + [u])
  {
  }

  /** Every URL reached over a path of links other than the start URL itself has the start URL's host. */
  lemma PathHost(web: Web, startUrl: string, chain: seq<string>)
    requires Path(Graph(web, startUrl), startUrl, chain) && |chain| > 1
    ensures web.hostname(startUrl).Some? && web.hostname(chain[|chain| - 1]) == web.hostname(startUrl)
  {
    assert chain[|chain| - 1] in Links(web, startUrl, chain[|chain| - 2]);
  }

  /** A queue entry no deeper than `top`, with the path it was reached by. */
  ghost predicate EntryOk(next: string -> seq<string>, startUrl: string, top: int, item: Item, path: seq<string>) {
    && 0 <= item.depth <= top
    && Path(next, startUrl, path)
    && path[|path| - 1] == item.url
    && |path| == item.depth + 1
  }

  /** The queue, with a path for every entry, in order of depth and spanning at most two depths. */
  ghost predicate QueueOk(next: string -> seq<string>, startUrl: string, top: int, q: seq<Item>, paths: seq<seq<string>>) {
    && |paths| == |q|
    && (forall i :: 0 <= i < |q| ==> EntryOk(next, startUrl, top, q[i], paths[i]))
    && (forall i, j :: 0 <= i < j < |q| ==> q[i].depth <= q[j].depth)
    && (q != [] ==> q[|q| - 1].depth <= q[0].depth + 1)
  }

  /** The URLs found so far, each with the path it was reached by, in order of path length. */
  ghost predicate Found(next: string -> seq<string>, startUrl: string, bound: int, urls: seq<string>, chains: seq<seq<string>>) {
    && |chains| == |urls|
    && Distinct(urls)
    && (forall i :: 0 <= i < |urls| ==>
          && Path(next, startUrl, chains[i])
          && chains[i][|chains[i]| - 1] == urls[i]
          && |chains[i]| <= bound + 1)
    && (forall i, j :: 0 <= i < j < |urls| ==> |chains[i]| <= |chains[j]|)
  }

  /**
   * Every page fetched had all the URLs it queues found, or still waiting in
   * the queue `q` no deeper than one link below that page.
   */
  ghost predicate Closed(next: string -> seq<string>, startUrl: string, bound: int, urls: seq<string>, chains: seq<seq<string>>, q: seq<Item>)
    requires |chains| == |urls|
  {
    forall i, u :: 0 <= i < |urls| && |chains[i]| <= bound && u in next(urls[i]) ==>
      u in urls || exists k :: 0 <= k < |q| && q[k].url == u && q[k].depth <= |chains[i]|
  }

  /** No path of links reaches a found URL in fewer steps than the path it was found by. */
  ghost predicate Shortest(next: string -> seq<string>, startUrl: string, urls: seq<string>, chains: seq<seq<string>>)
    requires |chains| == |urls|
  {
    forall i, p :: 0 <= i < |urls| && Path(next, startUrl, p) && p[|p| - 1] == urls[i] ==> |chains[i]| <= |p|
  }

  /** Every URL reached over a path of at most `h` URLs is found. */
  ghost predicate Reached(next: string -> seq<string>, startUrl: string, urls: seq<string>, h: int) {
    forall p :: Path(next, startUrl, p) && |p| <= h ==> p[|p| - 1] in urls
  }

  /**
   * The breadth-first facts of the walk: every URL is found by a shortest
   * path, and every URL nearer than the head of the queue is already found.
   */
  ghost predicate Bfs(next: string -> seq<string>, startUrl: string, queue: seq<Item>, urls: seq<string>, chains: seq<seq<string>>) {
    && |chains| == |urls|
    && Shortest(next, startUrl, urls, chains)
    && (queue != [] ==> Reached(next, startUrl, urls, queue[0].depth))
  }

  /** The entries at the head of the queue that share the head's depth. */
  function FrontRun(q: seq<Item>, d: int): nat {
    if q == [] || q[0].depth != d then 0 else 1 + FrontRun(q[1..], d)
  }

  lemma {:induction false} FrontRunAppend(a: seq<Item>, b: seq<Item>, d: int)
    requires forall i :: 0 <= i < |b| ==> b[i].depth != d
    ensures FrontRun(a + b, d) == FrontRun(a, d)
  {
    if a == [] {
      assert a + b == b;
    } else {
      assert (a + b)[1..] == a[1..] + b;
      FrontRunAppend(a[1..], b, d);
    }
  }

  /** How far the walk still has to go: the depths left to reach, then the entries left at the head's depth. */
  function Remaining(top: int, q: seq<Item>): (int, nat) {
    if q == [] then (0, 0) else (top + 1 - q[0].depth, FrontRun(q, q[0].depth))
  }

  /** The queue after taking the head and appending `pushed`. */
  function Next(q: seq<Item>, pushed: seq<Item>): seq<Item>
    requires q != []
  {
    q[1..] + pushed
  }

  /** The entries queued from a page at depth `d`. */
  function Pushed(links: seq<string>, d: int): (r: seq<Item>)
    ensures |r| == |links| && UrlsOf(r) == links
    ensures forall i :: 0 <= i < |r| ==> r[i] == Item(links[i], d + 1)
  {
    seq(|links|, i requires 0 <= i < |links| => Item(links[i], d + 1))
  }

  /** Their paths: the page's path and one more link. */
  function Extended(path: seq<string>, links: seq<string>): (r: seq<seq<string>>)
    ensures |r| == |links|
    ensures forall i :: 0 <= i < |r| ==> r[i] == path + [links[i]]
  {
    seq(|links|, i requires 0 <= i < |links| => path + [links[i]])
  }

  lemma PushedOk(next: string -> seq<string>, startUrl: string, top: int, item: Item, path: seq<string>, links: seq<string>)
    requires EntryOk(next, startUrl, top, item, path) && item.depth < top
    requires links == next(item.url)
    ensures forall i :: 0 <= i < |links| ==> EntryOk(next, startUrl, top, Pushed(links, item.depth)[i], Extended(path, links)[i])
  {
    forall i | 0 <= i < |links| ensures EntryOk(next, startUrl, top, Pushed(links, item.depth)[i], Extended(path, links)[i]) {
      PathExtend(next, startUrl, path, links[i]);
    }
  }

  /** Appending entries one level below the head keeps the queue in order. */
  lemma QueueAppend(next: string -> seq<string>, startUrl: string, top: int, q: seq<Item>, paths: seq<seq<string>>, pushed: seq<Item>, extended: seq<seq<string>>)
    requires QueueOk(next, startUrl, top, q, paths) && q != [] && |extended| == |pushed|
    requires forall i :: 0 <= i < |pushed| ==> EntryOk(next, startUrl, top, pushed[i], extended[i]) && pushed[i].depth == q[0].depth + 1
    ensures QueueOk(next, startUrl, top, q[1..] + pushed, paths[1..] + extended)
  {
    QueueSkip(next, startUrl, top, q, paths);
    var r := q[1..];
    var q' := r + pushed;
    var paths' := paths[1..] + extended;
    forall i | 0 <= i < |q'| ensures EntryOk(next, startUrl, top, q'[i], paths'[i]) {
      if i < |r| {
        assert q'[i] == r[i] && paths'[i] == paths[1..][i];
      } else {
        assert q'[i] == pushed[i - |r|] && paths'[i] == extended[i - |r|];
      }
    }
    forall i, j | 0 <= i < j < |q'| ensures q'[i].depth <= q'[j].depth {
      if j < |r| {
        assert q'[i] == r[i] && q'[j] == r[j];
      } else if i < |r| {
        assert q'[i] == q[i + 1] && q'[i].depth <= q[|q| - 1].depth;
      }
    }
    if q' != [] && |r| > 0 {
      assert q'[0] == q[1];
    }
  }

  lemma QueueSkip(next: string -> seq<string>, startUrl: string, top: int, q: seq<Item>, paths: seq<seq<string>>)
    requires QueueOk(next, startUrl, top, q, paths) && q != []
    ensures QueueOk(next, startUrl, top, q[1..], paths[1..])
  {
    var q' := q[1..];
    forall i, j | 0 <= i < j < |q'| ensures q'[i].depth <= q'[j].depth {
      assert q'[i] == q[i + 1] && q'[j] == q[j + 1];
    }
  }

  lemma RemainingStep(top: int, q: seq<Item>, pushed: seq<Item>, paths: seq<seq<string>>, next: string -> seq<string>, startUrl: string)
    requires QueueOk(next, startUrl, top, q, paths) && q != []
    requires forall i :: 0 <= i < |pushed| ==> pushed[i].depth == q[0].depth + 1 <= top
    ensures var q' := Next(q, pushed);
      || Remaining(top, q').0 < Remaining(top, q).0
      || (Remaining(top, q').0 == Remaining(top, q).0 && Remaining(top, q').1 < Remaining(top, q).1)
    ensures 0 <= Remaining(top, Next(q, pushed)).0 <= Remaining(top, q).0
  {
    var d := q[0].depth;
    var q' := Next(q, pushed);
    FrontRunAppend(q[1..], pushed, d);
    if |q| > 1 {
      assert q'[0] == q[1] && q[1].depth >= d;
      assert q[1..][0] == q[1];
    } else if q' != [] {
      assert q'[0] == pushed[0];
    }
  }

  /** Taking a URL already found off the queue keeps the walk closed. */
  lemma ClosedSkip(next: string -> seq<string>, startUrl: string, bound: int, urls: seq<string>, chains: seq<seq<string>>, q: seq<Item>)
    requires |chains| == |urls| && Closed(next, startUrl, bound, urls, chains, q)
    requires q != [] && (q[0].url in urls || urls == [])
    ensures Closed(next, startUrl, bound, urls, chains, q[1..])
  {
    var q' := q[1..];
    forall i, u | 0 <= i < |urls| && |chains[i]| <= bound && u in next(urls[i])
      ensures u in urls || exists k :: 0 <= k < |q'| && q'[k].url == u && q'[k].depth <= |chains[i]|
    {
      if u !in urls {
        var k :| 0 <= k < |q| && q[k].url == u && q[k].depth <= |chains[i]|;
        assert k > 0 && q'[k - 1] == q[k];
      }
    }
  }

  /**
   * Finding the head's URL, and queueing what its page links to when it is
   * fetched, keeps the walk closed.
   */
  lemma ClosedVisit(next: string -> seq<string>, startUrl: string, bound: int, urls: seq<string>, chains: seq<seq<string>>, q: seq<Item>, path: seq<string>, pushed: seq<Item>)
    requires |chains| == |urls| && Closed(next, startUrl, bound, urls, chains, q) && q != []
    requires |path| <= bound ==> UrlsOf(pushed) == next(q[0].url) && forall k :: 0 <= k < |pushed| ==> pushed[k].depth <= |path|
    ensures Closed(next, startUrl, bound, urls + [q[0].url], chains + [path], q[1..] + pushed)
  {
    var urls' := urls + [q[0].url];
    var chains' := chains + [path];
    var pending := q[1..] + pushed;
    forall i, u | 0 <= i < |urls'| && |chains'[i]| <= bound && u in next(urls'[i])
      ensures u in urls' || exists k :: 0 <= k < |pending| && pending[k].url == u && pending[k].depth <= |chains'[i]|
    {
      if i < |urls| {
        assert urls'[i] == urls[i] && chains'[i] == chains[i];
        if u !in urls && u != q[0].url {
          var k :| 0 <= k < |q| && q[k].url == u && q[k].depth <= |chains[i]|;
          assert k > 0 && pending[k - 1] == q[k];
        }
      } else {
        var k :| 0 <= k < |pushed| && UrlsOf(pushed)[k] == u;
        assert pending[|q| - 1 + k] == pushed[k];
      }
    }
  }

  /** Finding a new URL, reached by a path no shorter than any before, keeps the found URLs in order. */
  lemma FoundVisit(next: string -> seq<string>, startUrl: string, bound: int, urls: seq<string>, chains: seq<seq<string>>, u: string, path: seq<string>)
    requires Found(next, startUrl, bound, urls, chains) && u !in urls
    requires Path(next, startUrl, path) && path[|path| - 1] == u && |path| <= bound + 1
    requires urls != [] ==> |chains[|urls| - 1]| <= |path|
    ensures Found(next, startUrl, bound, urls + [u], chains + [path])
  {
    var urls' := urls + [u];
    var chains' := chains + [path];
    forall i, j | 0 <= i < j < |urls'| ensures urls'[i] != urls'[j] && |chains'[i]| <= |chains'[j]| {
      if j == |urls| {
        assert urls'[i] == urls[i] && chains'[i] == chains[i];
        assert |chains[i]| <= |chains[|urls| - 1]|;
      }
    }
  }

  /** The fetched pages stay the found URLs reached by paths shorter than the bound, as a prefix. */
  lemma FetchedVisit(bound: int, urls: seq<string>, chains: seq<seq<string>>, fetched: seq<string>, u: string, path: seq<string>)
    requires |chains| == |urls| && |fetched| <= |urls| && fetched == urls[..|fetched|]
    requires forall i :: 0 <= i < |urls| ==> (i < |fetched| <==> |chains[i]| <= bound)
    requires forall i :: 0 <= i < |urls| ==> |chains[i]| <= |path|
    ensures var fetched' := if |path| <= bound then fetched + [u] else fetched;
      var urls' := urls + [u];
      var chains' := chains + [path];
      && |fetched'| <= |urls'| && fetched' == urls'[..|fetched'|]
      && forall i :: 0 <= i < |urls'| ==> (i < |fetched'| <==> |chains'[i]| <= bound)
  {
    if |path| <= bound && urls != [] {
      assert |chains[|urls| - 1]| <= bound;
      assert |fetched| == |urls|;
    }
  }

  /**
   * The bookkeeping of the walk: `visited` holds the found URLs, the start
   * URL is found first, the last found is no deeper than the head of the
   * queue, and the fetched pages are the found URLs above the bound.
   */
  ghost predicate Ledger(startUrl: string, depth: int, queue: seq<Item>, urls: seq<string>, chains: seq<seq<string>>,
                         visited: set<string>, fetched: seq<string>) {
    && |chains| == |urls|
    && (forall u :: u in visited <==> u in urls)
    && (depth < 0 ==> urls == [])
    && (depth >= 0 && urls == [] ==> queue == [Item(startUrl, 0)])
    && (urls != [] ==> urls[0] == startUrl)
    && (queue != [] && urls != [] ==> |chains[|urls| - 1]| <= queue[0].depth + 1)
    && |fetched| <= |urls| && fetched == urls[..|fetched|]
    && (forall i :: 0 <= i < |urls| ==> (i < |fetched| <==> |chains[i]| <= depth))
  }

  /** The state of the walk between two turns of the loop. */
  ghost predicate Walk(next: string -> seq<string>, startUrl: string, depth: int, queue: seq<Item>, paths: seq<seq<string>>,
                       urls: seq<string>, chains: seq<seq<string>>, visited: set<string>, fetched: seq<string>) {
    && QueueOk(next, startUrl, Top(depth), queue, paths)
    && Found(next, startUrl, depth, urls, chains)
    && Ledger(startUrl, depth, queue, urls, chains, visited, fetched)
    && Closed(next, startUrl, depth, urls, chains, queue)
  }

  /** The deepest an entry of the queue can be. */
  function Top(depth: int): nat {
    if depth < 0 then 0 else depth
  }

  /** An entry already found, or too deep, is dropped. */
  lemma SkipStep(next: string -> seq<string>, startUrl: string, depth: int, queue: seq<Item>, paths: seq<seq<string>>,
                 urls: seq<string>, chains: seq<seq<string>>, visited: set<string>, fetched: seq<string>)
    requires Walk(next, startUrl, depth, queue, paths, urls, chains, visited, fetched) && queue != []
    requires queue[0].url in visited || queue[0].depth > depth
    ensures Walk(next, startUrl, depth, queue[1..], paths[1..], urls, chains, visited, fetched)
  {
    QueueSkip(next, startUrl, Top(depth), queue, paths);
    ClosedSkip(next, startUrl, depth, urls, chains, queue);
    if |queue| > 1 {
      assert queue[1..][0] == queue[1];
    }
  }

  lemma LedgerVisit(startUrl: string, depth: int, queue: seq<Item>, urls: seq<string>, chains: seq<seq<string>>,
                    visited: set<string>, fetched: seq<string>, queue': seq<Item>, path: seq<string>)
    requires Ledger(startUrl, depth, queue, urls, chains, visited, fetched) && queue != []
    requires queue[0].url !in visited && 0 <= queue[0].depth <= depth && |path| == queue[0].depth + 1
    requires queue' != [] ==> queue'[0].depth >= queue[0].depth
    requires forall i :: 0 <= i < |urls| ==> |chains[i]| <= |path|
    ensures Ledger(startUrl, depth, queue', urls + [queue[0].url], chains + [path], visited + {queue[0].url},
                   if queue[0].depth < depth then fetched + [queue[0].url] else fetched)
  {
    FetchedVisit(depth, urls, chains, fetched, queue[0].url, path);
  }

  /** The queue side of a visit: the head taken off, its page's links appended one level deeper. */
  lemma VisitQueue(next: string -> seq<string>, startUrl: string, depth: int, queue: seq<Item>, paths: seq<seq<string>>,
                   urls: seq<string>, chains: seq<seq<string>>, pushed: seq<Item>, extended: seq<seq<string>>)
    requires QueueOk(next, startUrl, Top(depth), queue, paths) && queue != [] && |chains| == |urls|
    requires Closed(next, startUrl, depth, urls, chains, queue)
    requires queue[0].depth <= depth
    requires queue[0].depth < depth ==>
      var links := next(queue[0].url);
      pushed == Pushed(links, queue[0].depth) && extended == Extended(paths[0], links)
    requires queue[0].depth >= depth ==> pushed == [] && extended == []
    ensures QueueOk(next, startUrl, Top(depth), queue[1..] + pushed, paths[1..] + extended)
    ensures Closed(next, startUrl, depth, urls + [queue[0].url], chains + [paths[0]], queue[1..] + pushed)
    ensures queue[1..] + pushed != [] ==> queue[0].depth <= (queue[1..] + pushed)[0].depth <= queue[0].depth + 1
  {
    var item, path := queue[0], paths[0];
    assert EntryOk(next, startUrl, Top(depth), item, path);
    if item.depth < depth {
      PushedOk(next, startUrl, Top(depth), item, path, next(item.url));
    }
    QueueAppend(next, startUrl, Top(depth), queue, paths, pushed, extended);
    ClosedVisit(next, startUrl, depth, urls, chains, queue, path, pushed);
    var q' := queue[1..] + pushed;
    if q' != [] {
      if |queue| > 1 {
        assert q'[0] == queue[1] && queue[1].depth <= queue[|queue| - 1].depth;
      } else {
        assert q'[0] == pushed[0];
      }
    }
  }

  /** A new entry is found, and its page's links queued one level deeper when it is above the bound. */
  lemma VisitStep(next: string -> seq<string>, startUrl: string, depth: int, queue: seq<Item>, paths: seq<seq<string>>,
                  urls: seq<string>, chains: seq<seq<string>>, visited: set<string>, fetched: seq<string>,
                  pushed: seq<Item>, extended: seq<seq<string>>)
    requires Walk(next, startUrl, depth, queue, paths, urls, chains, visited, fetched) && queue != []
    requires queue[0].url !in visited && queue[0].depth <= depth
    requires queue[0].depth < depth ==>
      var links := next(queue[0].url);
      pushed == Pushed(links, queue[0].depth) && extended == Extended(paths[0], links)
    requires queue[0].depth >= depth ==> pushed == [] && extended == []
    ensures Walk(next, startUrl, depth, queue[1..] + pushed, paths[1..] + extended,
                 urls + [queue[0].url], chains + [paths[0]], visited + {queue[0].url},
                 if queue[0].depth < depth then fetched + [queue[0].url] else fetched)
    ensures queue[1..] + pushed != [] ==> (queue[1..] + pushed)[0].depth <= queue[0].depth + 1
  {
    var path := paths[0];
    var u := queue[0].url;
    assert EntryOk(next, startUrl, Top(depth), queue[0], path);
    assert Found(next, startUrl, depth, urls, chains);
    VisitQueue(next, startUrl, depth, queue, paths, urls, chains, pushed, extended);
    forall i | 0 <= i < |urls| ensures |chains[i]| <= |path| {
      assert |chains[i]| <= |chains[|urls| - 1]|;
    }
    FoundVisit(next, startUrl, depth, urls, chains, u, path);
    LedgerVisit(startUrl, depth, queue, urls, chains, visited, fetched, queue[1..] + pushed, path);
  }

  /** More URLs found, and a shorter reach asked for, keep every URL within reach found. */
  lemma ReachedMono(next: string -> seq<string>, startUrl: string, urls: seq<string>, urls': seq<string>, h: int, h': int)
    requires Reached(next, startUrl, urls, h) && h' <= h && forall u :: u in urls ==> u in urls'
    ensures Reached(next, startUrl, urls', h')
  {
  }

  /**
   * The level step of breadth-first search: when every URL within one link
   * less than the head's depth is found, so is every URL within the head's
   * depth (`ReachedOne` says why).
   */
  lemma ReachedLevel(next: string -> seq<string>, startUrl: string, depth: int, q: seq<Item>, paths: seq<seq<string>>,
                     urls: seq<string>, chains: seq<seq<string>>)
    requires |chains| == |urls| && Shortest(next, startUrl, urls, chains)
    requires QueueOk(next, startUrl, Top(depth), q, paths) && q != []
    requires Closed(next, startUrl, depth, urls, chains, q)
    requires q[0].depth >= 1 ==> urls != [] && urls[0] == startUrl
    requires Reached(next, startUrl, urls, q[0].depth - 1)
    ensures Reached(next, startUrl, urls, q[0].depth)
  {
    assert EntryOk(next, startUrl, Top(depth), q[0], paths[0]);
    forall k | 0 < k < |q| ensures q[0].depth <= q[k].depth {
    }
    forall p | Path(next, startUrl, p) && |p| == q[0].depth > 1 ensures p[|p| - 1] in urls {
      ReachedOne(next, startUrl, depth, q, urls, chains, p);
    }
  }

  /**
   * A path of as many URLs as the head's depth ends at a found URL: its last
   * link leaves a found page at most that deep minus one, which was fetched,
   * and the queue holds nothing that shallow for the link to wait in.
   */
  lemma ReachedOne(next: string -> seq<string>, startUrl: string, depth: int, q: seq<Item>,
                   urls: seq<string>, chains: seq<seq<string>>, p: seq<string>)
    requires |chains| == |urls| && Shortest(next, startUrl, urls, chains)
    requires q != [] && forall k :: 0 < k < |q| ==> q[0].depth <= q[k].depth
    requires Closed(next, startUrl, depth, urls, chains, q)
    requires Reached(next, startUrl, urls, q[0].depth - 1)
    requires Path(next, startUrl, p) && 1 < |p| == q[0].depth <= Top(depth)
    ensures p[|p| - 1] in urls
  {
    var p' := p[..|p| - 1];
    assert Path(next, startUrl, p');
    var x := p'[|p'| - 1];
    var i :| 0 <= i < |urls| && urls[i] == x;
    assert |chains[i]| <= |p'| < q[0].depth <= depth;
    assert p[|p| - 1] in next(x) by {
      assert p[|p| - 2] == x;
    }
  }

  /** A URL not yet found, taken from the head of the queue, is reached by no shorter path. */
  lemma ShortestVisit(next: string -> seq<string>, startUrl: string, urls: seq<string>, chains: seq<seq<string>>, u: string, path: seq<string>)
    requires |chains| == |urls| && Shortest(next, startUrl, urls, chains)
    requires u !in urls && Reached(next, startUrl, urls, |path| - 1)
    ensures Shortest(next, startUrl, urls + [u], chains + [path])
  {
    var urls', chains' := urls + [u], chains + [path];
    forall i, p | 0 <= i < |urls'| && Path(next, startUrl, p) && p[|p| - 1] == urls'[i] ensures |chains'[i]| <= |p| {
      if i < |urls| {
        assert urls'[i] == urls[i] && chains'[i] == chains[i];
      }
    }
  }

  /** Dropping the head of the queue keeps the breadth-first facts. */
  lemma BfsSkip(next: string -> seq<string>, startUrl: string, depth: int, queue: seq<Item>, paths: seq<seq<string>>,
                urls: seq<string>, chains: seq<seq<string>>, visited: set<string>, fetched: seq<string>)
    requires Walk(next, startUrl, depth, queue, paths, urls, chains, visited, fetched) && queue != []
    requires Walk(next, startUrl, depth, queue[1..], paths[1..], urls, chains, visited, fetched)
    requires Bfs(next, startUrl, queue, urls, chains)
    ensures Bfs(next, startUrl, queue[1..], urls, chains)
  {
    var q' := queue[1..];
    if q' != [] {
      assert q'[0] == queue[1] && queue[1].depth <= queue[|queue| - 1].depth <= queue[0].depth + 1;
      ReachedMono(next, startUrl, urls, urls, queue[0].depth, q'[0].depth - 1);
      ReachedLevel(next, startUrl, depth, q', paths[1..], urls, chains);
    }
  }

  /** Finding the head of the queue, and queueing its page's links, keeps the breadth-first facts. */
  lemma BfsVisit(next: string -> seq<string>, startUrl: string, depth: int, queue: seq<Item>, paths: seq<seq<string>>,
                 urls: seq<string>, chains: seq<seq<string>>, visited: set<string>, fetched: seq<string>,
                 queue': seq<Item>, paths': seq<seq<string>>, visited': set<string>, fetched': seq<string>)
    requires Walk(next, startUrl, depth, queue, paths, urls, chains, visited, fetched) && queue != []
    requires Bfs(next, startUrl, queue, urls, chains) && queue[0].url !in visited
    requires Walk(next, startUrl, depth, queue', paths', urls + [queue[0].url], chains + [paths[0]], visited', fetched')
    requires queue' != [] ==> queue'[0].depth <= queue[0].depth + 1
    ensures Bfs(next, startUrl, queue', urls + [queue[0].url], chains + [paths[0]])
  {
    var urls', chains' := urls + [queue[0].url], chains + [paths[0]];
    assert EntryOk(next, startUrl, Top(depth), queue[0], paths[0]);
    ShortestVisit(next, startUrl, urls, chains, queue[0].url, paths[0]);
    if queue' != [] {
      ReachedMono(next, startUrl, urls, urls', queue[0].depth, queue'[0].depth - 1);
      ReachedLevel(next, startUrl, depth, queue', paths', urls', chains');
    }
  }

  /**
   * Every URL within `depth` links of the start URL is found, once the
   * start URL is found, each URL by a shortest path, and every page within
   * the bound has all its links found.
   */
  lemma {:induction false} Complete(next: string -> seq<string>, startUrl: string, depth: int, urls: seq<string>, chains: seq<seq<string>>, p: seq<string>)
    requires |chains| == |urls| && Shortest(next, startUrl, urls, chains)
    requires urls != [] && urls[0] == startUrl
    requires forall i, u :: 0 <= i < |urls| && |chains[i]| <= depth && u in next(urls[i]) ==> u in urls
    requires Path(next, startUrl, p) && |p| <= depth + 1
    ensures p[|p| - 1] in urls
    decreases |p|
  {
    if |p| > 1 {
      var p' := p[..|p| - 1];
      assert Path(next, startUrl, p');
      Complete(next, startUrl, depth, urls, chains, p');
      var x := p'[|p'| - 1];
      var i :| 0 <= i < |urls| && urls[i] == x;
      assert p[|p| - 1] in next(urls[i]) by {
        assert p[|p| - 2] == x;
      }
    }
  }

  /** The loop invariant of `discoverUrls`: the walk's bookkeeping and its breadth-first facts. */
  ghost predicate Search(next: string -> seq<string>, startUrl: string, depth: int, queue: seq<Item>, paths: seq<seq<string>>,
                         urls: seq<string>, chains: seq<seq<string>>, visited: set<string>, fetched: seq<string>) {
    && Walk(next, startUrl, depth, queue, paths, urls, chains, visited, fetched)
    && Bfs(next, startUrl, queue, urls, chains)
  }

  /** A turn of the loop that drops the head of the queue keeps the invariant and shortens the work left. */
  lemma SkipTurn(next: string -> seq<string>, startUrl: string, depth: int, queue: seq<Item>, paths: seq<seq<string>>,
                 urls: seq<string>, chains: seq<seq<string>>, visited: set<string>, fetched: seq<string>)
    requires Search(next, startUrl, depth, queue, paths, urls, chains, visited, fetched) && queue != []
    requires queue[0].url in visited || queue[0].depth > depth
    ensures Search(next, startUrl, depth, queue[1..], paths[1..], urls, chains, visited, fetched)
    ensures Smaller(Remaining(Top(depth), queue[1..]), Remaining(Top(depth), queue))
  {
    SkipStep(next, startUrl, depth, queue, paths, urls, chains, visited, fetched);
    BfsSkip(next, startUrl, depth, queue, paths, urls, chains, visited, fetched);
    RemainingStep(Top(depth), queue, [], paths, next, startUrl);
    assert Next(queue, []) == queue[1..];
  }

  /** A turn of the loop that finds the head of the queue keeps the invariant and shortens the work left. */
  lemma VisitTurn(next: string -> seq<string>, startUrl: string, depth: int, queue: seq<Item>, paths: seq<seq<string>>,
                  urls: seq<string>, chains: seq<seq<string>>, visited: set<string>, fetched: seq<string>,
                  pushed: seq<Item>, extended: seq<seq<string>>)
    requires Search(next, startUrl, depth, queue, paths, urls, chains, visited, fetched) && queue != []
    requires queue[0].url !in visited && queue[0].depth <= depth
    requires queue[0].depth < depth ==>
      var links := next(queue[0].url);
      pushed == Pushed(links, queue[0].depth) && extended == Extended(paths[0], links)
    requires queue[0].depth >= depth ==> pushed == [] && extended == []
    ensures Search(next, startUrl, depth, queue[1..] + pushed, paths[1..] + extended,
                   urls + [queue[0].url], chains + [paths[0]], visited + {queue[0].url},
                   if queue[0].depth < depth then fetched + [queue[0].url] else fetched)
    ensures Smaller(Remaining(Top(depth), queue[1..] + pushed), Remaining(Top(depth), queue))
  {
    VisitStep(next, startUrl, depth, queue, paths, urls, chains, visited, fetched, pushed, extended);
    BfsVisit(next, startUrl, depth, queue, paths, urls, chains, visited, fetched,
             queue[1..] + pushed, paths[1..] + extended, visited + {queue[0].url},
             if queue[0].depth < depth then fetched + [queue[0].url] else fetched);
    VisitRemaining(next, startUrl, depth, queue, paths, pushed);
  }

  /** Finding the head of the queue and queueing its page's links one level deeper shortens the work left. */
  lemma VisitRemaining(next: string -> seq<string>, startUrl: string, depth: int, queue: seq<Item>, paths: seq<seq<string>>, pushed: seq<Item>)
    requires QueueOk(next, startUrl, Top(depth), queue, paths) && queue != [] && queue[0].depth <= depth
    requires queue[0].depth < depth ==> pushed == Pushed(next(queue[0].url), queue[0].depth)
    requires queue[0].depth >= depth ==> pushed == []
    ensures Smaller(Remaining(Top(depth), queue[1..] + pushed), Remaining(Top(depth), queue))
  {
    forall i | 0 <= i < |pushed| ensures pushed[i].depth == queue[0].depth + 1 <= Top(depth) {
    }
    RemainingStep(Top(depth), queue, pushed, paths, next, startUrl);
  }

  /** The lexicographic order on the work left. */
  predicate Smaller(a: (int, nat), b: (int, nat)) {
    0 <= a.0 <= b.0 && (a.0 < b.0 || a.1 < b.1)
  }

  /** When the queue runs dry, every page fetched had all it links to found. */
  lemma WalkDone(web: Web, startUrl: string, depth: int, paths: seq<seq<string>>,
                 urls: seq<string>, chains: seq<seq<string>>, visited: set<string>, fetched: seq<string>)
    requires Walk(Graph(web, startUrl), startUrl, depth, [], paths, urls, chains, visited, fetched)
    ensures depth >= 0 ==> urls != []
    ensures forall i, u :: 0 <= i < |urls| && |chains[i]| <= depth && u in Links(web, startUrl, urls[i]) ==> u in urls
  {
    forall i, u | 0 <= i < |urls| && |chains[i]| <= depth && u in Links(web, startUrl, urls[i]) ensures u in urls {
      assert u in Graph(web, startUrl)(urls[i]);
    }
  }

  /**
   * The walk's end: the start URL first, every URL found by a shortest path,
   * every link of a page within the bound found, and every URL within
   * `depth` links of the start URL found.
   */
  lemma SearchDone(web: Web, startUrl: string, depth: int, paths: seq<seq<string>>,
                   urls: seq<string>, chains: seq<seq<string>>, visited: set<string>, fetched: seq<string>)
    requires Search(Graph(web, startUrl), startUrl, depth, [], paths, urls, chains, visited, fetched)
    ensures depth < 0 ==> urls == []
    ensures depth >= 0 ==> urls != [] && urls[0] == startUrl
    ensures Found(Graph(web, startUrl), startUrl, depth, urls, chains)
    ensures forall i, u :: 0 <= i < |urls| && |chains[i]| <= depth && u in Links(web, startUrl, urls[i]) ==> u in urls
    ensures |fetched| <= |urls| && fetched == urls[..|fetched|]
    ensures forall i :: 0 <= i < |urls| ==> (i < |fetched| <==> |chains[i]| <= depth)
    ensures forall i, p :: 0 <= i < |urls| && Path(Graph(web, startUrl), startUrl, p) && p[|p| - 1] == urls[i] ==> |chains[i]| <= |p|
    ensures depth >= 0 ==> forall p :: Path(Graph(web, startUrl), startUrl, p) && |p| <= depth + 1 ==> p[|p| - 1] in urls
  {
    var next := Graph(web, startUrl);
    WalkDone(web, startUrl, depth, paths, urls, chains, visited, fetched);
    assert Shortest(next, startUrl, urls, chains);
    if depth >= 0 {
      forall i, u | 0 <= i < |urls| && |chains[i]| <= depth && u in next(urls[i]) ensures u in urls {
        assert u in Links(web, startUrl, urls[i]);
      }
      forall p | Path(next, startUrl, p) && |p| <= depth + 1 ensures p[|p| - 1] in urls {
        Complete(next, startUrl, depth, urls, chains, p);
      }
    }
  }

  /**
   * One turn of the `while` loop of `discoverUrls`: the head of the queue is
   * dropped when already visited or too deep; otherwise it is found, and when
   * it is above the bound its page is fetched and its links are queued one
   * level deeper.
   */
  method Turn(startUrl: string, depth: int, web: Web, queue: seq<Item>, ghost paths: seq<seq<string>>,
              urls: seq<string>, ghost chains: seq<seq<string>>, visited: set<string>, ghost fetched: seq<string>)
    returns (queue': seq<Item>, ghost paths': seq<seq<string>>, urls': seq<string>, ghost chains': seq<seq<string>>,
             visited': set<string>, ghost fetched': seq<string>)
    requires Search(Graph(web, startUrl), startUrl, depth, queue, paths, urls, chains, visited, fetched) && queue != []
    ensures Search(Graph(web, startUrl), startUrl, depth, queue', paths', urls', chains', visited', fetched')
    ensures Smaller(Remaining(Top(depth), queue'), Remaining(Top(depth), queue))
  {
    ghost var next := Graph(web, startUrl);
    var item := queue[0];
    if item.url in visited || item.depth > depth {
      SkipTurn(next, startUrl, depth, queue, paths, urls, chains, visited, fetched);
      return queue[1..], paths[1..], urls, chains, visited, fetched;
    }
    var pushed: seq<Item> := [];
    ghost var extended: seq<seq<string>> := [];
    if item.depth < depth {
      var links := PageLinks(item.url, startUrl, web);
      pushed, extended := Pushed(links, item.depth), Extended(paths[0], links);
    }
    VisitTurn(next, startUrl, depth, queue, paths, urls, chains, visited, fetched, pushed, extended);
    queue', paths' := queue[1..] + pushed, paths[1..] + extended;
    urls', chains', visited' := urls + [item.url], chains + [paths[0]], visited + {item.url};
    fetched' := if item.depth < depth then fetched + [item.url] else fetched;
  }

  /**
   * `discoverUrls(startUrl, depth)`: the URLs in the order they were first
   * taken from the queue. Ghost results: for each URL the path of links it
   * was reached by, and the pages fetched, in order.
   */
  method DiscoverUrls(startUrl: string, depth: int, web: Web)
    returns (urls: seq<string>, ghost chains: seq<seq<string>>, ghost fetched: seq<string>)
    ensures depth < 0 ==> urls == []
    ensures depth >= 0 ==> urls != [] && urls[0] == startUrl
    ensures Found(Graph(web, startUrl), startUrl, depth, urls, chains)
    ensures forall i, u :: 0 <= i < |urls| && |chains[i]| <= depth && u in Links(web, startUrl, urls[i]) ==> u in urls
    ensures |fetched| <= |urls| && fetched == urls[..|fetched|]
    ensures forall i :: 0 <= i < |urls| ==> (i < |fetched| <==> |chains[i]| <= depth)
    ensures forall i, p :: 0 <= i < |urls| && Path(Graph(web, startUrl), startUrl, p) && p[|p| - 1] == urls[i] ==> |chains[i]| <= |p|
    ensures depth >= 0 ==> forall p :: Path(Graph(web, startUrl), startUrl, p) && |p| <= depth + 1 ==> p[|p| - 1] in urls
  {
    ghost var next := Graph(web, startUrl);
    urls, chains, fetched := [], [], [];
    var queue := [Item(startUrl, 0)];
    ghost var paths := [[startUrl]];
    var visited: set<string> := {};
    assert EntryOk(next, startUrl, Top(depth), queue[0], paths[0]);
    while queue != []
      invariant Search(next, startUrl, depth, queue, paths, urls, chains, visited, fetched)
      decreases Remaining(Top(depth), queue).0, Remaining(Top(depth), queue).1
    {
      queue, paths, urls, chains, visited, fetched := Turn(startUrl, depth, web, queue, paths, urls, chains, visited, fetched);
    }
    SearchDone(web, startUrl, depth, paths, urls, chains, visited, fetched);
  }
}
