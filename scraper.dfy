/**
 * The scraping service: `scrapeUrl` with its three extractors, and the
 * `scrapeWebsite` job that discovers the URLs and scrapes each of them.
 */
module Scraper {
  import opened Wrappers
  import opened Text
  import opened Matching
  import opened HtmlPatterns
  import opened Records
  import PageText
  import Discovery

  /** The matcher of `/<tag[^>]+attr([^"]+)"/gi`. */
  function AttrMatcher(html: string, tag: string, attr: string): nat -> Option<nat> {
    (i: nat) => TagAttrEnd(html, i, tag, attr)
  }

  lemma AttrMatcherAdvances(html: string, tag: string, attr: string)
    ensures Advancing(AttrMatcher(html, tag, attr), |html|)
  {
  }

  /** The capture of the match at `i`, or "" where there is none. */
  function ValueAt(html: string, i: nat, tag: string, attr: string): string {
    var p := TagAttr(html, i, tag, attr);
    if p.Some? then Value(html, p.value, attr) else ""
  }

  /** Where the capture of the match at `i` starts. */
  function ValueStart(html: string, i: nat, tag: string, attr: string): nat {
    var p := TagAttr(html, i, tag, attr);
    if p.Some? then p.value + |attr| else 0
  }

  function AttrCapture(html: string, tag: string, attr: string): nat -> string {
    (i: nat) => ValueAt(html, i, tag, attr)
  }

  function StartCapture(html: string, tag: string, attr: string): nat -> nat {
    (i: nat) => ValueStart(html, i, tag, attr)
  }

  /** The captures of `/<tag[^>]+attr([^"]+)"/gi` over `html`, one per match, in match order. */
  function AttrValues(html: string, tag: string, attr: string): (vs: seq<string>)
    ensures |vs| == |MatchAll(AttrMatcher(html, tag, attr), 0, |html|)|
  {
    MatchCaptures(AttrMatcher(html, tag, attr), |html|, AttrCapture(html, tag, attr))
  }

  /** Where each captured value starts in `html`. */
  function ValueStarts(html: string, tag: string, attr: string): seq<nat> {
    MatchCaptures(AttrMatcher(html, tag, attr), |html|, StartCapture(html, tag, attr))
  }

  /** The capture of a match: a non-empty quoted value of `attr`, inside the match. */
  lemma CaptureAt(html: string, i: nat, tag: string, attr: string)
    requires TagAttr(html, i, tag, attr).Some?
    ensures var v, p := ValueAt(html, i, tag, attr), ValueStart(html, i, tag, attr);
      && v != [] && '"' !in v
      && |attr| <= p && AtIgnoreCase(html, p - |attr|, attr)
      && At(html, p, v) && p + |v| < |html| && html[p + |v|] == '"'
      && i < p && p + |v| + 1 == TagAttrEnd(html, i, tag, attr).value
  {
    var q := TagAttr(html, i, tag, attr).value;
    assert AttrAt(html, q, attr);
  }

  /** The value `v` at `p` is a quoted value of an `attr` attribute of the page. */
  predicate QuotedAttrValue(html: string, attr: string, v: string, p: nat) {
    && v != [] && '"' !in v
    && |attr| <= p && AtIgnoreCase(html, p - |attr|, attr)
    && At(html, p, v) && p + |v| < |html| && html[p + |v|] == '"'
  }

  /**
   * Each captured value is the non-empty quoted value of an `attr` attribute
   * of the page, and the values come in document order, one per match, none
   * overlapping the next: repeated values are all kept.
   */
  lemma ValuesInDocumentOrder(html: string, tag: string, attr: string)
    ensures |AttrValues(html, tag, attr)| == |ValueStarts(html, tag, attr)| == |MatchAll(AttrMatcher(html, tag, attr), 0, |html|)|
    ensures var vs, ps := AttrValues(html, tag, attr), ValueStarts(html, tag, attr);
      && (forall t :: 0 <= t < |vs| ==> QuotedAttrValue(html, attr, vs[t], ps[t]))
      && (forall t :: 0 < t < |vs| ==> ps[t - 1] + |vs[t - 1]| < ps[t])
  {
    ValuesQuoted(html, tag, attr);
    ValuesApart(html, tag, attr);
  }

  lemma ValuesQuoted(html: string, tag: string, attr: string)
    ensures |AttrValues(html, tag, attr)| == |ValueStarts(html, tag, attr)| == |MatchAll(AttrMatcher(html, tag, attr), 0, |html|)|
    ensures var vs, ps := AttrValues(html, tag, attr), ValueStarts(html, tag, attr);
      forall t :: 0 <= t < |vs| ==> QuotedAttrValue(html, attr, vs[t], ps[t])
  {
    var m := AttrMatcher(html, tag, attr);
    var hits := MatchAll(m, 0, |html|);
    MatchAllSpec(m, 0, |html|);
    MatchAllOfHits(m, 0, |html|, hits);
    var vs, ps := AttrValues(html, tag, attr), ValueStarts(html, tag, attr);
    forall t | 0 <= t < |vs| ensures QuotedAttrValue(html, attr, vs[t], ps[t]) {
      assert m(hits[t].start).Some?;
      CaptureQuoted(html, hits[t].start, tag, attr);
    }
  }

  lemma ValuesApart(html: string, tag: string, attr: string)
    ensures var vs, ps := AttrValues(html, tag, attr), ValueStarts(html, tag, attr);
      && |vs| == |ps|
      && forall t :: 0 < t < |vs| ==> ps[t - 1] + |vs[t - 1]| < ps[t]
  {
    forall t | 0 < t < |AttrValues(html, tag, attr)|
      ensures ValueStarts(html, tag, attr)[t - 1] + |AttrValues(html, tag, attr)[t - 1]| < ValueStarts(html, tag, attr)[t]
    {
      ValueApartAt(html, tag, attr, t);
    }
  }

  lemma ValueApartAt(html: string, tag: string, attr: string, t: nat)
    requires 0 < t < |MatchAll(AttrMatcher(html, tag, attr), 0, |html|)|
    ensures ValueStarts(html, tag, attr)[t - 1] + |AttrValues(html, tag, attr)[t - 1]| < ValueStarts(html, tag, attr)[t]
  {
    var m := AttrMatcher(html, tag, attr);
    var hits := MatchAll(m, 0, |html|);
    MatchAllSpec(m, 0, |html|);
    MatchAllOfHits(m, 0, |html|, hits);
    var a, b := hits[t - 1], hits[t];
    assert m(a.start) == Some(a.end) && Resume(a) <= b.start;
    assert m(b.start).Some?;
    CapturesApart(html, a.start, b.start, tag, attr);
  }

  lemma CaptureQuoted(html: string, i: nat, tag: string, attr: string)
    requires TagAttr(html, i, tag, attr).Some?
    ensures QuotedAttrValue(html, attr, ValueAt(html, i, tag, attr), ValueStart(html, i, tag, attr))
  {
    CaptureAt(html, i, tag, attr);
  }

  /** The capture of a match ends before the capture of any match at or after its end starts. */
  lemma CapturesApart(html: string, a: nat, b: nat, tag: string, attr: string)
    requires TagAttr(html, a, tag, attr).Some? && TagAttr(html, b, tag, attr).Some?
    requires TagAttrEnd(html, a, tag, attr).value <= b
    ensures ValueStart(html, a, tag, attr) + |ValueAt(html, a, tag, attr)| < ValueStart(html, b, tag, attr)
  {
    CaptureAt(html, a, tag, attr);
    CaptureAt(html, b, tag, attr);
  }

  const ImgTag := "<img"
  const SrcAttr := "src=\""
  const AnchorTag := "<a"
  const HrefAttr := "href=\""

  /** `extractImages`: the `src` values of the `<img` tags. */
  method ExtractImages(html: string) returns (images: seq<string>)
    ensures images == AttrValues(html, ImgTag, SrcAttr)
  {
    AttrMatcherAdvances(html, ImgTag, SrcAttr);
    images := ExecCaptures(AttrMatcher(html, ImgTag, SrcAttr), |html|, AttrCapture(html, ImgTag, SrcAttr));
  }

  /** `extractLinks`: the `href` values of the `<a` tags. */
  method ExtractLinks(html: string) returns (links: seq<string>)
    ensures links == AttrValues(html, AnchorTag, HrefAttr)
  {
    AttrMatcherAdvances(html, AnchorTag, HrefAttr);
    links := ExecCaptures(AttrMatcher(html, AnchorTag, HrefAttr), |html|, AttrCapture(html, AnchorTag, HrefAttr));
  }

  /** The matcher of `/<meta[^>]+name="([^"]+)"[^>]+content="([^"]+)"/gi`. */
  function MetaMatcher(html: string): nat -> Option<nat> {
    (i: nat) => MetaEnd(html, i)
  }

  /** The (name, content) captures of the match at `i`, or empty ones where there is none. */
  function MetaPairAt(html: string, i: nat): (string, string) {
    if MetaNameAt(html, i).Some? then MetaPair(html, i) else ("", "")
  }

  function MetaCapture(html: string): nat -> (string, string) {
    (i: nat) => MetaPairAt(html, i)
  }

  /** The (name, content) captures of every meta match, in match order. */
  function MetaPairs(html: string): (pairs: seq<(string, string)>)
    ensures |pairs| == |MatchAll(MetaMatcher(html), 0, |html|)|
  {
    MatchCaptures(MetaMatcher(html), |html|, MetaCapture(html))
  }

  /** One pair per match, and neither capture of a pair is empty. */
  lemma MetaPairsNonEmpty(html: string)
    ensures |MetaPairs(html)| == |MatchAll(MetaMatcher(html), 0, |html|)|
    ensures forall t :: 0 <= t < |MetaPairs(html)| ==> MetaPairs(html)[t].0 != [] && MetaPairs(html)[t].1 != []
  {
    var m := MetaMatcher(html);
    var hits := MatchAll(m, 0, |html|);
    MatchAllSpec(m, 0, |html|);
    MatchAllOfHits(m, 0, |html|, hits);
    forall t | 0 <= t < |hits| ensures MetaPairs(html)[t].0 != [] && MetaPairs(html)[t].1 != [] {
      assert m(hits[t].start).Some?;
    }
  }

  /** `metaTags[name] = content` for each pair in turn, starting from `{}`. */
  function Assign(pairs: seq<(string, string)>): Entries<string>
    decreases |pairs|
  {
    if pairs == [] then []
    else
      var last := pairs[|pairs| - 1];
      Put(Assign(pairs[..|pairs| - 1]), last.0, last.1)
  }

  /** The names of the pairs, in order. */
  function Names(pairs: seq<(string, string)>): (names: seq<string>)
    ensures |names| == |pairs| && forall t :: 0 <= t < |pairs| ==> names[t] == pairs[t].0
  {
    seq(|pairs|, t requires 0 <= t < |pairs| => pairs[t].0)
  }

  /** Every name gets a property, and nothing else does. */
  lemma {:induction false} AssignKeys(pairs: seq<(string, string)>, name: string)
    ensures Get(Assign(pairs), name).Some? <==> name in Names(pairs)
    decreases |pairs|
  {
    if pairs != [] {
      var init := pairs[..|pairs| - 1];
      var last := pairs[|pairs| - 1];
      AssignKeys(init, name);
      PutGet(Assign(init), last.0, last.1, name);
      assert Names(pairs) == Names(init) + [last.0];
    }
  }

  /** A name keeps the content of its last occurrence. */
  lemma {:induction false} LastWins(pairs: seq<(string, string)>, t: nat)
    requires t < |pairs| && forall u :: t < u < |pairs| ==> pairs[u].0 != pairs[t].0
    ensures Get(Assign(pairs), pairs[t].0) == Some(pairs[t].1)
    decreases |pairs|
  {
    var init := pairs[..|pairs| - 1];
    var last := pairs[|pairs| - 1];
    PutGet(Assign(init), last.0, last.1, pairs[t].0);
    if t < |pairs| - 1 {
      assert init[t] == pairs[t];
      assert forall u :: t < u < |init| ==> init[u] == pairs[u];
      LastWins(init, t);
    }
  }

  /** `extractMetaTags`: the object the `exec` loop fills in. */
  method ExtractMetaTags(html: string) returns (metaTags: Entries<string>)
    ensures metaTags == Assign(MetaPairs(html))
  {
    assert Advancing(MetaMatcher(html), |html|);
    var pairs := ExecCaptures(MetaMatcher(html), |html|, MetaCapture(html));
    metaTags := [];
    var i := 0;
    while i < |pairs|
      invariant 0 <= i <= |pairs|
      invariant metaTags == Assign(pairs[..i])
    {
      assert pairs[..i + 1][..i] == pairs[..i];
      metaTags := Put(metaTags, pairs[i].0, pairs[i].1);
      i := i + 1;
    }
    assert pairs[..|pairs|] == pairs;
  }

  datatype Extracted = Extracted(meta: Entries<string>, images: seq<string>, links: seq<string>)

  datatype ScrapeResult = ScrapeResult(url: string, title: string, content: string, extractedData: Extracted)

  /**
   * What `scrapeUrl` builds from a page's text: the URL it was given, a
   * title without `<`, and at most 5000 characters of content.
   */
  function Scraped(url: string, html: string): (r: ScrapeResult)
    ensures r.url == url && '<' !in r.title && |r.content| <= PageText.ContentLimit
  {
    ScrapeResult(url, PageText.Title(html), PageText.Content(html),
      Extracted(Assign(MetaPairs(html)), AttrValues(html, ImgTag, SrcAttr), AttrValues(html, AnchorTag, HrefAttr)))
  }

  /** What `scrapeUrl` yields for `url`: `None` exactly when the fetch throws, else the result built from the page. */
  function ScrapeOf(url: string, fetch: string -> Option<string>): (r: Option<ScrapeResult>)
    ensures r.None? <==> fetch(url).None?
    ensures r.Some? ==> r.value == Scraped(url, fetch(url).value)
  {
    match fetch(url)
    case None => None
    case Some(html) => Some(Scraped(url, html))
  }

  /** `scrapeUrl`: fetch the page, then build its result. */
  method ScrapeUrl(url: string, fetch: string -> Option<string>) returns (r: Option<ScrapeResult>)
    ensures r.None? <==> fetch(url).None?
    ensures r == ScrapeOf(url, fetch)
    ensures r.Some? ==> r.value.url == url && |r.value.content| <= PageText.ContentLimit
  {
    var page := fetch(url);
    if page.None? {
      return None;
    }
    var html := page.value;
    var meta := ExtractMetaTags(html);
    var images := ExtractImages(html);
    var links := ExtractLinks(html);
    r := Some(ScrapeResult(url, PageText.Title(html), PageText.Content(html), Extracted(meta, images, links)));
  }

  /** `project.depth || 2`: a missing depth, or 0, becomes 2. */
  function EffectiveDepth(depth: Option<int>): (d: int)
    ensures depth.None? || depth.value == 0 <==> d == 2 && (depth.None? || depth.value != 2)
    ensures depth.Some? && depth.value != 0 ==> d == depth.value
  {
    if depth.None? || depth.value == 0 then 2 else depth.value
  }

  /** The values `f` yields for the URLs, in order, skipping those it yields none for. */
  function Kept<T>(urls: seq<string>, f: string -> Option<T>): (rs: seq<T>)
    ensures |rs| <= |urls|
  {
    if urls == [] then []
    else
      var rest := Kept(urls[1..], f);
      match f(urls[0])
      case None => rest
      case Some(r) => [r] + rest
  }

  lemma {:induction false} KeptAppend<T>(urls: seq<string>, url: string, f: string -> Option<T>)
    ensures Kept(urls + [url], f) == Kept(urls, f) + (match f(url) case None => [] case Some(r) => [r])
  {
    if urls == [] {
      assert urls + [url] == [url];
    } else {
      assert (urls + [url])[1..] == urls[1..] + [url];
      KeptAppend(urls[1..], url, f);
    }
  }

  lemma KeptStep<T>(urls: seq<string>, i: nat, f: string -> Option<T>, r: Option<T>)
    requires i < |urls| && r == f(urls[i])
    ensures Kept(urls[..i + 1], f) == Kept(urls[..i], f) + (match r case None => [] case Some(v) => [v])
  {
    KeptAppend(urls[..i], urls[i], f);
    assert urls[..i + 1] == urls[..i] + [urls[i]];
  }

  /** Every kept value is what `f` yields for one of the URLs. */
  lemma {:induction false} KeptFrom<T>(urls: seq<string>, f: string -> Option<T>)
    ensures forall k :: 0 <= k < |Kept(urls, f)| ==> exists i :: 0 <= i < |urls| && f(urls[i]) == Some(Kept(urls, f)[k])
  {
    if urls != [] {
      KeptFrom(urls[1..], f);
      var rest := Kept(urls[1..], f);
      forall k | 0 <= k < |Kept(urls, f)| ensures exists i :: 0 <= i < |urls| && f(urls[i]) == Some(Kept(urls, f)[k]) {
        if f(urls[0]).Some? && k == 0 {
          assert f(urls[0]) == Some(Kept(urls, f)[k]);
        } else {
          var j := if f(urls[0]).Some? then k - 1 else k;
          assert Kept(urls, f)[k] == rest[j];
          var i :| 0 <= i < |urls[1..]| && f(urls[1..][i]) == Some(rest[j]);
          assert f(urls[i + 1]) == Some(Kept(urls, f)[k]);
        }
      }
    } else {
      assert Kept(urls, f) == [];
    }
  }

  /** When `f` yields a value for every URL, one value is kept per URL, in order. */
  lemma {:induction false} KeptAll<T>(urls: seq<string>, f: string -> Option<T>)
    requires forall i :: 0 <= i < |urls| ==> f(urls[i]).Some?
    ensures Kept(urls, f) == seq(|urls|, i requires 0 <= i < |urls| && f(urls[i]).Some? => f(urls[i]).value)
  {
    if urls != [] {
      KeptAll(urls[1..], f);
    }
  }

  function ScrapeWith(fetch: string -> Option<string>): string -> Option<ScrapeResult> {
    (url: string) => ScrapeOf(url, fetch)
  }

  /** The results `scrapeWebsite` collects: one per URL whose page could be fetched, in order. */
  function Scrapes(urls: seq<string>, fetch: string -> Option<string>): seq<ScrapeResult> {
    Kept(urls, ScrapeWith(fetch))
  }

  /** Each collected result is the page of one of the URLs, built from the text fetched for it. */
  lemma ScrapesFrom(urls: seq<string>, fetch: string -> Option<string>)
    ensures forall r :: r in Scrapes(urls, fetch) ==>
      r.url in urls && fetch(r.url).Some? && r == Scraped(r.url, fetch(r.url).value)
  {
    KeptFrom(urls, ScrapeWith(fetch));
  }

  /** When every page can be fetched, there is one result per URL, in order. */
  lemma ScrapesAll(urls: seq<string>, fetch: string -> Option<string>)
    requires forall i :: 0 <= i < |urls| ==> fetch(urls[i]).Some?
    ensures |Scrapes(urls, fetch)| == |urls|
    ensures forall i :: 0 <= i < |urls| ==> Scrapes(urls, fetch)[i].url == urls[i]
  {
    KeptAll(urls, ScrapeWith(fetch));
  }

  /** How many results `createScrapedData` stores without throwing. */
  function StoredCount<T>(rs: seq<T>, store: T -> bool): (n: nat)
    ensures n <= |rs|
  {
    if rs == [] then 0 else (if store(rs[0]) then 1 else 0) + StoredCount(rs[1..], store)
  }

  lemma {:induction false} StoredAppend<T>(rs: seq<T>, r: T, store: T -> bool)
    ensures StoredCount(rs + [r], store) == StoredCount(rs, store) + (if store(r) then 1 else 0)
  {
    if rs == [] {
      assert rs + [r] == [r];
    } else {
      assert (rs + [r])[1..] == rs[1..] + [r];
      StoredAppend(rs[1..], r, store);
    }
  }

  /** The counters `updateScrapeJob` receives after each URL. */
  datatype Progress = Progress(processedUrls: nat, failedUrls: nat)

  /**
   * The loop of `scrapeWebsite`: scrape each URL in turn with `scrape`,
   * which yields `None` when the scrape throws. A URL whose scrape throws,
   * or whose result `createScrapedData` fails to store, counts as failed;
   * the result is kept in the second case, as it was pushed before the
   * store. `store` stands for `createScrapedData` succeeding.
   */
  method ScrapeAll<T>(urls: seq<string>, scrape: string -> Option<T>, store: T -> bool)
    returns (results: seq<T>, progress: seq<Progress>)
    ensures results == Kept(urls, scrape)
    ensures |progress| == |urls|
    ensures forall i :: 0 <= i < |progress| ==> progress[i].processedUrls + progress[i].failedUrls == i + 1
    ensures progress != [] ==> progress[|progress| - 1].processedUrls == StoredCount(results, store)
  {
    results := [];
    progress := [];
    var processedCount, failedCount := 0, 0;
    var i := 0;
    while i < |urls|
      invariant 0 <= i <= |urls| && |progress| == i
      invariant results == Kept(urls[..i], scrape)
      invariant processedCount == StoredCount(results, store)
      invariant processedCount + failedCount == i
      invariant forall k :: 0 <= k < i ==> progress[k].processedUrls + progress[k].failedUrls == k + 1
      invariant progress != [] ==> progress[|progress| - 1] == Progress(processedCount, failedCount)
    {
      var result := scrape(urls[i]);
      KeptStep(urls, i, scrape, result);
      if result.None? {
        failedCount := failedCount + 1;
      } else {
        StoredAppend(results, result.value, store);
        results := results + [result.value];
        if store(result.value) {
          processedCount := processedCount + 1;
        } else {
          failedCount := failedCount + 1;
        }
      }
      ghost var before := progress;
      progress := progress + [Progress(processedCount, failedCount)];
      assert forall k :: 0 <= k < i ==> progress[k] == before[k];
      i := i + 1;
    }
    assert urls[..|urls|] == urls;
  }

  /** `scrapeWebsite`: discover the URLs from the effective depth, then scrape each of them. */
  method ScrapeWebsite(startUrl: string, depth: Option<int>, web: Discovery.Web, store: ScrapeResult -> bool)
    returns (urls: seq<string>, ghost chains: seq<seq<string>>, ghost fetched: seq<string>,
             results: seq<ScrapeResult>, progress: seq<Progress>)
    ensures EffectiveDepth(depth) >= 0 ==> urls != [] && urls[0] == startUrl
    ensures Discovery.Found(Discovery.Graph(web, startUrl), startUrl, EffectiveDepth(depth), urls, chains)
    ensures forall i, u :: 0 <= i < |urls| && |chains[i]| <= EffectiveDepth(depth) && u in Discovery.Links(web, startUrl, urls[i]) ==> u in urls
    ensures |fetched| <= |urls| && fetched == urls[..|fetched|]
    ensures forall i :: 0 <= i < |urls| ==> (i < |fetched| <==> |chains[i]| <= EffectiveDepth(depth))
    ensures forall i, p :: 0 <= i < |urls| && Discovery.Path(Discovery.Graph(web, startUrl), startUrl, p) && p[|p| - 1] == urls[i] ==> |chains[i]| <= |p|
    ensures EffectiveDepth(depth) >= 0 ==>
      forall p :: Discovery.Path(Discovery.Graph(web, startUrl), startUrl, p) && |p| <= EffectiveDepth(depth) + 1 ==> p[|p| - 1] in urls
    ensures EffectiveDepth(depth) < 0 ==> urls == [] && results == [] && progress == []
    ensures results == Scrapes(urls, web.fetch)
    ensures |progress| == |urls|
    ensures forall i :: 0 <= i < |progress| ==> progress[i].processedUrls + progress[i].failedUrls == i + 1
    ensures progress != [] ==> progress[|progress| - 1].processedUrls == StoredCount(results, store)
  {
    urls, chains, fetched := Discovery.DiscoverUrls(startUrl, EffectiveDepth(depth), web);
    results, progress := ScrapeAll(urls, ScrapeWith(web.fetch), store);
  }
}
