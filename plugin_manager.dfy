/**
 * `PluginManager`: the table of installed plugins, the built-in registry
 * they are installed from, search over the registry and usage statistics.
 *
 * The `plugins` Map is an ordered map (see `OrderedMaps`). Times are
 * milliseconds since the epoch, given as integers (`now`). Events, logging
 * and the plugin directory are not modelled.
 */
module Plugins {
  import opened Wrappers
  import opened Text
  import opened OrderedMaps
  import opened Seqs

  /** `Plugin['category']`. */
  datatype Category = Scraper | Processor | Exporter | Analyzer | Utility

  /** The plugins the registry lists, one tag per listing; `TextsOf` gives their texts. */
  datatype Entry = AdvancedScraper | PdfExtractor | ElasticsearchExport | SentimentAnalyzer | ProxyRotator | ImageDownloader

  /** The texts of a listing, the optional ones as `Option`s. */
  datatype Texts = Texts(
    name: string,
    version: string,
    description: string,
    author: string,
    downloadUrl: string,
    homepage: Option<string>,
    repository: Option<string>,
    icon: Option<string>,
    screenshots: Option<seq<string>>)

  /**
   * A registry listing: the fields the manager copies, but for `rating` and
   * `size`, which are floating point numbers. The texts are reached through
   * `entry`, so that facts about ids and categories do not have to unfold
   * them.
   */
  datatype Listing = Listing(
    id: string,
    entry: Entry,
    category: Category,
    tags: seq<string>,
    downloadCount: nat,
    lastUpdated: int)
  {
    function name(): string { TextsOf(entry).name }
    function version(): string { TextsOf(entry).version }
    function description(): string { TextsOf(entry).description }
    function author(): string { TextsOf(entry).author }
    function downloadUrl(): string { TextsOf(entry).downloadUrl }
    function homepage(): Option<string> { TextsOf(entry).homepage }
    function repository(): Option<string> { TextsOf(entry).repository }
    function icon(): Option<string> { TextsOf(entry).icon }
    function screenshots(): Option<seq<string>> { TextsOf(entry).screenshots }
  }

  /** A registry category, its texts and the number of plugins it announces. */
  datatype CategoryInfo = CategoryInfo(id: Category, name: string, description: string, count: nat)

  /** `PluginRegistry`. */
  datatype Registry = Registry(plugins: seq<Listing>, featured: seq<string>, categories: seq<CategoryInfo>)

  /** `Plugin`; `config` is the (always empty here) configuration object. */
  datatype Plugin = Plugin(
    id: string,
    name: string,
    version: string,
    description: string,
    author: string,
    category: Category,
    tags: seq<string>,
    config: map<string, string>,
    enabled: bool,
    installedAt: int,
    lastUpdated: int,
    dependencies: seq<string>,
    homepage: Option<string>,
    repository: Option<string>,
    downloadUrl: string,
    icon: Option<string>,
    screenshots: Option<seq<string>>,
    downloadCount: nat)

  /** The texts of each listing of `getMockRegistry()`. */
  function TextsOf(e: Entry): Texts {
    match e
    case AdvancedScraper => Texts("Advanced Web Scraper", "2.1.0",
      "Enhanced scraping with JavaScript rendering, form handling, and dynamic content extraction",
      "Clippr Team", "https://registry.clippr.dev/plugins/advanced-scraper-2.1.0.tar.gz",
      Some("https://clippr.dev/plugins/advanced-scraper"), Some("https://github.com/clippr/advanced-scraper"),
      Some("https://clippr.dev/icons/advanced-scraper.svg"),
      Some(["https://clippr.dev/screenshots/advanced-scraper-1.png", "https://clippr.dev/screenshots/advanced-scraper-2.png"]))
    case PdfExtractor => Texts("PDF Content Extractor", "1.5.2",
      "Extract text, images, and metadata from PDF documents with OCR support",
      "DataExtract Inc.", "https://registry.clippr.dev/plugins/pdf-extractor-1.5.2.tar.gz",
      Some("https://clippr.dev/plugins/pdf-extractor"), Some("https://github.com/dataextract/pdf-extractor"),
      Some("https://clippr.dev/icons/pdf-extractor.svg"),
      Some(["https://clippr.dev/screenshots/pdf-extractor-1.png"]))
    case ElasticsearchExport => Texts("Elasticsearch Exporter", "3.0.1",
      "Export scraped data directly to Elasticsearch with custom mappings and indexing",
      "Search Solutions", "https://registry.clippr.dev/plugins/elasticsearch-export-3.0.1.tar.gz",
      Some("https://clippr.dev/plugins/elasticsearch-export"), Some("https://github.com/searchsolutions/elasticsearch-export"),
      Some("https://clippr.dev/icons/elasticsearch-export.svg"),
      Some(["https://clippr.dev/screenshots/elasticsearch-export-1.png", "https://clippr.dev/screenshots/elasticsearch-export-2.png"]))
    case SentimentAnalyzer => Texts("AI Sentiment Analyzer", "1.8.0",
      "Analyze sentiment and emotions in scraped text content using advanced NLP models",
      "AI Labs", "https://registry.clippr.dev/plugins/sentiment-analyzer-1.8.0.tar.gz",
      Some("https://clippr.dev/plugins/sentiment-analyzer"), Some("https://github.com/ailabs/sentiment-analyzer"),
      Some("https://clippr.dev/icons/sentiment-analyzer.svg"),
      Some(["https://clippr.dev/screenshots/sentiment-analyzer-1.png"]))
    case ProxyRotator => Texts("Smart Proxy Rotator", "2.3.1",
      "Intelligent proxy rotation with health monitoring, geo-targeting, and failure recovery",
      "ProxyTech", "https://registry.clippr.dev/plugins/proxy-rotator-2.3.1.tar.gz",
      Some("https://clippr.dev/plugins/proxy-rotator"), Some("https://github.com/proxytech/proxy-rotator"),
      Some("https://clippr.dev/icons/proxy-rotator.svg"),
      Some(["https://clippr.dev/screenshots/proxy-rotator-1.png", "https://clippr.dev/screenshots/proxy-rotator-2.png"]))
    case ImageDownloader => Texts("Bulk Image Downloader", "1.4.3",
      "Download and organize images from scraped pages with duplicate detection and optimization",
      "MediaTools", "https://registry.clippr.dev/plugins/image-downloader-1.4.3.tar.gz",
      Some("https://clippr.dev/plugins/image-downloader"), Some("https://github.com/mediatools/image-downloader"),
      Some("https://clippr.dev/icons/image-downloader.svg"),
      Some(["https://clippr.dev/screenshots/image-downloader-1.png"]))
  }

  /** `getMockRegistry()`, the registry `discoverPlugins` returns; dates are midnight UTC in milliseconds. */
  function MockRegistry(): Registry {
    Registry(
      [ Listing("advanced-scraper", AdvancedScraper, Scraper, ["javascript", "spa", "dynamic", "forms"], 15420, 1752537600000),
        Listing("pdf-extractor", PdfExtractor, Processor, ["pdf", "ocr", "text-extraction", "documents"], 8932, 1752105600000),
        Listing("elasticsearch-export", ElasticsearchExport, Exporter, ["elasticsearch", "search", "indexing", "bulk-insert"], 12043, 1752278400000),
        Listing("sentiment-analyzer", SentimentAnalyzer, Analyzer, ["ai", "nlp", "sentiment", "emotions", "text-analysis"], 6734, 1752451200000),
        Listing("proxy-rotator", ProxyRotator, Utility, ["proxy", "rotation", "geo-targeting", "monitoring"], 9876, 1752192000000),
        Listing("image-downloader", ImageDownloader, Processor, ["images", "download", "optimization", "deduplication"], 11234, 1752364800000)
      ],
      ["advanced-scraper", "sentiment-analyzer", "elasticsearch-export"],
      [ CategoryInfo(Scraper, "Web Scrapers", "Enhanced scraping capabilities", 1),
        CategoryInfo(Processor, "Data Processors", "Process and transform scraped data", 2),
        CategoryInfo(Exporter, "Data Exporters", "Export data to various destinations", 1),
        CategoryInfo(Analyzer, "Data Analyzers", "Analyze and extract insights from data", 1),
        CategoryInfo(Utility, "Utilities", "Helper tools and utilities", 1)
      ])
  }

  /** The number of listings in `category`. */
  function CountIn(listings: seq<Listing>, category: Category): nat {
    Occurrences(CategoriesOf(listings), category)
  }

  /** The listing with id `id`, if any: `registry.plugins.find(p => p.id === id)`. */
  function Find(listings: seq<Listing>, id: string): (r: Option<Listing>)
    ensures r.Some? ==> r.value in listings && r.value.id == id
    ensures r.None? ==> forall l :: l in listings ==> l.id != id
  {
    if listings == [] then None
    else if listings[0].id == id then Some(listings[0])
    else Find(listings[1..], id)
  }

  /** Each category of the registry announces exactly as many plugins as it holds. */
  lemma RegistryCategoriesCounted()
    ensures var r := MockRegistry();
      forall c :: c in r.categories ==> c.count == CountIn(r.plugins, c.id)
  {
    RegistryCategories();
    var cats := [Scraper, Processor, Exporter, Analyzer, Utility, Processor];
    assert Occurrences(cats, Scraper) == 1 && Occurrences(cats, Processor) == 2 && Occurrences(cats, Exporter) == 1;
    assert Occurrences(cats, Analyzer) == 1 && Occurrences(cats, Utility) == 1;
  }

  /** The categories of the registry's listings, in order. */
  lemma RegistryCategories()
    ensures CategoriesOf(MockRegistry().plugins) == [Scraper, Processor, Exporter, Analyzer, Utility, Processor]
  {
  }

  /** The categories of the listings, in order. */
  function CategoriesOf(listings: seq<Listing>): (r: seq<Category>)
    ensures |r| == |listings| && forall i :: 0 <= i < |r| ==> r[i] == listings[i].category
  {
    seq(|listings|, i requires 0 <= i < |listings| => listings[i].category)
  }

  /** How often `c` occurs in `cs`. */
  function Occurrences(cs: seq<Category>, c: Category): nat {
    if cs == [] then 0 else (if cs[0] == c then 1 else 0) + Occurrences(cs[1..], c)
  }

  /** Every featured id of the registry is the id of a listed plugin. */
  lemma RegistryFeaturedListed()
    ensures var r := MockRegistry();
      forall f :: f in r.featured ==> Find(r.plugins, f).Some?
  {
  }

  /** No two listings of the registry share an id, so `find` by id is unambiguous. */
  lemma RegistryIdsDistinct()
    ensures var ps := MockRegistry().plugins;
      forall i, j :: 0 <= i < j < |ps| ==> ps[i].id != ps[j].id
  {
  }

  /** The record `installPlugin` stores for a listing: enabled, empty config, no dependencies. */
  function Installed(l: Listing, now: int): (p: Plugin)
    ensures p.id == l.id && p.name == l.name() && p.version == l.version() && p.description == l.description()
    ensures p.author == l.author() && p.category == l.category && p.tags == l.tags
    ensures p.downloadUrl == l.downloadUrl() && p.downloadCount == l.downloadCount
    ensures p.homepage == l.homepage() && p.repository == l.repository()
    ensures p.icon == l.icon() && p.screenshots == l.screenshots()
    ensures p.enabled && p.config == map[] && p.dependencies == []
    ensures p.installedAt == now && p.lastUpdated == now
  {
    Plugin(l.id, l.name(), l.version(), l.description(), l.author(), l.category, l.tags,
           map[], true, now, now, [], l.homepage(), l.repository(), l.downloadUrl(), l.icon(), l.screenshots(),
           l.downloadCount)
  }

  /** The record `searchPlugins` returns for a listing: the same fields, not enabled, the listing's date. */
  function Offered(l: Listing, now: int): (p: Plugin)
    ensures p == Installed(l, now).(enabled := false, lastUpdated := l.lastUpdated)
  {
    Plugin(l.id, l.name(), l.version(), l.description(), l.author(), l.category, l.tags,
           map[], false, now, l.lastUpdated, [], l.homepage(), l.repository(), l.downloadUrl(), l.icon(), l.screenshots(),
           l.downloadCount)
  }

  /** `x.toLowerCase().includes(q.toLowerCase())`. */
  predicate ContainsFolded(x: string, q: string) {
    Contains(Lower(x), Lower(q))
  }

  /** The listing passes both filters of `searchPlugins(query, category)`. */
  predicate Matches(l: Listing, query: string, category: Option<Category>) {
    && (category.None? || l.category == category.value)
    && (query == ""
        || ContainsFolded(l.name(), query)
        || ContainsFolded(l.description(), query)
        || exists t :: t in l.tags && ContainsFolded(t, query))
  }

  /** The listings that pass, in registry order. */
  function Search(listings: seq<Listing>, query: string, category: Option<Category>): (r: seq<Listing>)
    ensures forall l :: l in r <==> l in listings && Matches(l, query, category)
    ensures |r| <= |listings|
  {
    if listings == [] then []
    else if Matches(listings[0], query, category) then [listings[0]] + Search(listings[1..], query, category)
    else Search(listings[1..], query, category)
  }

  /**
   * The search keeps registry order and repeats: it filters listing by listing
   * (`SearchOne` says what it does to one listing).
   */
  lemma {:induction false} SearchAppend(a: seq<Listing>, b: seq<Listing>, query: string, category: Option<Category>)
    ensures Search(a + b, query, category) == Search(a, query, category) + Search(b, query, category)
    decreases |a|
  {
    if a == [] {
      assert a + b == b;
    } else {
      var t := a[1..];
      var head := if Matches(a[0], query, category) then [a[0]] else [];
      assert (a + b)[0] == a[0] && (a + b)[1..] == t + b;
      SearchAppend(t, b, query, category);
      FilterStep(Search(a + b, query, category), Search(a, query, category), head, Search(t + b, query, category), Search(t, query, category), Search(b, query, category));
    }
  }

  /** A single listing is returned exactly when it passes both filters. */
  lemma SearchOne(l: Listing, query: string, category: Option<Category>)
    ensures Search([l], query, category) == if Matches(l, query, category) then [l] else []
  {
    assert [l][1..] == [];
  }

  /** An empty query and no category give the whole registry. */
  lemma {:induction false} SearchAll(listings: seq<Listing>)
    ensures Search(listings, "", None) == listings
  {
    if listings != [] {
      SearchAll(listings[1..]);
    }
  }

  /** The plugins in `ps` whose `enabled` flag is `flag`, in the same order. */
  function WithFlag(ps: seq<Plugin>, flag: bool): (r: seq<Plugin>)
    ensures forall p :: p in r <==> p in ps && p.enabled == flag
    ensures |r| <= |ps|
  {
    if ps == [] then []
    else if ps[0].enabled == flag then [ps[0]] + WithFlag(ps[1..], flag)
    else WithFlag(ps[1..], flag)
  }

  /** The flag filter keeps installation order and repeats: it filters plugin by plugin. */
  lemma {:induction false} WithFlagAppend(a: seq<Plugin>, b: seq<Plugin>, flag: bool)
    ensures WithFlag(a + b, flag) == WithFlag(a, flag) + WithFlag(b, flag)
    decreases |a|
  {
    if a == [] {
      assert a + b == b;
    } else {
      var t := a[1..];
      var head := if a[0].enabled == flag then [a[0]] else [];
      assert (a + b)[0] == a[0] && (a + b)[1..] == t + b;
      WithFlagAppend(t, b, flag);
      FilterStep(WithFlag(a + b, flag), WithFlag(a, flag), head, WithFlag(t + b, flag), WithFlag(t, flag), WithFlag(b, flag));
    }
  }

  /** A single plugin is kept exactly when its flag is `flag`. */
  lemma WithFlagOne(p: Plugin, flag: bool)
    ensures WithFlag([p], flag) == if p.enabled == flag then [p] else []
  {
    assert [p][1..] == [];
  }

  /** Every plugin is enabled or disabled: the two counts add up to the total. */
  lemma {:induction false} FlagsPartition(ps: seq<Plugin>)
    ensures |WithFlag(ps, true)| + |WithFlag(ps, false)| == |ps|
  {
    if ps != [] {
      FlagsPartition(ps[1..]);
    }
  }

  /** The plugins in `ps` with `since < at(p)`, in the same order. */
  function After(ps: seq<Plugin>, since: int, installed: bool): (r: seq<Plugin>)
    ensures forall p :: p in r <==> p in ps && since < (if installed then p.installedAt else p.lastUpdated)
  {
    if ps == [] then []
    else if since < (if installed then ps[0].installedAt else ps[0].lastUpdated) then [ps[0]] + After(ps[1..], since, installed)
    else After(ps[1..], since, installed)
  }

  /** The date filter keeps installation order and repeats: it filters plugin by plugin. */
  lemma {:induction false} AfterAppend(a: seq<Plugin>, b: seq<Plugin>, since: int, installed: bool)
    ensures After(a + b, since, installed) == After(a, since, installed) + After(b, since, installed)
    decreases |a|
  {
    if a == [] {
      assert a + b == b;
    } else {
      var t := a[1..];
      var head := if since < (if installed then a[0].installedAt else a[0].lastUpdated) then [a[0]] else [];
      assert (a + b)[0] == a[0] && (a + b)[1..] == t + b;
      AfterAppend(t, b, since, installed);
      FilterStep(After(a + b, since, installed), After(a, since, installed), head, After(t + b, since, installed),
                 After(t, since, installed), After(b, since, installed));
    }
  }

  /** A single plugin is kept exactly when its date is later than `since`. */
  lemma AfterOne(p: Plugin, since: int, installed: bool)
    ensures After([p], since, installed) == if since < (if installed then p.installedAt else p.lastUpdated) then [p] else []
  {
    assert [p][1..] == [];
  }

  /** The number of plugins in `ps` of `category`. */
  function CountOf(ps: seq<Plugin>, category: Category): (n: nat)
    ensures n <= |ps|
  {
    if ps == [] then 0
    else (if ps[0].category == category then 1 else 0) + CountOf(ps[1..], category)
  }

  /** The per-category counts of all plugins add up to their number. */
  lemma {:induction false} CategoriesPartition(ps: seq<Plugin>)
    ensures CountOf(ps, Scraper) + CountOf(ps, Processor) + CountOf(ps, Exporter)
      + CountOf(ps, Analyzer) + CountOf(ps, Utility) == |ps|
  {
    if ps != [] {
      CategoriesPartition(ps[1..]);
    }
  }

  /** What `getPluginStats` returns; `categories` holds only the categories that occur. */
  datatype Stats = Stats(
    total: nat,
    enabled: nat,
    disabled: nat,
    categories: map<Category, nat>,
    recentlyInstalled: seq<Plugin>,
    recentlyUpdated: seq<Plugin>)

  const Week: int := 7 * 24 * 60 * 60 * 1000

  /** `plugins` maps each id to a plugin with that id, and `order` lists the ids once. */
  predicate Table(order: seq<string>, plugins: map<string, Plugin>) {
    Keyed(order, plugins) && forall k :: k in plugins ==> plugins[k].id == k
  }

  class PluginManager {
    var plugins: map<string, Plugin>
    var order: seq<string>
    /** The registry `discoverPlugins` returns. */
    const registry: Registry

    predicate Valid()
      reads this
    {
      Table(order, plugins)
    }

    /** `new PluginManager()`: nothing installed. */
    constructor ()
      ensures Valid() && plugins == map[] && order == [] && registry == MockRegistry()
    {
      registry := MockRegistry();
      plugins := map[];
      order := [];
    }

    /**
     * `installPlugin(pluginId)` at time `now`: the error for an id the
     * registry does not list, with nothing changed; otherwise the record
     * for its listing, stored under the id (replacing an earlier install in
     * place).
     */
    method InstallPlugin(pluginId: string, now: int) returns (r: Result<Plugin>)
      requires Valid()
      modifies this
      ensures Valid()
      ensures var l := Find(registry.plugins, pluginId);
        if l.None? then
          r == Failure("Plugin " + pluginId + " not found in registry") && plugins == old(plugins) && order == old(order)
        else
          && r == Success(Installed(l.value, now))
          && plugins == old(plugins)[pluginId := Installed(l.value, now)]
          && order == Inserted(old(order), old(plugins), pluginId)
    {
      var listing := Find(registry.plugins, pluginId);
      if listing.None? {
        return Failure("Plugin " + pluginId + " not found in registry");
      }
      var plugin := Installed(listing.value, now);
      InsertedKeyed(order, plugins, pluginId, plugin);
      order := Inserted(order, plugins, pluginId);
      plugins := plugins[pluginId := plugin];
      r := Success(plugin);
    }

    /** `uninstallPlugin(pluginId)`: removes exactly that plugin and returns true, or fails. */
    method UninstallPlugin(pluginId: string) returns (r: Result<bool>)
      requires Valid()
      modifies this
      ensures Valid()
      ensures pluginId !in old(plugins) ==>
        r == Failure("Plugin " + pluginId + " not found") && plugins == old(plugins) && order == old(order)
      ensures pluginId in old(plugins) ==>
        r == Success(true) && plugins == old(plugins) - {pluginId} && order == Without(old(order), pluginId)
    {
      if pluginId !in plugins {
        return Failure("Plugin " + pluginId + " not found");
      }
      DeletedKeyed(order, plugins, pluginId);
      plugins := plugins - {pluginId};
      order := Without(order, pluginId);
      r := Success(true);
    }

    /** `enablePlugin` (`flag` true) and `disablePlugin` (`flag` false): set only that plugin's flag, or fail. */
    method SetEnabled(pluginId: string, flag: bool) returns (r: Result<()>)
      requires Valid()
      modifies this
      ensures Valid() && order == old(order)
      ensures pluginId !in old(plugins) ==>
        r == Failure("Plugin " + pluginId + " not found") && plugins == old(plugins)
      ensures pluginId in old(plugins) ==>
        r == Success(()) && plugins == WithEnabled(old(plugins), pluginId, flag)
    {
      if pluginId !in plugins {
        return Failure("Plugin " + pluginId + " not found");
      }
      var plugin := plugins[pluginId];
      plugins := plugins[pluginId := plugin.(enabled := flag)];
      r := Success(());
    }

    /** `updatePlugin(pluginId)` at time `now`: stamps `lastUpdated` and returns the plugin, or fails. */
    method UpdatePlugin(pluginId: string, now: int) returns (r: Result<Plugin>)
      requires Valid()
      modifies this
      ensures Valid() && order == old(order)
      ensures pluginId !in old(plugins) ==>
        r == Failure("Plugin " + pluginId + " not found") && plugins == old(plugins)
      ensures pluginId in old(plugins) ==>
        var p := old(plugins)[pluginId].(lastUpdated := now);
        r == Success(p) && plugins == old(plugins)[pluginId := p]
    {
      if pluginId !in plugins {
        return Failure("Plugin " + pluginId + " not found");
      }
      var plugin := plugins[pluginId].(lastUpdated := now);
      plugins := plugins[pluginId := plugin];
      r := Success(plugin);
    }

    /**
     * `searchPlugins(query, category)` at time `now`: the registry listings
     * that pass both filters, in registry order, each offered as a plugin
     * that is not enabled.
     */
    function SearchPlugins(query: string, category: Option<Category>, now: int): (r: seq<Plugin>)
      ensures var found := Search(registry.plugins, query, category);
        |r| == |found| && forall i :: 0 <= i < |r| ==> r[i] == Offered(found[i], now)
      ensures forall p :: p in r ==> !p.enabled && p.config == map[] && p.dependencies == []
    {
      var found := Search(registry.plugins, query, category);
      seq(|found|, i requires 0 <= i < |found| => Offered(found[i], now))
    }

    /** `getInstalledPlugins()`: every installed plugin once, in installation order. */
    function InstalledPlugins(): (ps: seq<Plugin>)
      reads this
      requires Valid()
      ensures |ps| == |order|
      ensures forall i :: 0 <= i < |ps| ==> ps[i] == plugins[order[i]]
      ensures forall i, j :: 0 <= i < j < |ps| ==> ps[i].id != ps[j].id
      ensures forall p :: p in ps <==> p.id in plugins && plugins[p.id] == p
    {
      ValuesOfKeyed(order, plugins, (p: Plugin) => p.id);
      Values(order, plugins)
    }

    /** `getPlugin(pluginId)`. */
    function GetPlugin(pluginId: string): (p: Option<Plugin>)
      reads this
      requires Valid()
      ensures p.Some? <==> pluginId in plugins
      ensures p.Some? ==> p.value.id == pluginId && p.value == plugins[pluginId]
    {
      if pluginId in plugins then Some(plugins[pluginId]) else None
    }

    /** `getEnabledPlugins()`: exactly the installed plugins that are enabled. */
    function EnabledPlugins(): (ps: seq<Plugin>)
      reads this
      requires Valid()
      ensures forall p :: p in ps <==> p.id in plugins && plugins[p.id] == p && p.enabled
      ensures ps == WithFlag(InstalledPlugins(), true)
    {
      WithFlag(InstalledPlugins(), true)
    }

    /**
     * `getPluginStats()` at time `now`: the counts of all, enabled and
     * disabled plugins, the count of each category that occurs, and the
     * plugins installed or updated within the last seven days.
     */
    method PluginStats(now: int) returns (s: Stats)
      requires Valid()
      ensures s.total == |plugins| == |order|
      ensures s.enabled + s.disabled == s.total
      ensures s.enabled == |WithFlag(InstalledPlugins(), true)|
      ensures s.categories == Tally(InstalledPlugins())
      ensures forall c :: c in s.categories <==> CountOf(InstalledPlugins(), c) > 0
      ensures forall c :: c in s.categories ==> s.categories[c] == CountOf(InstalledPlugins(), c)
      ensures forall p :: p in s.recentlyInstalled <==> p in InstalledPlugins() && p.installedAt > now - Week
      ensures forall p :: p in s.recentlyUpdated <==> p in InstalledPlugins() && p.lastUpdated > now - Week
      ensures s.recentlyInstalled == After(InstalledPlugins(), now - Week, true)
      ensures s.recentlyUpdated == After(InstalledPlugins(), now - Week, false)
    {
      var ps := InstalledPlugins();
      TableSize(order, plugins);
      var categories := CountCategories(ps);
      TallyCounts(ps);
      FlagsPartition(ps);
      var since := now - Week;
      s := Stats(|ps|, |WithFlag(ps, true)|, |WithFlag(ps, false)|, categories,
                 After(ps, since, true), After(ps, since, false));
    }
  }

  /** `enablePlugin`/`disablePlugin` on the table: only that plugin's flag changes. */
  function WithEnabled(plugins: map<string, Plugin>, pluginId: string, flag: bool): (r: map<string, Plugin>)
    requires pluginId in plugins
    ensures r.Keys == plugins.Keys
    ensures r[pluginId].enabled == flag
    ensures forall k :: k in plugins && k != pluginId ==> r[k] == plugins[k]
  {
    plugins[pluginId := plugins[pluginId].(enabled := flag)]
  }

  /** Enabling or disabling twice is the same as once, and the last call wins. */
  lemma WithEnabledIdempotent(plugins: map<string, Plugin>, pluginId: string, first: bool, second: bool)
    requires pluginId in plugins
    ensures WithEnabled(WithEnabled(plugins, pluginId, first), pluginId, second) == WithEnabled(plugins, pluginId, second)
  {
  }

  /** The `forEach` of `getPluginStats`: counts the plugins of each category that occurs. */
  method CountCategories(ps: seq<Plugin>) returns (categories: map<Category, nat>)
    ensures categories == Tally(ps)
  {
    categories := map[];
    var i := 0;
    while i < |ps|
      invariant 0 <= i <= |ps|
      invariant categories == Tally(ps[..i])
    {
      assert ps[..i + 1][..i] == ps[..i];
      var c := ps[i].category;
      categories := categories[c := (if c in categories then categories[c] else 0) + 1];
      i := i + 1;
    }
    assert ps[..i] == ps;
  }

  /** The record `categories[p.category] = (categories[p.category] || 0) + 1` builds over `ps`. */
  function Tally(ps: seq<Plugin>): map<Category, nat> {
    if ps == [] then map[]
    else
      var m, c := Tally(ps[..|ps| - 1]), ps[|ps| - 1].category;
      m[c := (if c in m then m[c] else 0) + 1]
  }

  /** The tally holds exactly the categories that occur, each with its number of plugins. */
  lemma {:induction false} TallyCounts(ps: seq<Plugin>)
    ensures forall c :: c in Tally(ps) <==> CountOf(ps, c) > 0
    ensures forall c :: c in Tally(ps) ==> Tally(ps)[c] == CountOf(ps, c)
  {
    if ps != [] {
      var front, p := ps[..|ps| - 1], ps[|ps| - 1];
      TallyCounts(front);
      assert ps == front + [p];
      forall c ensures CountOf(ps, c) == CountOf(front, c) + (if p.category == c then 1 else 0) {
        CountOfAppend(front, p, c);
      }
    }
  }

  /** Counting one more plugin adds one to its category. */
  lemma {:induction false} CountOfAppend(ps: seq<Plugin>, p: Plugin, c: Category)
    ensures CountOf(ps + [p], c) == CountOf(ps, c) + (if p.category == c then 1 else 0)
  {
    if ps != [] {
      assert (ps + [p])[1..] == ps[1..] + [p];
      CountOfAppend(ps[1..], p, c);
    }
  }

  /** A well-formed table has as many ids in its order as plugins. */
  lemma TableSize(order: seq<string>, plugins: map<string, Plugin>)
    requires Table(order, plugins)
    ensures |order| == |plugins|
  {
    KeyedSize(order, plugins);
  }
}
