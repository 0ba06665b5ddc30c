/**
 * The proxy rotation of the scraping engine: `ProxyManager` loads a list of
 * proxy URLs once, from its configuration, and hands them out round-robin.
 *
 * The file system is the map `files` from path to content: a path is in the
 * map exactly when `fs.existsSync` holds for it, and the content is what
 * `fs.readFileSync(path, 'utf-8')` returns. The agents of `https-proxy-agent`
 * and `http-proxy-agent` are values that record their proxy.
 */
module Proxies {
  import opened Wrappers
  import opened Text

  /** `ProxyConfig.mode`. */
  datatype Mode = NoProxy | ScraperApi | Crawlbase | Custom

  /** `ProxyConfig`; `None` stands for an absent optional field. */
  datatype ProxyConfig = ProxyConfig(mode: Mode, apiKey: Option<string>, listFile: Option<string>)

  /** The agent `createAgent` builds for a proxy. */
  datatype Agent = HttpsAgent(proxy: string) | HttpAgent(proxy: string)

  /** A string JavaScript treats as true: present and not empty. */
  predicate Truthy(s: Option<string>) {
    s.Some? && s.value != ""
  }

  /** `line.trim()` is not empty: the line has a character that is not white space. */
  predicate NonBlank(line: string) {
    Trim(line) != []
  }

  /** `lines.filter(line => line.trim())`. */
  function NonBlankLines(lines: seq<string>): (kept: seq<string>)
    ensures |kept| <= |lines|
    ensures forall l :: l in kept ==> l in lines && NonBlank(l)
    ensures forall l :: l in lines && NonBlank(l) ==> l in kept
  {
    if lines == [] then []
    else if NonBlank(lines[0]) then [lines[0]] + NonBlankLines(lines[1..])
    else NonBlankLines(lines[1..])
  }

  /**
   * The filter keeps the file's order and its repeated lines: it works line
   * by line (`NonBlankLinesOne` says what it does to one line).
   */
  lemma {:induction false} NonBlankLinesAppend(a: seq<string>, b: seq<string>)
    ensures NonBlankLines(a + b) == NonBlankLines(a) + NonBlankLines(b)
    decreases |a|
  {
    if a == [] {
      assert a + b == b;
    } else {
      var t := a[1..];
      assert (a + b)[0] == a[0] && (a + b)[1..] == t + b;
      NonBlankLinesAppend(t, b);
    }
  }

  /** A single line is kept exactly when it is not blank. */
  lemma NonBlankLinesOne(l: string)
    ensures NonBlankLines([l]) == if NonBlank(l) then [l] else []
  {
    assert [l][1..] == [];
  }

  /**
   * The list `loadProxies` assigns, or the message of the error it throws.
   * A custom list is read only when `listFile` is given and not empty;
   * otherwise custom mode, like mode none, leaves the list empty.
   */
  function LoadProxies(config: ProxyConfig, files: map<string, string>): (r: Result<seq<string>>)
    ensures r.Success? ==> forall p :: p in r.value ==> p != ""
  {
    if config.mode == Custom && Truthy(config.listFile) then
      var path := config.listFile.value;
      if path !in files then Failure("Proxy list file not found: " + path)
      else
        Success(NonBlankLines(Split(Trim(files[path]), '\n')))
    else if config.mode == ScraperApi then
      if !Truthy(config.apiKey) then Failure("ScraperAPI requires an API key")
      else Success(["http://api.scraperapi.com?api_key=" + config.apiKey.value + "&url="])
    else if config.mode == Crawlbase then
      if !Truthy(config.apiKey) then Failure("Crawlbase requires an API key")
      else Success(["https://api.crawlbase.com?token=" + config.apiKey.value + "&url="])
    else
      Success([])
  }

  /**
   * What `loadProxies` gives in each mode: a custom list is the non-blank
   * lines of the trimmed file, kept as they are; a service gets exactly one
   * entry built from its key; anything else gives no proxy at all.
   */
  lemma LoadProxiesModes(config: ProxyConfig, files: map<string, string>)
    ensures config.mode == Custom && Truthy(config.listFile) && config.listFile.value in files ==>
      var lines := Split(Trim(files[config.listFile.value]), '\n');
      LoadProxies(config, files).Success?
      && (forall p :: p in LoadProxies(config, files).value <==> p in lines && NonBlank(p))
    ensures config.mode == Custom && Truthy(config.listFile) && config.listFile.value !in files ==>
      LoadProxies(config, files) == Failure("Proxy list file not found: " + config.listFile.value)
    ensures config.mode == ScraperApi ==>
      if Truthy(config.apiKey)
      then LoadProxies(config, files) == Success(["http://api.scraperapi.com?api_key=" + config.apiKey.value + "&url="])
      else LoadProxies(config, files) == Failure("ScraperAPI requires an API key")
    ensures config.mode == Crawlbase ==>
      if Truthy(config.apiKey)
      then LoadProxies(config, files) == Success(["https://api.crawlbase.com?token=" + config.apiKey.value + "&url="])
      else LoadProxies(config, files) == Failure("Crawlbase requires an API key")
    ensures config.mode == NoProxy || (config.mode == Custom && !Truthy(config.listFile)) ==>
      LoadProxies(config, files) == Success([])
  {
  }

  /** The agent for a proxy: the HTTPS agent exactly for a proxy that starts with `https://`. */
  function AgentFor(proxy: string): (a: Agent)
    ensures a.proxy == proxy
    ensures a.HttpsAgent? <==> StartsWith(proxy, "https://")
  {
    if StartsWith(proxy, "https://") then HttpsAgent(proxy) else HttpAgent(proxy)
  }

  class ProxyManager {
    var proxies: seq<string>
    var index: nat
    const config: ProxyConfig

    /** The cursor points into the list, or is 0 when the list is empty. */
    predicate Valid()
      reads this
    {
      index < |proxies| || (proxies == [] && index == 0)
    }

    /** `new ProxyManager(config)` once `loadProxies` has returned the list `loaded`. */
    constructor (config: ProxyConfig, loaded: seq<string>)
      ensures Valid()
      ensures this.config == config && proxies == loaded && index == 0
    {
      this.config := config;
      proxies := loaded;
      index := 0;
    }

    /**
     * `new ProxyManager(config)`: the error `loadProxies` throws, or a
     * manager holding the list it loads, its cursor at the first entry.
     */
    static method Open(config: ProxyConfig, files: map<string, string>) returns (r: Result<ProxyManager>)
      ensures r.Failure? <==> LoadProxies(config, files).Failure?
      ensures r.Failure? ==> r.error == LoadProxies(config, files).error
      ensures r.Success? ==> fresh(r.value) && r.value.Valid()
      ensures r.Success? ==> r.value.proxies == LoadProxies(config, files).value && r.value.index == 0
      ensures r.Success? ==> r.value.config == config
    {
      var loaded := LoadProxies(config, files);
      if loaded.Failure? {
        return Failure(loaded.error);
      }
      var pm := new ProxyManager(config, loaded.value);
      return Success(pm);
    }

    /**
     * `getNextProxy()`: nothing, with the cursor left alone, for an empty
     * list; otherwise the entry under the cursor, the cursor moving on by one
     * and wrapping round at the end.
     */
    method GetNextProxy() returns (p: Option<string>)
      requires Valid()
      modifies this
      ensures Valid()
      ensures proxies == old(proxies)
      ensures old(proxies) == [] ==> p.None? && index == old(index)
      ensures old(proxies) != [] ==> p == Some(proxies[old(index)]) && index == Step(|proxies|, old(index))
    {
      if |proxies| == 0 {
        return None;
      }
      p := Some(proxies[index]);
      index := (index + 1) % |proxies|;
    }

    /**
     * `createAgent()`: takes the next proxy, moving the cursor as
     * `getNextProxy` does, and builds its agent; no agent for no proxy or an
     * empty one.
     */
    method CreateAgent() returns (a: Option<Agent>)
      requires Valid()
      modifies this
      ensures Valid()
      ensures proxies == old(proxies)
      ensures old(proxies) == [] ==> a.None? && index == old(index)
      ensures old(proxies) != [] ==> index == Step(|proxies|, old(index))
      ensures old(proxies) != [] ==>
        var p := proxies[old(index)];
        a == if p == "" then None else Some(AgentFor(p))
    {
      var p := GetNextProxy();
      if p.None? || p.value == "" {
        return None;
      }
      a := Some(AgentFor(p.value));
    }
  }

  /** Where the cursor moves from `i` in a list of `n` entries: `(i + 1) % n`. */
  function Step(n: nat, i: nat): (j: nat)
    requires i < n
    ensures j < n
  {
    if i + 1 == n then 0 else i + 1
  }

  /** The position `t` places after `i` in a list of `n` entries, counting round once. */
  function Ahead(n: nat, i: nat, t: nat): nat {
    if i + t < n then i + t else i + t - n
  }

  /** The entries `k` calls of `getNextProxy` return from cursor `i`. */
  function Calls(proxies: seq<string>, i: nat, k: nat): (r: seq<string>)
    requires i < |proxies|
    ensures |r| == k
    decreases k
  {
    if k == 0 then [] else [proxies[i]] + Calls(proxies, Step(|proxies|, i), k - 1)
  }

  /** Where the cursor is after `k` calls from `i`. */
  function Cursor(n: nat, i: nat, k: nat): (j: nat)
    requires i < n
    ensures j < n
    decreases k
  {
    if k == 0 then i else Cursor(n, Step(n, i), k - 1)
  }

  /**
   * Up to `n` calls from cursor `i`: the `t`-th returns the entry `t` places
   * after the cursor, counting round, and the cursor ends `k` places on.
   */
  lemma {:induction false} CallsAt(proxies: seq<string>, i: nat, k: nat)
    requires i < |proxies| && k <= |proxies|
    ensures forall t :: 0 <= t < k ==> Calls(proxies, i, k)[t] == proxies[Ahead(|proxies|, i, t)]
    ensures Cursor(|proxies|, i, k) == Ahead(|proxies|, i, k)
    decreases k
  {
    if k > 0 {
      var n := |proxies|;
      var j := Step(n, i);
      CallsAt(proxies, j, k - 1);
      forall t | 0 < t < k ensures Calls(proxies, i, k)[t] == proxies[Ahead(n, i, t)] {
        assert Calls(proxies, i, k)[t] == Calls(proxies, j, k - 1)[t - 1];
      }
    }
  }

  /**
   * `n` consecutive calls on a list of `n` entries return the list rotated to
   * start at the cursor: every proxy exactly once, in cyclic order, and the
   * cursor is back where it started.
   */
  lemma RoundRobin(proxies: seq<string>, i: nat)
    requires i < |proxies|
    ensures Calls(proxies, i, |proxies|) == proxies[i..] + proxies[..i]
    ensures multiset(Calls(proxies, i, |proxies|)) == multiset(proxies)
    ensures Cursor(|proxies|, i, |proxies|) == i
  {
    var n := |proxies|;
    CallsAt(proxies, i, n);
    var rotated := proxies[i..] + proxies[..i];
    assert Calls(proxies, i, n) == rotated;
    assert proxies == proxies[..i] + proxies[i..];
  }
}
