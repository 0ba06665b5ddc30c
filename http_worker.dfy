/**
 * `HTTPWorker.fetch(job)`: one page fetch, routed through the proxy manager
 * when the worker has one.
 *
 * `fetch` of `node-fetch` is the function `fetch` from the request sent to
 * the response received, or the error it rejects with, and
 * `encodeURIComponent` is the function `encode`; both are parameters. A
 * thrown or rejected error is a `Failure` carrying its message.
 */
module Worker {
  import opened Wrappers
  import opened Text
  import opened Proxies

  /** What `fetch(url, requestOptions)` is given: the URL and the agent, if any. */
  datatype Request = Request(url: string, agent: Option<Agent>)

  /**
   * The parts of a `node-fetch` response the worker looks at; `body` is what
   * `response.text()` resolves to, or the error it rejects with.
   */
  datatype Response = Response(ok: bool, status: int, statusText: string, body: Result<string>)

  /** The request sent and where the proxy cursor is left. */
  datatype Routed = Routed(request: Request, cursor: nat)

  /** A proxy of a scraping service, which takes the target URL appended to it. */
  predicate IsService(proxy: string) {
    Contains(proxy, "scraperapi.com") || Contains(proxy, "crawlbase.com")
  }

  /** The message of the error thrown for a response that is not ok: `HTTP <status>: <statusText>`. */
  function HttpError(response: Response): (msg: string)
    ensures StartsWith(msg, "HTTP ") && EndsWith(msg, ": " + response.statusText)
  {
    var msg := "HTTP " + IntToString(response.status) + ": " + response.statusText;
    assert msg == "HTTP " + (IntToString(response.status) + ": " + response.statusText);
    assert msg[|msg| - |": " + response.statusText|..] == ": " + response.statusText;
    msg
  }

  /** The message names the status and the status text: two responses with the same message agree on both. */
  lemma HttpErrorDetermines(a: Response, b: Response)
    requires HttpError(a) == HttpError(b)
    ensures a.status == b.status && a.statusText == b.statusText
  {
    var x, y := IntToString(a.status), IntToString(b.status);
    var m := HttpError(a);
    assert m == "HTTP " + x + ": " + a.statusText;
    assert m == "HTTP " + y + ": " + b.statusText;
    assert m[5 + |x|] == ':' && m[5 + |y|] == ':';
    assert x == m[5..5 + |x|] == y;
    IntToStringInjective(a.status, b.status);
    assert a.statusText == m[7 + |x|..] == b.statusText;
  }

  /**
   * What `fetch(job)` returns once the request is sent: the error `fetch`
   * rejects with; the HTTP error for a response that is not ok; otherwise
   * what `response.text()` gives.
   */
  function Outcome(fetched: Result<Response>): (r: Result<string>)
    ensures r.Success? <==> fetched.Success? && fetched.value.ok && fetched.value.body.Success?
    ensures r.Success? ==> r.value == fetched.value.body.value
    ensures fetched.Failure? ==> r == Failure(fetched.error)
    ensures fetched.Success? && !fetched.value.ok ==> r == Failure(HttpError(fetched.value))
    ensures fetched.Success? && fetched.value.ok && fetched.value.body.Failure? ==> r == Failure(fetched.value.body.error)
  {
    if fetched.Failure? then Failure(fetched.error)
    else if !fetched.value.ok then Failure(HttpError(fetched.value))
    else fetched.value.body
  }

  /**
   * The request `fetch(job)` sends with a manager whose list is `proxies`
   * and whose cursor is `i`, and the cursor it leaves. The proxy it checks
   * is the one under the cursor; for a custom proxy, `createAgent` then takes
   * the NEXT one, so the agent is built for the entry after the checked one
   * and the cursor moves on twice.
   */
  function Route(proxies: seq<string>, i: nat, url: string, encode: string -> string): (r: Routed)
    requires i < |proxies| || (proxies == [] && i == 0)
    ensures r.cursor < |proxies| || (proxies == [] && r.cursor == 0)
    ensures r.request.agent.Some? ==> r.request.agent.value.proxy in proxies
  {
    if proxies == [] then Routed(Request(url, None), i)
    else
      var n := |proxies|;
      var p, j := proxies[i], Step(n, i);
      if p == "" then Routed(Request(url, None), j)
      else if IsService(p) then Routed(Request(p + encode(url), None), j)
      else
        var q := proxies[j];
        Routed(Request(url, if q == "" then None else Some(AgentFor(q))), Step(n, j))
  }

  /**
   * What one fetch does in each case: without a proxy the job's URL goes out
   * as it is; a service proxy is prefixed to the encoded URL, with no agent,
   * and the cursor moves on once; a custom proxy leaves the URL alone and
   * sends an agent for the entry AFTER it, when that one is not empty, and
   * the cursor moves on twice.
   */
  lemma RouteCases(proxies: seq<string>, i: nat, url: string, encode: string -> string)
    requires i < |proxies| || (proxies == [] && i == 0)
    ensures var r := Route(proxies, i, url, encode);
      && (proxies == [] ==> r == Routed(Request(url, None), i))
      && (proxies != [] && proxies[i] == "" ==> r == Routed(Request(url, None), Step(|proxies|, i)))
      && (proxies != [] && proxies[i] != "" && IsService(proxies[i]) ==>
            r == Routed(Request(proxies[i] + encode(url), None), Step(|proxies|, i)))
      && (proxies != [] && proxies[i] != "" && !IsService(proxies[i]) ==>
            var j := Step(|proxies|, i);
            && r.request.url == url
            && (r.request.agent.Some? <==> proxies[j] != "")
            && (r.request.agent.Some? ==> r.request.agent.value.proxy == proxies[j])
            && r.cursor == Step(|proxies|, j))
  {
  }

  /** Every entry of `proxies` is a custom proxy: not empty and not a service. */
  predicate AllCustom(proxies: seq<string>) {
    forall p :: p in proxies ==> p != "" && !IsService(p)
  }

  /** The agents' proxies of `k` fetches as written, from cursor `i`. */
  function WrittenAgents(proxies: seq<string>, i: nat, k: nat, url: string, encode: string -> string): (r: seq<string>)
    requires i < |proxies|
    ensures |r| <= k
    decreases k
  {
    var routed := Route(proxies, i, url, encode);
    if k == 0 || routed.request.agent.None? then []
    else [routed.request.agent.value.proxy] + WrittenAgents(proxies, routed.cursor, k - 1, url, encode)
  }

  /**
   * As written, with two custom proxies each fetch moves the cursor round to
   * where it was, and every agent is built for the same entry: the one
   * under the cursor at the start is never used.
   */
  lemma {:induction false} WrittenPairRepeats(proxies: seq<string>, i: nat, k: nat, url: string, encode: string -> string)
    requires |proxies| == 2 && i < 2 && AllCustom(proxies)
    ensures WrittenAgents(proxies, i, k, url, encode) == seq(k, _ => proxies[1 - i])
    decreases k
  {
    if k > 0 {
      assert proxies[i] in proxies && proxies[1 - i] in proxies;
      WrittenPairRepeats(proxies, i, k - 1, url, encode);
    }
  }

  /** The first agent of a pair of custom proxies is never used: the counterexample to rotation. */
  lemma WrittenPairSkips(a: string, b: string, url: string, encode: string -> string)
    requires AllCustom([a, b]) && a != b
    ensures a !in WrittenAgents([a, b], 0, 2, url, encode)
  {
    WrittenPairRepeats([a, b], 0, 2, url, encode);
  }

  /**
   * The routing the comments describe: the checked proxy is the one used,
   * for the agent as for the service prefix, and the cursor moves on once.
   */
  function IntendedRoute(proxies: seq<string>, i: nat, url: string, encode: string -> string): (r: Routed)
    requires i < |proxies| || (proxies == [] && i == 0)
    ensures proxies != [] ==> r.cursor == Step(|proxies|, i)
    ensures proxies != [] && proxies[i] != "" && !IsService(proxies[i]) ==>
      r.request == Request(url, Some(AgentFor(proxies[i])))
  {
    if proxies == [] then Routed(Request(url, None), i)
    else
      var p, j := proxies[i], Step(|proxies|, i);
      if p == "" then Routed(Request(url, None), j)
      else if IsService(p) then Routed(Request(p + encode(url), None), j)
      else Routed(Request(url, Some(AgentFor(p))), j)
  }

  /** The agents' proxies of `k` fetches routed as intended, from cursor `i`. */
  function IntendedAgents(proxies: seq<string>, i: nat, k: nat, url: string, encode: string -> string): (r: seq<string>)
    requires i < |proxies|
    ensures |r| <= k
    decreases k
  {
    var routed := IntendedRoute(proxies, i, url, encode);
    if k == 0 || routed.request.agent.None? then []
    else [routed.request.agent.value.proxy] + IntendedAgents(proxies, routed.cursor, k - 1, url, encode)
  }

  /** Routed as intended, custom proxies are used in the order `getNextProxy` hands them out. */
  lemma {:induction false} IntendedAgentsAreCalls(proxies: seq<string>, i: nat, k: nat, url: string, encode: string -> string)
    requires i < |proxies| && AllCustom(proxies)
    ensures IntendedAgents(proxies, i, k, url, encode) == Calls(proxies, i, k)
    decreases k
  {
    if k > 0 {
      assert proxies[i] in proxies;
      IntendedAgentsAreCalls(proxies, Step(|proxies|, i), k - 1, url, encode);
    }
  }

  /** Routed as intended, `n` fetches over `n` custom proxies use each of them once. */
  lemma IntendedRotation(proxies: seq<string>, i: nat, url: string, encode: string -> string)
    requires i < |proxies| && AllCustom(proxies)
    ensures multiset(IntendedAgents(proxies, i, |proxies|, url, encode)) == multiset(proxies)
  {
    IntendedAgentsAreCalls(proxies, i, |proxies|, url, encode);
    RoundRobin(proxies, i);
  }

  class HttpWorker {
    const proxyManager: ProxyManager?

    /** `new HTTPWorker(proxyManager?)`. */
    constructor (proxyManager: ProxyManager?)
      ensures this.proxyManager == proxyManager
    {
      this.proxyManager := proxyManager;
    }

    /**
     * `fetch(job)`: sends the request `Route` describes, or the job's URL
     * as it is without a manager, and returns what `Outcome` says: the
     * rejection of `fetch`, the HTTP error, or what `text()` gives.
     */
    method Fetch(jobUrl: string, encode: string -> string, fetch: Request -> Result<Response>)
      returns (r: Result<string>, sent: Request)
      requires proxyManager != null ==> proxyManager.Valid()
      modifies proxyManager
      ensures proxyManager == null ==> sent == Request(jobUrl, None)
      ensures proxyManager != null ==>
        && proxyManager.Valid()
        && proxyManager.proxies == old(proxyManager.proxies)
        && Routed(sent, proxyManager.index) == Route(old(proxyManager.proxies), old(proxyManager.index), jobUrl, encode)
      ensures r == Outcome(fetch(sent))
    {
      var url := jobUrl;
      var agent: Option<Agent> := None;
      if proxyManager != null {
        var proxy := proxyManager.GetNextProxy();
        if proxy.Some? && proxy.value != "" {
          if IsService(proxy.value) {
            url := proxy.value + encode(jobUrl);
          } else {
            agent := proxyManager.CreateAgent();
          }
        }
      }
      sent := Request(url, agent);
      var fetched := fetch(sent);
      if fetched.Failure? {
        return Failure(fetched.error), sent;
      }
      var response := fetched.value;
      if !response.ok {
        return Failure(HttpError(response)), sent;
      }
      r := response.body;
    }
  }
}
