/**
 * Leftmost matching and `matchAll` for a pattern given by its matcher: a
 * function from a start index to the end of the match the backtracking
 * matcher finds there, or `None`.
 *
 * `exec` from `lastIndex = k` reports the match at the smallest start index
 * at or after `k`; `matchAll` with the `g` flag repeats this from the end of
 * each match, or from one index further after an empty match.
 */
module Matching {
  import opened Wrappers

  /** The start and end index of one match. */
  datatype Hit = Hit(start: nat, end: nat)

  /** No match starts in `lo..hi`. */
  predicate NoneIn(m: nat -> Option<nat>, lo: int, hi: int) {
    forall j: nat | lo <= j < hi :: m(j).None?
  }

  /** The smallest start index in `k..n` at which `m` matches. */
  function First(m: nat -> Option<nat>, k: nat, n: nat): (r: Option<nat>)
    ensures r.Some? ==> k <= r.value <= n && m(r.value).Some?
    decreases n + 1 - k
  {
    if k > n then None
    else if m(k).Some? then Some(k)
    else First(m, k + 1, n)
  }

  /** `First` finds a match with none before it, or there is none in `k..n`. */
  lemma {:induction false} FirstSpec(m: nat -> Option<nat>, k: nat, n: nat)
    ensures var r := First(m, k, n);
      && (r.Some? ==> NoneIn(m, k, r.value))
      && (r.None? ==> NoneIn(m, k, n + 1))
    decreases n + 1 - k
  {
    if k <= n && m(k).None? {
      FirstSpec(m, k + 1, n);
    }
  }

  /** Where `matchAll` resumes after a match: its end, or one further after an empty match. */
  function Resume(h: Hit): nat {
    if h.end > h.start then h.end else h.start + 1
  }

  /** The matches `matchAll` reports from `k` in a text of length `n`. */
  function MatchAll(m: nat -> Option<nat>, k: nat, n: nat): seq<Hit>
    decreases n + 1 - k
  {
    var i := First(m, k, n);
    if i.None? then []
    else
      var h := Hit(i.value, m(i.value).value);
      [h] + MatchAll(m, Resume(h), n)
  }

  /**
   * `hits` is what `matchAll` reports from `k`: the leftmost match, then
   * what it reports from where that match leaves off, until none is left.
   */
  predicate MatchAllOf(m: nat -> Option<nat>, k: int, n: nat, hits: seq<Hit>)
    decreases |hits|
  {
    if hits == [] then NoneIn(m, k, n + 1)
    else
      && k <= hits[0].start <= n
      && NoneIn(m, k, hits[0].start)
      && m(hits[0].start) == Some(hits[0].end)
      && MatchAllOf(m, Resume(hits[0]), n, hits[1..])
  }

  /** `MatchAll` computes what `matchAll` reports. */
  lemma {:induction false} MatchAllSpec(m: nat -> Option<nat>, k: nat, n: nat)
    ensures MatchAllOf(m, k, n, MatchAll(m, k, n))
    decreases n + 1 - k
  {
    FirstSpec(m, k, n);
    var i := First(m, k, n);
    if i.Some? {
      var h := Hit(i.value, m(i.value).value);
      var rest := MatchAll(m, Resume(h), n);
      MatchAllSpec(m, Resume(h), n);
      assert ([h] + rest)[1..] == rest;
    }
  }

  /** What `matchAll` reports is determined by the matcher. */
  lemma {:induction false} MatchAllOfUnique(m: nat -> Option<nat>, k: int, n: nat, a: seq<Hit>, b: seq<Hit>)
    requires MatchAllOf(m, k, n, a) && MatchAllOf(m, k, n, b)
    ensures a == b
    decreases |a|
  {
    if a != [] && b != [] {
      assert a[0].start == b[0].start;
      MatchAllOfUnique(m, Resume(a[0]), n, a[1..], b[1..]);
      assert a == [a[0]] + a[1..];
      assert b == [b[0]] + b[1..];
    }
  }

  /** Every reported hit is a match, and each starts at or after the point where the one before left off. */
  lemma {:induction false} MatchAllOfHits(m: nat -> Option<nat>, k: int, n: nat, hits: seq<Hit>)
    requires MatchAllOf(m, k, n, hits)
    ensures forall t :: 0 <= t < |hits| ==> k <= hits[t].start <= n && m(hits[t].start) == Some(hits[t].end)
    ensures forall t :: 0 < t < |hits| ==> Resume(hits[t - 1]) <= hits[t].start
    decreases |hits|
  {
    if hits != [] {
      var rest := hits[1..];
      MatchAllOfHits(m, Resume(hits[0]), n, rest);
      assert forall t :: 0 < t < |hits| ==> hits[t] == rest[t - 1];
    }
  }

  /** No match at all exactly when nothing is reported. */
  lemma MatchAllEmpty(m: nat -> Option<nat>, n: nat)
    ensures MatchAll(m, 0, n) == [] <==> NoneIn(m, 0, n + 1)
  {
    FirstSpec(m, 0, n);
  }

  /** `exec` without the `g` flag: the leftmost match, if any. */
  function FirstHit(m: nat -> Option<nat>, n: nat): (h: Option<Hit>)
    ensures h.Some? ==> h.value.start <= n && m(h.value.start) == Some(h.value.end)
  {
    var i := First(m, 0, n);
    if i.None? then None else Some(Hit(i.value, m(i.value).value))
  }

  /** The leftmost match is the first that `matchAll` reports. */
  lemma FirstHitIsFirst(m: nat -> Option<nat>, n: nat)
    ensures FirstHit(m, n).None? <==> NoneIn(m, 0, n + 1)
    ensures FirstHit(m, n).Some? ==> NoneIn(m, 0, FirstHit(m, n).value.start)
    ensures FirstHit(m, n).Some? ==> MatchAll(m, 0, n) != [] && MatchAll(m, 0, n)[0] == FirstHit(m, n).value
  {
    FirstSpec(m, 0, n);
  }

  /** Every match `m` finds lies within a text of length `n`. */
  ghost predicate Within(m: nat -> Option<nat>, n: nat) {
    forall i: nat :: m(i).Some? ==> i <= m(i).value <= n
  }

  /** `ts` are the texts of `hits` in `s`, in order. */
  predicate TextsOf(s: string, hits: seq<Hit>, ts: seq<string>) {
    && |ts| == |hits|
    && forall t :: 0 <= t < |hits| ==> hits[t].start <= hits[t].end <= |s| && ts[t] == s[hits[t].start..hits[t].end]
  }

  /** The matched texts: `[...s.matchAll(re)].map(m => m[0])`. */
  function Texts(s: string, hits: seq<Hit>): (ts: seq<string>)
    requires forall t :: 0 <= t < |hits| ==> hits[t].start <= hits[t].end <= |s|
    ensures TextsOf(s, hits, ts)
  {
    seq(|hits|, t requires 0 <= t < |hits| => s[hits[t].start..hits[t].end])
  }

  /** The hits of a matcher within the text can be cut out of it. */
  lemma MatchAllWithin(m: nat -> Option<nat>, n: nat)
    requires Within(m, n)
    ensures forall t :: 0 <= t < |MatchAll(m, 0, n)| ==> MatchAll(m, 0, n)[t].start <= MatchAll(m, 0, n)[t].end <= n
  {
    MatchAllSpec(m, 0, n);
    MatchAllOfHits(m, 0, n, MatchAll(m, 0, n));
  }

  /** Every match `m` finds is non-empty and lies within a text of length `n`. */
  ghost predicate Advancing(m: nat -> Option<nat>, n: nat) {
    forall i: nat :: m(i).Some? ==> i < m(i).value <= n
  }

  /**
   * `while ((match = re.exec(s)) !== null)` with the `g` flag: each `exec`
   * reports the leftmost match at or after `lastIndex` and moves `lastIndex`
   * to its end. For a pattern whose matches are never empty this reports
   * what `matchAll` does.
   */
  method ExecAll(m: nat -> Option<nat>, n: nat) returns (hits: seq<Hit>)
    requires Advancing(m, n)
    ensures hits == MatchAll(m, 0, n)
  {
    hits := [];
    var lastIndex := 0;
    while true
      invariant lastIndex <= n
      invariant hits + MatchAll(m, lastIndex, n) == MatchAll(m, 0, n)
      decreases n - lastIndex
    {
      var i := First(m, lastIndex, n);
      if i.None? {
        break;
      }
      var h := Hit(i.value, m(i.value).value);
      assert MatchAll(m, lastIndex, n) == [h] + MatchAll(m, h.end, n);
      hits := hits + [h];
      lastIndex := h.end;
    }
  }

  /** What `cap` reads at the start of each match `matchAll` reports, in match order. */
  function MatchCaptures<T>(m: nat -> Option<nat>, n: nat, cap: nat -> T): seq<T> {
    var hits := MatchAll(m, 0, n);
    seq(|hits|, t requires 0 <= t < |hits| => cap(hits[t].start))
  }

  /** The `exec` loop that keeps one capture per match. */
  method ExecCaptures<T>(m: nat -> Option<nat>, n: nat, cap: nat -> T) returns (caps: seq<T>)
    requires Advancing(m, n)
    ensures caps == MatchCaptures(m, n, cap)
  {
    var hits := ExecAll(m, n);
    caps := [];
    var i := 0;
    while i < |hits|
      invariant 0 <= i <= |hits|
      invariant caps == MatchCaptures(m, n, cap)[..i]
    {
      caps := caps + [cap(hits[i].start)];
      i := i + 1;
    }
  }

  /** Each hit lies in `from..n` and starts at or after the end of the one before. */
  predicate Ordered(hits: seq<Hit>, from: nat, n: nat)
    decreases |hits|
  {
    hits == [] || (from <= hits[0].start <= hits[0].end <= n && Ordered(hits[1..], hits[0].end, n))
  }

  /** What `matchAll` reports for a pattern with non-empty matches is ordered. */
  lemma {:induction false} MatchAllOrdered(m: nat -> Option<nat>, k: nat, n: nat)
    requires Advancing(m, n)
    ensures Ordered(MatchAll(m, k, n), k, n)
    decreases n + 1 - k
  {
    var i := First(m, k, n);
    if i.Some? {
      var h := Hit(i.value, m(i.value).value);
      MatchAllOrdered(m, h.end, n);
    }
  }
}
