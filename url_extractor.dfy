/**
 * The url-extractor plugin `run(text)`: every match of
 * `/https?:\/\/[\w.-]+(?:\/[\w/#?=&.-]*)?/g`, left to right.
 *
 * At a start index the greedy `s?` takes an `s` when one is there, the host
 * run `[\w.-]+` and the optional path `\/[\w/#?=&.-]*` take as much as they
 * can, and nothing after them forces a step back: the match found is the
 * longest text at that index that the pattern describes.
 */
module UrlExtractor {
  import opened Wrappers
  import opened Text
  import opened Matching

  /** `[\w/#?=&.-]`. */
  predicate PathChar(c: char) {
    IsWordChar(c) || c == '/' || c == '#' || c == '?' || c == '=' || c == '&' || c == '.' || c == '-'
  }

  /** `s[b..e]` is `[\w.-]+(?:\/[\w/#?=&.-]*)?`. */
  predicate HostPath(s: string, b: int, e: int) {
    0 <= b <= e <= |s| && exists h | b < h <= e ::
      && All(s, b, h, IsWordDotDash)
      && (h == e || (s[h] == '/' && All(s, h + 1, e, PathChar)))
  }

  /** `s[i..e]` is a text the pattern describes. */
  predicate UrlAt(s: string, i: int, e: int) {
    || (At(s, i, "http://") && HostPath(s, i + 7, e))
    || (At(s, i, "https://") && HostPath(s, i + 8, e))
  }

  /** Where the host starts after the scheme the pattern accepts at `i`. */
  function SchemeEnd(s: string, i: nat): (b: Option<nat>)
    ensures b.Some? ==> b.value <= |s|
  {
    if At(s, i, "https://") then Some(i + 8)
    else if At(s, i, "http://") then Some(i + 7)
    else None
  }

  /**
   * The end of the match at `i`: the longest text starting there that the
   * pattern describes, which stops before a character that could not go on
   * with it (neither a host character nor `/`).
   */
  function UrlEnd(s: string, i: nat): (e: Option<nat>)
    ensures e.Some? ==> i < e.value <= |s| && UrlAt(s, i, e.value)
    ensures e.Some? && e.value < |s| ==> !IsWordDotDash(s[e.value]) && s[e.value] != '/'
    ensures e.Some? ==> forall e' :: UrlAt(s, i, e') ==> e' <= e.value
    ensures e.None? ==> forall e' :: !UrlAt(s, i, e')
  {
    var b := SchemeEnd(s, i);
    if b.None? then
      SchemeUnique(s, i);
      None
    else
      var h := RunEnd(s, b.value, IsWordDotDash);
      HostRun(s, i, b.value, h);
      if h == b.value then None
      else if h < |s| && s[h] == '/' then
        var e := RunEnd(s, h + 1, PathChar);
        PathRun(s, i, b.value, h, e);
        Some(e)
      else
        Some(h)
  }

  /**
   * With the host run `s[b..h]` after the scheme: no text the pattern
   * describes at `i` when the run is empty, `s[i..h]` when no `/` follows,
   * and none longer than `s[i..h]` unless a `/` follows.
   */
  lemma HostRun(s: string, i: nat, b: nat, h: nat)
    requires SchemeEnd(s, i) == Some(b) && h == RunEnd(s, b, IsWordDotDash)
    ensures h == b ==> forall e' :: !UrlAt(s, i, e')
    ensures h > b ==> UrlAt(s, i, h)
    ensures h > b && !(h < |s| && s[h] == '/') ==> forall e' :: UrlAt(s, i, e') ==> e' <= h
  {
    SchemeUnique(s, i);
    if h > b {
      assert HostPath(s, b, h) by {
        assert All(s, b, h, IsWordDotDash);
      }
    }
  }

  /** With a `/` after the host run, the path run `s[h + 1..e]` ends the longest text. */
  lemma PathRun(s: string, i: nat, b: nat, h: nat, e: nat)
    requires SchemeEnd(s, i) == Some(b) && h == RunEnd(s, b, IsWordDotDash) && h > b
    requires h < |s| && s[h] == '/' && e == RunEnd(s, h + 1, PathChar)
    ensures UrlAt(s, i, e)
    ensures forall e' :: UrlAt(s, i, e') ==> e' <= e
  {
    SchemeUnique(s, i);
    assert HostPath(s, b, e) by {
      assert All(s, b, h, IsWordDotDash);
    }
  }

  /** Only one scheme fits at `i`: a text the pattern describes has its host where `SchemeEnd` says. */
  lemma SchemeUnique(s: string, i: nat)
    ensures !(At(s, i, "https://") && At(s, i, "http://"))
    ensures forall e :: UrlAt(s, i, e) ==> SchemeEnd(s, i).Some? && HostPath(s, SchemeEnd(s, i).value, e)
  {
    if At(s, i, "https://") {
      assert s[i + 4] == s[i..i + 8][4] == 's';
      assert s[i..i + 7][4] == s[i + 4];
    }
  }

  /** The pattern's matcher over `text`. */
  function Matcher(text: string): nat -> Option<nat> {
    i => UrlEnd(text, i)
  }

  /**
   * `run(text)`: the texts of the matches `matchAll` reports, in order.
   * Each starts with `http://` or `https://` and is a substring of the input.
   */
  function Run(text: string): (urls: seq<string>)
    ensures exists hits :: MatchAllOf(Matcher(text), 0, |text|, hits) && TextsOf(text, hits, urls)
    ensures forall k :: 0 <= k < |urls| ==>
      && (StartsWith(urls[k], "http://") || StartsWith(urls[k], "https://"))
      && Contains(text, urls[k])
  {
    var m := Matcher(text);
    var hits := MatchAll(m, 0, |text|);
    MatchAllSpec(m, 0, |text|);
    MatchAllOfHits(m, 0, |text|, hits);
    var urls := Texts(text, hits);
    forall k | 0 <= k < |urls|
      ensures (StartsWith(urls[k], "http://") || StartsWith(urls[k], "https://")) && Contains(text, urls[k])
    {
      UrlText(text, hits[k].start, hits[k].end);
    }
    urls
  }

  /** A text the pattern describes starts with its scheme and occurs where it was found. */
  lemma UrlText(s: string, i: nat, e: nat)
    requires i <= e <= |s| && UrlAt(s, i, e)
    ensures StartsWith(s[i..e], "http://") || StartsWith(s[i..e], "https://")
    ensures Contains(s, s[i..e])
  {
    assert At(s, i, s[i..e]);
    if At(s, i, "http://") {
      assert s[i..e][0..7] == s[i..i + 7];
    } else {
      assert s[i..e][0..8] == s[i..i + 8];
    }
  }
}
