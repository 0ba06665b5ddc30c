/**
 * The regular expressions the scraping service runs over a page, as
 * ECMAScript's backtracking matcher runs them, each given by its matcher (see
 * `Matching`): the end of the match found at a start index, or `None`.
 *
 * A greedy `[^x]+` or `[^x]*` first takes the longest run of characters
 * other than `x`, then gives characters back one at a time until the rest of
 * the pattern matches; a lazy `[\s\S]*?` takes as few as it can. The
 * functions below say where that settles. With the `i` flag the literals
 * match ignoring ASCII case; the negated classes used here hold no letter,
 * so the flag does not change them.
 */
module HtmlPatterns {
  import opened Wrappers
  import opened Text
  import opened Matching

  predicate NotQuote(c: char) {
    c != '"'
  }

  predicate NotGt(c: char) {
    c != '>'
  }

  predicate NotLt(c: char) {
    c != '<'
  }

  /** `([^"]+)"` from `k`: the index of the quote that closes a non-empty run of other characters. */
  function QuotedEnd(s: string, k: nat): (q: Option<nat>)
    requires k <= |s|
    ensures q.Some? ==> k < q.value < |s| && All(s, k, q.value, NotQuote) && s[q.value] == '"'
  {
    var e := RunEnd(s, k, NotQuote);
    if k < e < |s| then Some(e) else None
  }

  /** The closing quote `QuotedEnd` finds is the only one that can close the value. */
  lemma QuotedEndUnique(s: string, k: nat, e: nat)
    requires k < e < |s| && All(s, k, e, NotQuote) && s[e] == '"'
    ensures QuotedEnd(s, k) == Some(e)
  {
    var r := RunEnd(s, k, NotQuote);
    assert r == e;
  }

  /** The largest `p` in `lo..hi` with `P(p)`: where a greedy run backs off to. */
  function Last(lo: nat, hi: int, P: nat -> bool): (r: Option<nat>)
    ensures r.Some? ==> lo <= r.value <= hi && P(r.value)
    decreases hi - lo
  {
    if hi < lo then None
    else if P(hi) then Some(hi)
    else Last(lo, hi - 1, P)
  }

  lemma {:induction false} LastIsLargest(lo: nat, hi: int, P: nat -> bool, p: nat)
    requires lo <= p <= hi && P(p)
    ensures Last(lo, hi, P).Some? && p <= Last(lo, hi, P).value
    decreases hi - lo
  {
    if !P(hi) {
      LastIsLargest(lo, hi - 1, P, p);
    }
  }

  /** The smallest `p` in `lo..hi` with `P(p)`: where a lazy run stops. */
  function Next(lo: nat, hi: nat, P: nat -> bool): (r: Option<nat>)
    ensures r.Some? ==> lo <= r.value <= hi && P(r.value)
    decreases hi + 1 - lo
  {
    if hi < lo then None
    else if P(lo) then Some(lo)
    else Next(lo + 1, hi, P)
  }

  lemma {:induction false} NextIsSmallest(lo: nat, hi: nat, P: nat -> bool, p: nat)
    requires lo <= p <= hi && P(p)
    ensures Next(lo, hi, P).Some? && Next(lo, hi, P).value <= p
    decreases hi + 1 - lo
  {
    if !P(lo) {
      NextIsSmallest(lo + 1, hi, P, p);
    }
  }

  /** No `p` before the one `Next` finds has `P(p)`, and none at all in `lo..hi` when it finds none. */
  lemma {:induction false} NextSpec(lo: nat, hi: nat, P: nat -> bool)
    ensures Next(lo, hi, P).Some? ==> forall p :: lo <= p < Next(lo, hi, P).value ==> !P(p)
    ensures Next(lo, hi, P).None? ==> forall p :: lo <= p <= hi ==> !P(p)
    decreases hi + 1 - lo
  {
    if lo <= hi && !P(lo) {
      NextSpec(lo + 1, hi, P);
    }
  }

  /** `[^>]+` from `j` can end at `p`: at least one character, none of them `>`. */
  predicate NoGtRun(s: string, j: nat, p: nat) {
    j < p && All(s, j, p, NotGt)
  }

  /** The literal `attr` (ignoring case) at `p`, then a non-empty value and its closing quote. */
  predicate AttrAt(s: string, p: nat, attr: string) {
    AtIgnoreCase(s, p, attr) && QuotedEnd(s, p + |attr|).Some?
  }

  /** The index of the quote that closes the value of the attribute at `p`. */
  function ValueEnd(s: string, p: nat, attr: string): (v: nat)
    requires AttrAt(s, p, attr)
    ensures p + |attr| < v < |s| && s[v] == '"'
  {
    QuotedEnd(s, p + |attr|).value
  }

  /** The value of the attribute at `p`. */
  function Value(s: string, p: nat, attr: string): (v: string)
    requires AttrAt(s, p, attr)
    ensures v != [] && '"' !in v
  {
    s[p + |attr|..ValueEnd(s, p, attr)]
  }

  /**
   * `[^>]+attr([^"]+)"` from `j`: where the attribute starts. The greedy run
   * stops short of the first `>` and backs off to the last attribute before
   * it.
   */
  function AttrAfter(s: string, j: nat, attr: string): (p: Option<nat>)
    requires j <= |s|
    ensures p.Some? ==> NoGtRun(s, j, p.value) && AttrAt(s, p.value, attr)
  {
    var r := RunEnd(s, j, NotGt);
    var P := (q: nat) => AttrAt(s, q, attr);
    assert forall q: nat :: j < q <= r ==> NoGtRun(s, j, q);
    Last(j + 1, r, P)
  }

  /** The greedy run backs off no further than it must: no attribute after the one found. */
  lemma AttrAfterIsLast(s: string, j: nat, attr: string, q: nat)
    requires j <= |s| && NoGtRun(s, j, q) && AttrAt(s, q, attr)
    ensures AttrAfter(s, j, attr).Some? && q <= AttrAfter(s, j, attr).value
  {
    var r := RunEnd(s, j, NotGt);
    var P := (q: nat) => AttrAt(s, q, attr);
    assert P(q);
    assert q <= r;
    LastIsLargest(j + 1, r, P, q);
  }

  /** `/href="([^"]+)"/g` (case matters): the match at `i` ends after the closing quote. */
  function HrefEnd(s: string, i: nat): (e: Option<nat>)
    ensures e.Some? ==> i < e.value <= |s| && AttrAt(s, i, "href=\"") && e.value == ValueEnd(s, i, "href=\"") + 1
  {
    if At(s, i, "href=\"") && QuotedEnd(s, i + 6).Some? then Some(QuotedEnd(s, i + 6).value + 1) else None
  }

  /** Wherever `href="`, a non-empty value and its closing quote stand at `i`, the match is found there. */
  lemma HrefEndExact(s: string, i: nat, q: nat)
    requires At(s, i, "href=\"") && i + 6 < q < |s| && All(s, i + 6, q, NotQuote) && s[q] == '"'
    ensures HrefEnd(s, i) == Some(q + 1)
  {
    QuotedEndUnique(s, i + 6, q);
  }

  /** `/<tag[^>]+attr([^"]+)"/gi`: where the attribute the match captures starts. */
  function TagAttr(s: string, i: nat, tag: string, attr: string): (p: Option<nat>)
    ensures p.Some? ==> AtIgnoreCase(s, i, tag) && NoGtRun(s, i + |tag|, p.value) && AttrAt(s, p.value, attr)
  {
    if AtIgnoreCase(s, i, tag) then AttrAfter(s, i + |tag|, attr) else None
  }

  /** The end of that match: after the closing quote of the value. */
  function TagAttrEnd(s: string, i: nat, tag: string, attr: string): (e: Option<nat>)
    ensures e.Some? <==> TagAttr(s, i, tag, attr).Some?
    ensures e.Some? ==> i < e.value <= |s| && s[e.value - 1] == '"'
    ensures e.Some? ==> e.value == ValueEnd(s, TagAttr(s, i, tag, attr).value, attr) + 1
  {
    var p := TagAttr(s, i, tag, attr);
    if p.Some? then Some(ValueEnd(s, p.value, attr) + 1) else None
  }

  const MetaOpen := "<meta"
  const MetaName := "name=\""
  const MetaContent := "content=\""

  /** `name="([^"]+)"` at `p`, followed by `[^>]+content="([^"]+)"`. */
  predicate NameThenContent(s: string, p: nat) {
    AttrAt(s, p, MetaName) && AttrAfter(s, ValueEnd(s, p, MetaName) + 1, MetaContent).Some?
  }

  /**
   * `[^>]+name="([^"]+)"[^>]+content="([^"]+)"` from `j`: where the name
   * attribute starts. The first greedy run backs off to the last name
   * attribute before the first `>` that a content attribute follows.
   */
  function NameAfter(s: string, j: nat): (p: Option<nat>)
    requires j <= |s|
    ensures p.Some? ==> NoGtRun(s, j, p.value) && NameThenContent(s, p.value)
  {
    var r := RunEnd(s, j, NotGt);
    var P := (q: nat) => NameThenContent(s, q);
    assert forall q: nat :: j < q <= r ==> NoGtRun(s, j, q);
    Last(j + 1, r, P)
  }

  /** The greedy run backs off no further than it must: no name attribute with a content after it past the one found. */
  lemma NameAfterIsLast(s: string, j: nat, q: nat)
    requires j <= |s| && NoGtRun(s, j, q) && NameThenContent(s, q)
    ensures NameAfter(s, j).Some? && q <= NameAfter(s, j).value
  {
    var r := RunEnd(s, j, NotGt);
    var P := (q: nat) => NameThenContent(s, q);
    assert P(q);
    assert q <= r;
    LastIsLargest(j + 1, r, P, q);
  }

  /** `/<meta[^>]+name="([^"]+)"[^>]+content="([^"]+)"/gi` at `i`: where the name attribute starts. */
  function MetaNameAt(s: string, i: nat): (p: Option<nat>)
    ensures p.Some? ==> AtIgnoreCase(s, i, MetaOpen) && NoGtRun(s, i + |MetaOpen|, p.value) && NameThenContent(s, p.value)
  {
    if AtIgnoreCase(s, i, MetaOpen) then NameAfter(s, i + |MetaOpen|) else None
  }

  /** Where the content attribute of the meta match at `i` starts. */
  function MetaContentAt(s: string, i: nat): (c: nat)
    requires MetaNameAt(s, i).Some?
    ensures AttrAt(s, c, MetaContent)
  {
    var p := MetaNameAt(s, i).value;
    AttrAfter(s, ValueEnd(s, p, MetaName) + 1, MetaContent).value
  }

  /** The end of the meta match at `i`: after the closing quote of the content. */
  function MetaEnd(s: string, i: nat): (e: Option<nat>)
    ensures e.Some? <==> MetaNameAt(s, i).Some?
    ensures e.Some? ==> i < e.value <= |s| && s[e.value - 1] == '"'
    ensures e.Some? ==> e.value == ValueEnd(s, MetaContentAt(s, i), MetaContent) + 1
  {
    if MetaNameAt(s, i).Some? then Some(ValueEnd(s, MetaContentAt(s, i), MetaContent) + 1) else None
  }

  /** The two captures of the meta match at `i`: the name and the content. */
  function MetaPair(s: string, i: nat): (string, string)
    requires MetaNameAt(s, i).Some?
  {
    (Value(s, MetaNameAt(s, i).value, MetaName), Value(s, MetaContentAt(s, i), MetaContent))
  }

  /**
   * `/<title[^>]*>([^<]+)<\/title>/i` at `i`: the start and end of the
   * capture. `[^>]*` can only stop at the first `>`, and `[^<]+` only at the
   * first `<`, which must open the closing tag.
   */
  function TitleAt(s: string, i: nat): (c: Option<(nat, nat)>)
    ensures c.Some? ==> i < c.value.0 < c.value.1 && AtIgnoreCase(s, c.value.1, "</title>")
    ensures c.Some? ==> All(s, c.value.0, c.value.1, NotLt)
    ensures c.Some? ==>
      && AtIgnoreCase(s, i, "<title") && i + 6 < c.value.0
      && All(s, i + 6, c.value.0 - 1, NotGt) && s[c.value.0 - 1] == '>'
  {
    if AtIgnoreCase(s, i, "<title") then
      var g := RunEnd(s, i + 6, NotGt);
      if g < |s| then
        var e := RunEnd(s, g + 1, NotLt);
        if g + 1 < e && AtIgnoreCase(s, e, "</title>") then Some((g + 1, e)) else None
      else None
    else None
  }

  /**
   * Wherever `<title`, a run with no `>`, a `>`, a non-empty run with no `<`
   * and `</title>` stand at `i`, the title pattern matches there with that
   * capture.
   */
  lemma TitleAtExact(s: string, i: nat, g: nat, e: nat)
    requires AtIgnoreCase(s, i, "<title") && i + 6 <= g < |s| && All(s, i + 6, g, NotGt) && s[g] == '>'
    requires g + 1 < e && All(s, g + 1, e, NotLt) && AtIgnoreCase(s, e, "</title>")
    ensures TitleAt(s, i) == Some((g + 1, e))
  {
    assert RunEnd(s, i + 6, NotGt) == g;
    assert ToLowerChar(s[e]) == ToLowerChar("</title>"[0]);
    assert RunEnd(s, g + 1, NotLt) == e;
  }

  /** The end of the title match at `i`: just past its `</title>`. */
  function TitleEnd(s: string, i: nat): (e: Option<nat>)
    ensures e.Some? <==> TitleAt(s, i).Some?
    ensures e.Some? ==> i < e.value <= |s| && e.value == TitleAt(s, i).value.1 + 8
    ensures e.Some? ==> AtIgnoreCase(s, e.value - 8, "</title>")
  {
    var c := TitleAt(s, i);
    if c.Some? then Some(c.value.1 + 8) else None
  }

  /** Where the closing tag `close` stands, ignoring case. */
  function CloseAt(s: string, close: string): nat -> bool {
    j => AtIgnoreCase(s, j, close)
  }

  /**
   * `/<open[^>]*>[\s\S]*?<close>/gi` at `i`, for the `script` and `style`
   * elements: the lazy run stops at the first closing tag after the `>`.
   */
  function ElementEnd(s: string, i: nat, open: string, close: string): (e: Option<nat>)
    requires close != []
    ensures e.Some? ==> i < e.value <= |s| && AtIgnoreCase(s, i, open)
    ensures e.Some? ==>
      var g := RunEnd(s, i + |open|, NotGt);
      && g < |s| && s[g] == '>' && g + 1 <= e.value - |close|
      && AtIgnoreCase(s, e.value - |close|, close)
  {
    if AtIgnoreCase(s, i, open) then
      var g := RunEnd(s, i + |open|, NotGt);
      if g < |s| then
        var c := Next(g + 1, |s|, CloseAt(s, close));
        if c.Some? then Some(c.value + |close|) else None
      else None
    else None
  }

  /**
   * The lazy run stops at the FIRST closing tag after the `>` that ends the
   * opening tag; there is no match when the opening tag is not closed by a
   * `>` or no closing tag follows it.
   */
  lemma ElementEndSpec(s: string, i: nat, open: string, close: string)
    requires close != [] && AtIgnoreCase(s, i, open)
    ensures var g, e := RunEnd(s, i + |open|, NotGt), ElementEnd(s, i, open, close);
      && (e.Some? ==> forall j :: g + 1 <= j < e.value - |close| ==> !AtIgnoreCase(s, j, close))
      && (e.None? ==> g == |s| || forall j :: g + 1 <= j <= |s| ==> !AtIgnoreCase(s, j, close))
  {
    var g := RunEnd(s, i + |open|, NotGt);
    if g < |s| {
      var P := CloseAt(s, close);
      var c := Next(g + 1, |s|, P);
      NextSpec(g + 1, |s|, P);
      assert ElementEnd(s, i, open, close) == if c.Some? then Some(c.value + |close|) else None;
      forall j: nat ensures P(j) == AtIgnoreCase(s, j, close) {
      }
    }
  }

  /** `/<[^>]*>/g` at `i`: a tag runs to the first `>`. */
  function TagEnd(s: string, i: nat): (e: Option<nat>)
    ensures e.Some? ==> i < e.value <= |s| && s[i] == '<' && s[e.value - 1] == '>'
    ensures e.Some? ==> All(s, i + 1, e.value - 1, NotGt)
    ensures e.None? && i < |s| && s[i] == '<' ==> All(s, i + 1, |s|, NotGt)
  {
    if i < |s| && s[i] == '<' then
      var g := RunEnd(s, i + 1, NotGt);
      if g < |s| then Some(g + 1) else None
    else None
  }

  /** `/\s+/g` at `i`: the whole run of white space. */
  function SpaceEnd(s: string, i: nat): (e: Option<nat>)
    ensures e.Some? ==> i < e.value <= |s| && All(s, i, e.value, IsSpace) && (e.value < |s| ==> !IsSpace(s[e.value]))
  {
    if i < |s| && IsSpace(s[i]) then Some(RunEnd(s, i, IsSpace)) else None
  }
}
