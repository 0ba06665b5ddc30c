/**
 * What `scrapeUrl` keeps of a page's text: the title, and the content the
 * chain of `replace` calls leaves, trimmed and cut to 5000 characters.
 */
module PageText {
  import opened Wrappers
  import opened Text
  import opened Matching
  import opened HtmlPatterns

  /** The text of `s` from `from`, each hit replaced by `r`. */
  function Splice(s: string, from: nat, hits: seq<Hit>, r: string): string
    requires from <= |s| && Ordered(hits, from, |s|)
    decreases |hits|
  {
    if hits == [] then s[from..]
    else s[from..hits[0].start] + r + Splice(s, hits[0].end, hits[1..], r)
  }

  /**
   * `s.replace(re, r)` with the `g` flag, for a pattern whose matches are
   * never empty: a text the pattern matches nowhere comes back unchanged.
   */
  function ReplaceAll(s: string, m: nat -> Option<nat>, r: string): (t: string)
    requires Advancing(m, |s|)
    ensures NoneIn(m, 0, |s| + 1) ==> t == s
  {
    MatchAllOrdered(m, 0, |s|);
    MatchAllEmpty(m, |s|);
    Splice(s, 0, MatchAll(m, 0, |s|), r)
  }

  function ScriptMatcher(s: string): nat -> Option<nat> {
    (i: nat) => ElementEnd(s, i, "<script", "</script>")
  }

  function StyleMatcher(s: string): nat -> Option<nat> {
    (i: nat) => ElementEnd(s, i, "<style", "</style>")
  }

  function TagMatcher(s: string): nat -> Option<nat> {
    (i: nat) => TagEnd(s, i)
  }

  function SpaceMatcher(s: string): nat -> Option<nat> {
    (i: nat) => SpaceEnd(s, i)
  }

  function TitleMatcher(s: string): nat -> Option<nat> {
    (i: nat) => TitleEnd(s, i)
  }

  lemma MatchersAdvance(s: string)
    ensures Advancing(ScriptMatcher(s), |s|) && Advancing(StyleMatcher(s), |s|)
    ensures Advancing(TagMatcher(s), |s|) && Advancing(SpaceMatcher(s), |s|)
  {
  }

  /** `.replace(/<script[^>]*>[\s\S]*?<\/script>/gi, '')`. */
  function NoScripts(html: string): string {
    MatchersAdvance(html);
    ReplaceAll(html, ScriptMatcher(html), "")
  }

  /** `.replace(/<style[^>]*>[\s\S]*?<\/style>/gi, '')`. */
  function NoStyles(html: string): string {
    MatchersAdvance(html);
    ReplaceAll(html, StyleMatcher(html), "")
  }

  /** `.replace(/<[^>]*>/g, ' ')`. */
  function TagsSpaced(html: string): string {
    MatchersAdvance(html);
    ReplaceAll(html, TagMatcher(html), " ")
  }

  /**
   * Script and style elements removed, every other tag turned into a space:
   * no `<` is left with a `>` after it.
   */
  function Visible(html: string): (v: string)
    ensures NoTagLeft(v)
  {
    var noStyles := NoStyles(NoScripts(html));
    TagsReplaced(noStyles, 0);
    TagsSpaced(noStyles)
  }

  /** No `<` in `t` has a `>` anywhere after it. */
  predicate NoTagLeft(t: string) {
    forall i, j :: 0 <= i < j < |t| && t[i] == '<' ==> t[j] != '>'
  }

  lemma NoTagLeftJoin(a: string, b: string)
    requires '<' !in a && NoTagLeft(b)
    ensures NoTagLeft(a + " " + b)
  {
    var t := a + " " + b;
    forall i, j | 0 <= i < j < |t| && t[i] == '<' ensures t[j] != '>' {
      assert i > |a| && t[i] == b[i - |a| - 1] && t[j] == b[j - |a| - 1];
    }
  }

  /** Text in which the tag pattern matches nowhere has no `<` with a `>` after it. */
  lemma UntaggedTail(s: string, k: nat)
    requires k <= |s| && NoneIn(TagMatcher(s), k, |s| + 1)
    ensures NoTagLeft(s[k..])
  {
    var gap := s[k..];
    forall p, q | 0 <= p < q < |gap| && gap[p] == '<' ensures gap[q] != '>' {
      assert gap[p] == s[k + p] && TagMatcher(s)(k + p).None?;
      assert gap[q] == s[k + q];
    }
  }

  /** Text before the first tag holds no `<`: a `<` there would have no `>` after it. */
  lemma UntaggedGap(s: string, k: nat, g: nat)
    requires k <= g < |s| && NoneIn(TagMatcher(s), k, g) && TagMatcher(s)(g).Some?
    ensures '<' !in s[k..g]
  {
    var close := TagEnd(s, g).value - 1;
    assert g <= close < |s| && s[close] == '>';
    var gap := s[k..g];
    forall p | 0 <= p < |gap| ensures gap[p] != '<' {
      assert gap[p] == s[k + p] && TagMatcher(s)(k + p).None?;
      assert s[k + p] == '<' ==> All(s, k + p + 1, |s|, NotGt);
      assert k + p + 1 <= close;
    }
  }

  /**
   * Replacing every tag from `k` on by a space leaves no `<` with a `>`
   * after it: a `<` the tag pattern does not match at has no `>` after it
   * in `s`, so it can only come after the last tag replaced.
   */
  lemma {:induction false} TagsReplaced(s: string, k: nat)
    requires k <= |s|
    ensures Advancing(TagMatcher(s), |s|) && Ordered(MatchAll(TagMatcher(s), k, |s|), k, |s|)
    ensures NoTagLeft(Splice(s, k, MatchAll(TagMatcher(s), k, |s|), " "))
    decreases |s| - k
  {
    var m := TagMatcher(s);
    MatchersAdvance(s);
    MatchAllOrdered(m, k, |s|);
    FirstSpec(m, k, |s|);
    var i := First(m, k, |s|);
    if i.None? {
      assert Splice(s, k, MatchAll(m, k, |s|), " ") == s[k..];
      UntaggedTail(s, k);
    } else {
      var h := Hit(i.value, m(i.value).value);
      UntaggedGap(s, k, h.start);
      MatchAllOrdered(m, h.end, |s|);
      TagsReplaced(s, h.end);
      var rest := Splice(s, h.end, MatchAll(m, h.end, |s|), " ");
      assert MatchAll(m, k, |s|) == [h] + MatchAll(m, h.end, |s|);
      assert Splice(s, k, MatchAll(m, k, |s|), " ") == s[k..h.start] + " " + rest;
      NoTagLeftJoin(s[k..h.start], rest);
    }
  }

  /** The `g`-flag replace of a text with one match: that match replaced, the rest as it was. */
  lemma ReplaceOne(s: string, m: nat -> Option<nat>, r: string, i: nat, e: nat)
    requires Advancing(m, |s|) && m(i) == Some(e)
    requires NoneIn(m, 0, i) && NoneIn(m, e, |s| + 1)
    ensures ReplaceAll(s, m, r) == s[..i] + r + s[e..]
  {
    var h := Hit(i, e);
    assert i < e <= |s| && Resume(h) == e;
    FirstSpec(m, 0, |s|);
    FirstSpec(m, e, |s|);
    assert First(m, 0, |s|) == Some(i);
    assert MatchAll(m, e, |s|) == [];
    assert MatchAll(m, 0, |s|) == [h];
    MatchAllOrdered(m, 0, |s|);
    assert Splice(s, 0, [h], r) == s[0..i] + r + Splice(s, e, [], r);
  }

  /**
   * Each pattern of the chain matches only at a `<`, and a `script` or
   * `style` element takes a second `<` for its closing tag.
   */
  lemma StartsAtLt(s: string, i: nat, open: string, close: string)
    requires open != [] && open[0] == '<' && close != [] && close[0] == '<'
    ensures ElementEnd(s, i, open, close).Some? ==>
      var c := ElementEnd(s, i, open, close).value - |close|;
      i < c && s[i] == '<' && s[c] == '<'
    ensures TagEnd(s, i).Some? ==> i < |s| && s[i] == '<'
  {
    var e := ElementEnd(s, i, open, close);
    if e.Some? {
      var c := e.value - |close|;
      assert ToLowerChar(s[i + 0]) == ToLowerChar(open[0]);
      assert ToLowerChar(s[c + 0]) == ToLowerChar(close[0]);
    }
  }

  /** Where `s` has no `<`, none of the chain's patterns matches. */
  lemma NoLtNoMatch(s: string, lo: nat, hi: nat)
    requires forall j :: lo <= j < hi && j < |s| ==> s[j] != '<'
    ensures NoneIn(ScriptMatcher(s), lo, hi) && NoneIn(StyleMatcher(s), lo, hi) && NoneIn(TagMatcher(s), lo, hi)
  {
    forall j: nat | lo <= j < hi
      ensures ScriptMatcher(s)(j).None? && StyleMatcher(s)(j).None? && TagMatcher(s)(j).None?
    {
      StartsAtLt(s, j, "<script", "</script>");
      StartsAtLt(s, j, "<style", "</style>");
    }
  }

  /** Each step of the chain leaves text with no `<` as it is. */
  lemma PlainSteps(t: string)
    requires '<' !in t
    ensures NoScripts(t) == t && NoStyles(t) == t && TagsSpaced(t) == t
  {
    NoLtNoMatch(t, 0, |t| + 1);
  }

  /** Text with no `<` has no tags: `Visible` leaves it as it is. */
  lemma VisiblePlain(html: string)
    requires '<' !in html
    ensures Visible(html) == html
  {
    PlainSteps(html);
  }

  /** A run of `P` from `lo` that stops before a character failing `P` ends there. */
  lemma {:induction false} RunEndAt(s: string, lo: nat, g: nat, P: char -> bool)
    requires lo <= g <= |s| && All(s, lo, g, P) && (g < |s| ==> !P(s[g]))
    ensures RunEnd(s, lo, P) == g
    decreases g - lo
  {
    if lo < g {
      RunEndAt(s, lo + 1, g, P);
    }
  }

  /** A text whose only `<` has no second `<` after it holds no `script` or `style` element. */
  lemma OneTagNoElement(a: string, t: string, b: string)
    requires '<' !in a && '<' !in t && '<' !in b
    ensures var html := a + "<" + t + ">" + b; NoStyles(NoScripts(html)) == html
  {
    var html := a + "<" + t + ">" + b;
    var e := |a| + |t| + 2;
    forall j | 0 <= j < |html| && j != |a| ensures html[j] != '<' {
      if j < |a| {
        assert html[j] == a[j];
      } else if j <= |a| + |t| {
        assert html[j] == t[j - |a| - 1];
      } else if j >= e {
        assert html[j] == b[j - e];
      }
    }
    forall j: nat ensures ScriptMatcher(html)(j).None? && StyleMatcher(html)(j).None? {
      StartsAtLt(html, j, "<script", "</script>");
      StartsAtLt(html, j, "<style", "</style>");
    }
  }

  /** The tag pattern replaces the one tag of such a text by a space. */
  lemma TagSpacedOne(a: string, t: string, b: string)
    requires '<' !in a && '<' !in t && '>' !in t && '<' !in b
    ensures TagsSpaced(a + "<" + t + ">" + b) == a + " " + b
  {
    var html := a + "<" + t + ">" + b;
    var e := |a| + |t| + 2;
    MatchersAdvance(html);
    forall k | |a| + 1 <= k < e - 1 ensures NotGt(html[k]) {
      assert html[k] == t[k - |a| - 1];
    }
    RunEndAt(html, |a| + 1, e - 1, NotGt);
    assert TagEnd(html, |a|) == Some(e);
    forall j | 0 <= j < |a| ensures html[j] != '<' {
      assert html[j] == a[j];
    }
    forall j | e <= j < |html| ensures html[j] != '<' {
      assert html[j] == b[j - e];
    }
    NoLtNoMatch(html, 0, |a|);
    NoLtNoMatch(html, e, |html| + 1);
    ReplaceOne(html, TagMatcher(html), " ", |a|, e);
    assert html[..|a|] == a && html[e..] == b;
  }

  /** Between text, a tag with no `<` or `>` inside becomes one space. */
  lemma VisibleTag(a: string, t: string, b: string)
    requires '<' !in a && '<' !in t && '>' !in t && '<' !in b
    ensures Visible(a + "<" + t + ">" + b) == a + " " + b
  {
    OneTagNoElement(a, t, b);
    TagSpacedOne(a, t, b);
  }

  /** `s.replace(/\s+/g, ' ')`: white space is left only as single spaces. */
  function Collapse(s: string): (c: string)
    ensures Collapsed(c)
  {
    SpacesCollapse(s, 0);
    ReplaceAll(s, SpaceMatcher(s), " ")
  }

  /**
   * The text content before it is cut: the visible text, white space
   * collapsed, trimmed. Its white space is single spaces, none at either end.
   */
  function TextContent(html: string): (t: string)
    ensures Collapsed(t) && (t == [] || (!IsSpace(t[0]) && !IsSpace(t[|t| - 1])))
  {
    var collapsed := Collapse(Visible(html));
    CutCollapsed(collapsed, Trim(collapsed));
    Trim(collapsed)
  }

  const ContentLimit := 5000

  /** `textContent.substring(0, 5000)`. */
  function Content(html: string): (c: string)
    ensures |c| <= ContentLimit
    ensures c <= TextContent(html)
    ensures |TextContent(html)| <= ContentLimit ==> c == TextContent(html)
  {
    var t := TextContent(html);
    if |t| <= ContentLimit then t else t[..ContentLimit]
  }

  /** White space in `t` is only single spaces: no other white space character, and no space after a space. */
  predicate Collapsed(t: string) {
    forall i :: 0 <= i < |t| && IsSpace(t[i]) ==> t[i] == ' ' && (i + 1 == |t| || t[i + 1] != ' ')
  }

  predicate SpaceFree(t: string) {
    forall i :: 0 <= i < |t| ==> !IsSpace(t[i])
  }

  lemma CollapsedJoin(a: string, b: string)
    requires SpaceFree(a) && Collapsed(b) && (b == [] || b[0] != ' ')
    ensures Collapsed(a + " " + b)
  {
    var t := a + " " + b;
    forall i | 0 <= i < |t| && IsSpace(t[i]) ensures t[i] == ' ' && (i + 1 == |t| || t[i + 1] != ' ') {
      if i > |a| {
        assert t[i] == b[i - |a| - 1];
        assert i + 1 < |t| ==> t[i + 1] == b[i - |a|];
      }
    }
  }

  lemma CollapsedSlice(t: string, lo: nat, hi: nat)
    requires lo <= hi <= |t| && Collapsed(t)
    ensures Collapsed(t[lo..hi])
  {
    var u := t[lo..hi];
    forall i | 0 <= i < |u| && IsSpace(u[i]) ensures u[i] == ' ' && (i + 1 == |u| || u[i + 1] != ' ') {
      assert u[i] == t[lo + i];
      assert i + 1 < |u| ==> u[i + 1] == t[lo + i + 1];
    }
  }

  /**
   * Replacing every maximal run of white space from `k` on by one space
   * leaves only single spaces, and the result starts with a space only when
   * `s` has white space at `k`.
   */
  lemma {:induction false} SpacesCollapse(s: string, k: nat)
    requires k <= |s|
    ensures Advancing(SpaceMatcher(s), |s|) && Ordered(MatchAll(SpaceMatcher(s), k, |s|), k, |s|)
    ensures var t := Splice(s, k, MatchAll(SpaceMatcher(s), k, |s|), " ");
      Collapsed(t) && (t != [] && t[0] == ' ' ==> k < |s| && IsSpace(s[k]))
    decreases |s| - k
  {
    var m := SpaceMatcher(s);
    MatchersAdvance(s);
    MatchAllOrdered(m, k, |s|);
    FirstSpec(m, k, |s|);
    var i := First(m, k, |s|);
    var gapEnd := if i.Some? then i.value else |s|;
    var gap := s[k..gapEnd];
    assert SpaceFree(gap) by {
      forall j | 0 <= j < |gap| ensures !IsSpace(gap[j]) {
        assert gap[j] == s[k + j] && m(k + j).None?;
      }
    }
    if i.None? {
      assert Splice(s, k, MatchAll(m, k, |s|), " ") == gap;
    } else {
      var h := Hit(i.value, m(i.value).value);
      MatchAllOrdered(m, h.end, |s|);
      SpacesCollapse(s, h.end);
      var rest := Splice(s, h.end, MatchAll(m, h.end, |s|), " ");
      assert MatchAll(m, k, |s|) == [h] + MatchAll(m, h.end, |s|);
      assert Splice(s, k, MatchAll(m, k, |s|), " ") == gap + " " + rest;
      CollapsedJoin(gap, rest);
    }
  }

  /** From `k` on, white space in `s` is only single spaces. */
  predicate CollapsedFrom(s: string, k: nat) {
    forall i :: k <= i < |s| && IsSpace(s[i]) ==> s[i] == ' ' && (i + 1 == |s| || s[i + 1] != ' ')
  }

  /** Where white space is already single spaces, each run is a space replaced by a space. */
  lemma {:induction false} CollapsedSplice(s: string, k: nat)
    requires k <= |s| && CollapsedFrom(s, k)
    ensures Advancing(SpaceMatcher(s), |s|) && Ordered(MatchAll(SpaceMatcher(s), k, |s|), k, |s|)
    ensures Splice(s, k, MatchAll(SpaceMatcher(s), k, |s|), " ") == s[k..]
    decreases |s| - k
  {
    var m := SpaceMatcher(s);
    MatchersAdvance(s);
    MatchAllOrdered(m, k, |s|);
    FirstSpec(m, k, |s|);
    var i := First(m, k, |s|);
    if i.None? {
      assert Splice(s, k, MatchAll(m, k, |s|), " ") == s[k..|s|];
    } else {
      var e := m(i.value).value;
      assert IsSpace(s[i.value]) && s[i.value] == ' ';
      assert i.value + 1 < |s| ==> !IsSpace(s[i.value + 1]);
      RunEndAt(s, i.value, i.value + 1, IsSpace);
      var h := Hit(i.value, e);
      MatchAllOrdered(m, e, |s|);
      CollapsedSplice(s, e);
      assert MatchAll(m, k, |s|) == [h] + MatchAll(m, e, |s|);
      assert Splice(s, k, MatchAll(m, k, |s|), " ") == s[k..i.value] + " " + s[e..];
      assert s[k..] == s[k..i.value] + [s[i.value]] + s[e..];
    }
  }

  /** Text whose white space is already single spaces is left as it is. */
  lemma CollapseFixed(s: string)
    requires Collapsed(s)
    ensures Collapse(s) == s
  {
    CollapsedSplice(s, 0);
  }

  /** Between text with no white space and collapsed text, a run of white space becomes one space. */
  lemma CollapseRun(a: string, w: string, b: string)
    requires SpaceFree(a) && w != [] && (forall k :: 0 <= k < |w| ==> IsSpace(w[k]))
    requires Collapsed(b) && (b == [] || !IsSpace(b[0]))
    ensures Collapse(a + w + b) == a + " " + b
  {
    var s := a + w + b;
    var m := SpaceMatcher(s);
    var e := |a| + |w|;
    MatchersAdvance(s);
    forall j | 0 <= j < |a| ensures m(j).None? {
      assert s[j] == a[j];
    }
    forall k | |a| <= k < e ensures IsSpace(s[k]) {
      assert s[k] == w[k - |a|];
    }
    assert e < |s| ==> s[e] == b[0];
    RunEndAt(s, |a|, e, IsSpace);
    assert m(|a|) == Some(e);
    forall i | e <= i < |s| && IsSpace(s[i]) ensures s[i] == ' ' && (i + 1 == |s| || s[i + 1] != ' ') {
      assert s[i] == b[i - e];
      assert i + 1 < |s| ==> s[i + 1] == b[i + 1 - e];
    }
    CollapsedSplice(s, e);
    FirstSpec(m, 0, |s|);
    assert First(m, 0, |s|) == Some(|a|);
    assert MatchAll(m, 0, |s|) == [Hit(|a|, e)] + MatchAll(m, e, |s|);
    assert Splice(s, 0, MatchAll(m, 0, |s|), " ") == s[0..|a|] + " " + s[e..];
    assert s[0..|a|] == a && s[e..] == b;
  }

  /** Untagged text with single spaces only: its text content is the text trimmed. */
  lemma TextContentPlain(s: string)
    requires '<' !in s && Collapsed(s)
    ensures TextContent(s) == Trim(s)
  {
    VisiblePlain(s);
    CollapseFixed(s);
  }

  /** Content has white space only as single spaces, and never starts with one. */
  lemma ContentCollapsed(html: string)
    ensures Collapsed(Content(html))
    ensures Content(html) == [] || Content(html)[0] != ' '
  {
    CutCollapsed(Collapse(Visible(html)), Content(html));
  }

  /** A prefix of the trimmed text keeps single spaces only, and does not start with one. */
  lemma CutCollapsed(collapsed: string, c: string)
    requires Collapsed(collapsed) && c <= Trim(collapsed)
    ensures Collapsed(c) && (c == [] || c[0] != ' ')
  {
    var t := Trim(collapsed);
    var lo :| At(collapsed, lo, t);
    CollapsedSlice(collapsed, lo, lo + |t|);
    assert t == collapsed[lo..lo + |t|];
    CollapsedSlice(t, 0, |c|);
    assert c == t[0..|c|];
  }

  /**
   * The capture of `html.match(/<title[^>]*>([^<]+)<\/title>/i)`: the text
   * of the first title element that matches, or `None`. It is never empty
   * and holds no `<`.
   */
  function TitleText(html: string): (t: Option<string>)
    ensures t.None? <==> NoneIn(TitleMatcher(html), 0, |html| + 1)
    ensures t.Some? ==> t.value != [] && '<' !in t.value
  {
    var m := TitleMatcher(html);
    FirstHitIsFirst(m, |html|);
    var h := FirstHit(m, |html|);
    if h.None? then None
    else
      var c := TitleAt(html, h.value.start).value;
      NoLtSlice(html, c.0, c.1);
      Some(html[c.0..c.1])
  }

  lemma NoLtSlice(s: string, lo: nat, hi: nat)
    requires All(s, lo, hi, NotLt)
    ensures '<' !in s[lo..hi]
  {
    var text := s[lo..hi];
    forall j | 0 <= j < |text| ensures text[j] != '<' {
      assert text[j] == s[lo + j];
    }
  }

  /** The trimmed capture, or "Untitled" when nothing matches; it holds no `<`. */
  function Title(html: string): (title: string)
    ensures '<' !in title
  {
    var t := TitleText(html);
    if t.None? then "Untitled"
    else
      TrimKeepsNoLt(t.value);
      Trim(t.value)
  }

  /**
   * "Untitled" when no title element matches; otherwise the trimmed text of
   * the first that does, which holds no `<` and is empty exactly when that
   * text is all white space.
   */
  lemma TitleCases(html: string)
    ensures NoneIn(TitleMatcher(html), 0, |html| + 1) ==> Title(html) == "Untitled"
    ensures TitleText(html).Some? ==>
      var text := TitleText(html).value;
      && '<' !in Title(html)
      && (Title(html) == [] <==> forall k :: 0 <= k < |text| ==> IsSpace(text[k]))
      && (Title(html) == [] || (!IsSpace(Title(html)[0]) && !IsSpace(Title(html)[|Title(html)| - 1])))
  {
    if TitleText(html).Some? {
      TrimKeepsNoLt(TitleText(html).value);
    }
  }

  lemma TrimKeepsNoLt(text: string)
    requires '<' !in text
    ensures '<' !in Trim(text)
  {
    var t := Trim(text);
    var lo :| At(text, lo, t);
    forall j | 0 <= j < |t| ensures t[j] != '<' {
      assert t[j] == text[lo + j];
    }
  }
}
