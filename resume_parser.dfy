/**
 * The resume-parser plugin `run(text)`.
 *
 *   name:   `/Name:\s*(.*)/i`, or "N/A" (also for an empty capture)
 *   email:  the first match of the contact extractor's e-mail pattern, or `undefined`
 *   skills: the captures of `matchAll(/Skills?:\s*(.*?)\n/gi)`, in order
 *
 * `skills.flat()` leaves an array of strings as it is.
 */
module ResumeParser {
  import opened Wrappers
  import opened Text
  import opened Matching
  import opened LabelledLine
  import ContactExtractor

  /** The object `run` returns; `None` stands for `undefined`. */
  datatype Resume = Resume(name: string, email: Option<string>, skills: seq<string>)

  // The skills pattern

  /** `Skills?:` ignoring ASCII case occurs at `i` and ends at `k`. */
  predicate SkillsKeyAt(s: string, i: int, k: int) {
    || (AtIgnoreCase(s, i, "skill:") && k == i + 6)
    || (AtIgnoreCase(s, i, "skills:") && k == i + 7)
  }

  /** Where `Skills?:` ends when it occurs at `i`: the greedy `s?` takes an `s` when a `:` follows it. */
  function KeyEnd(s: string, i: nat): (k: Option<nat>)
    ensures k.Some? ==> SkillsKeyAt(s, i, k.value) && k.value <= |s|
    ensures forall k' :: SkillsKeyAt(s, i, k') ==> k == Some(k')
  {
    if AtIgnoreCase(s, i, "skills:") then
      KeyUnique(s, i);
      Some(i + 7)
    else if AtIgnoreCase(s, i, "skill:") then Some(i + 6)
    else None
  }

  /** `Skills:` and `Skill:` cannot both occur at `i`. */
  lemma KeyUnique(s: string, i: nat)
    requires AtIgnoreCase(s, i, "skills:")
    ensures !AtIgnoreCase(s, i, "skill:")
  {
    assert ToLowerChar(s[i + 5]) == 's' by {
      assert ToLowerChar(s[i + 5]) == ToLowerChar("skills:"[5]);
    }
    assert "skill:"[5] == ':';
  }

  /**
   * The skills pattern can match at `i` with the key ending at `k`, `\s*`
   * taking `s[k..w]`, the capture `s[w..j]` and the `\n` at `j`.
   */
  predicate SkillsParts(s: string, i: int, k: int, w: int, j: int) {
    && SkillsKeyAt(s, i, k)
    && k <= w <= j < |s|
    && All(s, k, w, IsSpace)
    && (forall t | w <= t < j :: !IsLineTerminator(s[t]))
    && s[j] == '\n'
  }

  /**
   * The match the matcher takes at `i`: the greedy `\s*` keeps as much white
   * space as it can, so `w` is the largest; the lazy `(.*?)` then stops at
   * the first `\n`, which the text fixes once `w` is chosen.
   */
  ghost predicate PreferredAt(s: string, i: int, k: int, w: int, j: int) {
    SkillsParts(s, i, k, w, j) && forall k', w', j' :: SkillsParts(s, i, k', w', j') ==> w' <= w
  }

  /** From `w`, `.*?` reaches a `\n`: the first line terminator after `w` is one. */
  predicate NewlineAfter(s: string, w: nat) {
    w <= |s| && LineEnd(s, w) < |s| && s[LineEnd(s, w)] == '\n'
  }

  /** The largest `w` in `k..h + 1` with `NewlineAfter`. */
  function LastNewlineStart(s: string, k: nat, h: nat): (w: Option<nat>)
    requires h <= |s|
    ensures w.Some? ==> k <= w.value <= h && NewlineAfter(s, w.value)
    ensures w.Some? ==> forall v | w.value < v <= h :: !NewlineAfter(s, v)
    ensures w.None? ==> forall v | k <= v <= h :: !NewlineAfter(s, v)
    decreases h
  {
    if h < k then None
    else if NewlineAfter(s, h) then Some(h)
    else if h == 0 then None
    else LastNewlineStart(s, k, h - 1)
  }

  /** The capture `s[w..j]` of the skills match at `i`, as `Hit(w, j)`. */
  function SkillsMatch(s: string, i: nat): (h: Option<Hit>)
    ensures h.Some? ==> KeyEnd(s, i).Some? && PreferredAt(s, i, KeyEnd(s, i).value, h.value.start, h.value.end)
    ensures h.None? ==> forall k, w, j :: !SkillsParts(s, i, k, w, j)
  {
    var k := KeyEnd(s, i);
    if k.None? then
      None
    else
      var run := RunEnd(s, k.value, IsSpace);
      SkillsRun(s, i, k.value, run);
      var w := LastNewlineStart(s, k.value, run);
      if w.None? then
        None
      else
        var j := LineEnd(s, w.value);
        assert SkillsParts(s, i, k.value, w.value, j);
        Some(Hit(w.value, j))
  }

  /** Every skills match at `i` keeps white space only within the run from the key, and its `\n` comes first after `w`. */
  lemma SkillsRun(s: string, i: nat, k: nat, run: nat)
    requires SkillsKeyAt(s, i, k) && k <= |s| && run == RunEnd(s, k, IsSpace)
    ensures forall k', w', j' :: SkillsParts(s, i, k', w', j') ==>
      k' == k && w' <= run && j' == LineEnd(s, w') && NewlineAfter(s, w')
  {
    forall k', w', j' | SkillsParts(s, i, k', w', j')
      ensures k' == k && w' <= run && j' == LineEnd(s, w') && NewlineAfter(s, w')
    {
      var _ := KeyEnd(s, i);
    }
  }

  /** The skills pattern's matcher over `text`: a match ends just after its `\n`. */
  function SkillsMatcher(text: string): nat -> Option<nat> {
    i => var h := SkillsMatch(text, i); if h.Some? then Some(h.value.end + 1) else None
  }

  /** A skills line that no `\n` ends is not matched. */
  lemma DroppedAtEnd(s: string, i: nat, k: nat)
    requires SkillsKeyAt(s, i, k)
    requires forall t | k <= t < |s| :: s[t] != '\n'
    ensures SkillsMatch(s, i).None?
  {
  }

  /** `c` is what the skills match at `i` captures. */
  ghost predicate SkillAt(s: string, i: int, c: string) {
    exists k, w, j :: PreferredAt(s, i, k, w, j) && c == s[w..j]
  }

  /** What the skills match at `i` captures. */
  function SkillCapture(s: string, i: nat): (c: string)
    requires SkillsMatch(s, i).Some?
    ensures SkillAt(s, i, c) && OneLine(c)
  {
    var h := SkillsMatch(s, i).value;
    s[h.start..h.end]
  }

  /** `[...text.matchAll(/Skills?:\s*(.*?)\n/gi)].map(m => m[1])`. */
  function Skills(text: string): (skills: seq<string>)
    ensures exists hits: seq<Hit> ::
      && MatchAllOf(SkillsMatcher(text), 0, |text|, hits)
      && |skills| == |hits|
      && forall t :: 0 <= t < |hits| ==> SkillAt(text, hits[t].start, skills[t])
    ensures forall t :: 0 <= t < |skills| ==> OneLine(skills[t])
  {
    var m := SkillsMatcher(text);
    var hits := MatchAll(m, 0, |text|);
    MatchAllSpec(m, 0, |text|);
    MatchAllOfHits(m, 0, |text|, hits);
    seq(|hits|, t requires 0 <= t < |hits| => SkillCapture(text, hits[t].start))
  }

  // The plugin

  /** `text.match(email)?.[0]`: the text of the leftmost e-mail match. */
  function FirstEmail(text: string): (email: Option<string>)
    ensures var emails := ContactExtractor.Emails(text);
      email == if emails == [] then None else Some(emails[0])
  {
    var m := ContactExtractor.EmailMatcher(text);
    var h := FirstHit(m, |text|);
    FirstHitIsFirst(m, |text|);
    FirstEmailSpec(text);
    if h.None? then None else Some(text[h.value.start..h.value.end])
  }

  /** The contact extractor's first e-mail is the text of the leftmost match. */
  lemma FirstEmailSpec(text: string)
    ensures var m := ContactExtractor.EmailMatcher(text);
      var hits := MatchAll(m, 0, |text|);
      ContactExtractor.Emails(text) == [] <==> hits == []
    ensures var m := ContactExtractor.EmailMatcher(text);
      var hits := MatchAll(m, 0, |text|);
      hits != [] ==>
        && hits[0].start <= hits[0].end <= |text|
        && ContactExtractor.Emails(text)[0] == text[hits[0].start..hits[0].end]
  {
    var m := ContactExtractor.EmailMatcher(text);
    var emails := ContactExtractor.Emails(text);
    var hits :| MatchAllOf(m, 0, |text|, hits) && TextsOf(text, hits, emails);
    MatchAllSpec(m, 0, |text|);
    MatchAllOfUnique(m, 0, |text|, hits, MatchAll(m, 0, |text|));
  }

  /**
   * `run(text)`: the name after the first `Name:` or "N/A", the first e-mail
   * the contact extractor would report, and every skills capture in order.
   */
  function Run(text: string): (r: Resume)
    ensures exists v :: IsFirstLine(text, "Name:", v) && r.name == OrElse(v, "N/A")
    ensures var emails := ContactExtractor.Emails(text);
      r.email == if emails == [] then None else Some(emails[0])
    ensures exists hits: seq<Hit> ::
      && MatchAllOf(SkillsMatcher(text), 0, |text|, hits)
      && |r.skills| == |hits|
      && forall t :: 0 <= t < |hits| ==> SkillAt(text, hits[t].start, r.skills[t])
  {
    FirstLineSpec(text, "Name:");
    Resume(OrElse(FirstLine(text, "Name:"), "N/A"), FirstEmail(text), Skills(text))
  }
}
