/**
 * The contact-extractor plugin `run(text)`: two independent `matchAll`
 * scans of the whole text, one for e-mail addresses and one for phone
 * numbers, each listing the matched texts left to right.
 *
 *   e-mail: `/[\w.-]+@[\w.-]+\.[a-zA-Z]{2,}/g`
 *   phone:  `/\+?\d[\d\s.-]{7,}\d/g`
 *
 * For both patterns the match the backtracking matcher finds at a start
 * index is the longest text there that the pattern describes.
 */
module ContactExtractor {
  import opened Wrappers
  import opened Text
  import opened Matching

  /** The object `run` returns. */
  datatype Contacts = Contacts(emails: seq<string>, phones: seq<string>)

  // The e-mail pattern

  /**
   * `s[i..e]` is an e-mail text with its `@` at `a` and the `.` before the
   * final letters at `d`: a name, `@`, a domain, `.`, two or more letters.
   */
  predicate EmailParts(s: string, i: int, a: int, d: int, e: int) {
    && 0 <= i < a && a + 1 < d && d + 2 < e <= |s|
    && All(s, i, a, IsWordDotDash) && s[a] == '@'
    && All(s, a + 1, d, IsWordDotDash) && s[d] == '.'
    && All(s, d + 1, e, IsAsciiLetter)
  }

  /** `s[i..e]` is a text the e-mail pattern describes. */
  ghost predicate EmailAt(s: string, i: int, e: int) {
    exists a, d :: EmailParts(s, i, a, d, e)
  }

  /** A `.` at `d` followed by two letters: where `\.[a-zA-Z]{2,}` can start. */
  predicate TldAt(s: string, d: int) {
    0 <= d && d + 2 < |s| && s[d] == '.' && IsAsciiLetter(s[d + 1]) && IsAsciiLetter(s[d + 2])
  }

  /** The largest `d` in `lo..j` where `TldAt` holds. */
  function LastTld(s: string, lo: int, j: int): (r: Option<nat>)
    ensures r.Some? ==> lo <= r.value < j && TldAt(s, r.value)
    ensures r.Some? ==> forall d | r.value < d < j :: !TldAt(s, d)
    ensures r.None? ==> forall d | lo <= d < j :: !TldAt(s, d)
    decreases j - lo
  {
    if j <= lo || j <= 0 then None
    else if TldAt(s, j - 1) then Some(j - 1)
    else LastTld(s, lo, j - 1)
  }

  /**
   * The end of the e-mail match at `i`. The name run `[\w.-]+` cannot give
   * anything back, since `@` must follow it and is not in the class; the
   * domain run gives back characters until a `.` and two letters follow; the
   * final letter run is greedy. This finds the longest e-mail text at `i`.
   */
  function EmailEnd(s: string, i: nat): (e: Option<nat>)
    ensures e.Some? ==> i < e.value <= |s| && EmailAt(s, i, e.value)
    ensures e.Some? ==> forall e' :: EmailAt(s, i, e') ==> e' <= e.value
    ensures e.None? ==> forall e' :: !EmailAt(s, i, e')
  {
    if i > |s| then
      None
    else
      var a := RunEnd(s, i, IsWordDotDash);
      NameRun(s, i, a);
      if a == i || a == |s| || s[a] != '@' then
        None
      else
        var dEnd := RunEnd(s, a + 1, IsWordDotDash);
        DomainRun(s, i, a, dEnd);
        var d := LastTld(s, a + 2, dEnd);
        if d.None? then
          None
        else
          var e := RunEnd(s, d.value + 1, IsAsciiLetter);
          EmailLongest(s, i, a, dEnd, d.value, e);
          Some(e)
  }

  /** Every e-mail text at `i` has its `@` just after the name run. */
  lemma NameRun(s: string, i: nat, a: nat)
    requires i <= |s| && a == RunEnd(s, i, IsWordDotDash)
    ensures forall a', d', e' :: EmailParts(s, i, a', d', e') ==> a' == a
    ensures (a == i || a == |s| || s[a] != '@') ==> forall e' :: !EmailAt(s, i, e')
  {
    forall a', d', e' | EmailParts(s, i, a', d', e') ensures a' == a {
      assert !IsWordDotDash(s[a']);
    }
  }

  /** Every e-mail text with its `@` at `a` has its last `.` inside the domain run, two letters after it. */
  lemma DomainRun(s: string, i: nat, a: nat, dEnd: nat)
    requires a < |s| && dEnd == RunEnd(s, a + 1, IsWordDotDash)
    ensures forall d', e' :: EmailParts(s, i, a, d', e') ==> a + 2 <= d' < dEnd && TldAt(s, d')
  {
    forall d', e' | EmailParts(s, i, a, d', e') ensures a + 2 <= d' < dEnd && TldAt(s, d') {
      assert IsAsciiLetter(s[d' + 1]) && IsAsciiLetter(s[d' + 2]);
      assert IsWordDotDash(s[d']);
    }
  }

  /** The scanner's text is an e-mail text, and the longest one at `i`. */
  lemma EmailLongest(s: string, i: nat, a: nat, dEnd: nat, d: nat, e: nat)
    requires i < a < |s| && a == RunEnd(s, i, IsWordDotDash) && s[a] == '@'
    requires dEnd == RunEnd(s, a + 1, IsWordDotDash)
    requires LastTld(s, a + 2, dEnd) == Some(d)
    requires e == RunEnd(s, d + 1, IsAsciiLetter)
    ensures EmailParts(s, i, a, d, e)
    ensures forall e' :: EmailAt(s, i, e') ==> e' <= e
  {
    NameRun(s, i, a);
    DomainRun(s, i, a, dEnd);
    assert All(s, d + 1, e, IsAsciiLetter);
    forall e' | EmailAt(s, i, e') ensures e' <= e {
      var a', d' :| EmailParts(s, i, a', d', e');
      if d' < d {
        assert !IsAsciiLetter(s[d]);
      }
    }
  }

  /** The e-mail pattern's matcher over `text`. */
  function EmailMatcher(text: string): nat -> Option<nat> {
    i => EmailEnd(text, i)
  }

  /** `m` contains `@`, has at least five characters and ends in two ASCII letters. */
  predicate EmailShape(m: string) {
    '@' in m && |m| >= 5 && IsAsciiLetter(m[|m| - 1]) && IsAsciiLetter(m[|m| - 2])
  }

  /** An e-mail text contains `@` and ends in two ASCII letters. */
  lemma EmailText(s: string, i: nat, e: nat)
    requires i <= e <= |s| && EmailAt(s, i, e)
    ensures EmailShape(s[i..e])
  {
    var a, d :| EmailParts(s, i, a, d, e);
    assert s[i..e][a - i] == '@';
  }

  // The phone pattern

  /** `[\d\s.-]`. */
  predicate PhoneChar(c: char) {
    IsDigit(c) || IsSpace(c) || c == '.' || c == '-'
  }

  /**
   * `s[i..x + 1]` is a phone text whose first digit is at `p`: an optional
   * `+`, a digit, seven or more of `[\d\s.-]`, and a final digit at `x`.
   */
  predicate PhoneParts(s: string, i: int, p: int, x: int) {
    && 0 <= i <= p <= i + 1
    && p + 8 <= x < |s|
    && (p == i + 1 ==> s[i] == '+')
    && IsDigit(s[p])
    && All(s, p + 1, x, PhoneChar)
    && IsDigit(s[x])
  }

  /** `s[i..e]` is a text the phone pattern describes. */
  ghost predicate PhoneAt(s: string, i: int, e: int) {
    exists p, x :: PhoneParts(s, i, p, x) && e == x + 1
  }

  /** The largest `x` in `lo..j` at which `s` has a digit. */
  function LastDigit(s: string, lo: int, j: int): (r: Option<nat>)
    requires j <= |s|
    ensures r.Some? ==> lo <= r.value < j && IsDigit(s[r.value])
    ensures r.Some? ==> forall x | r.value < x < j :: !IsDigit(s[x])
    ensures r.None? ==> forall x | lo <= x < j && 0 <= x :: !IsDigit(s[x])
    decreases j - lo
  {
    if j <= lo || j <= 0 then None
    else if IsDigit(s[j - 1]) then Some(j - 1)
    else LastDigit(s, lo, j - 1)
  }

  /**
   * The end of the phone match at `i`. A `+` at `i` must be taken, for a
   * digit has to follow; the class run `[\d\s.-]{7,}` is greedy and gives
   * back characters until a digit ends the match. This finds the longest
   * phone text at `i`, so a `.` after the last digit is left out.
   */
  function PhoneEnd(s: string, i: nat): (e: Option<nat>)
    ensures e.Some? ==> i < e.value <= |s| && PhoneAt(s, i, e.value)
    ensures e.Some? ==> forall e' :: PhoneAt(s, i, e') ==> e' <= e.value
    ensures e.None? ==> forall e' :: !PhoneAt(s, i, e')
  {
    if i >= |s| then
      None
    else
      var p := if s[i] == '+' then i + 1 else i;
      PhoneStart(s, i, p);
      if p >= |s| || !IsDigit(s[p]) then
        None
      else
        var run := RunEnd(s, p + 1, PhoneChar);
        PhoneRun(s, i, p, run);
        var x := LastDigit(s, p + 8, run);
        if x.None? then
          None
        else
          assert PhoneParts(s, i, p, x.value);
          Some(x.value + 1)
  }

  /** Every phone text at `i` has its first digit at `p`. */
  lemma PhoneStart(s: string, i: nat, p: nat)
    requires i < |s| && p == (if s[i] == '+' then i + 1 else i)
    ensures forall p', x' :: PhoneParts(s, i, p', x') ==> p' == p
  {
  }

  /** Every phone text whose first digit is at `p` has its last digit inside the class run. */
  lemma PhoneRun(s: string, i: nat, p: nat, run: nat)
    requires p < |s| && run == RunEnd(s, p + 1, PhoneChar)
    ensures forall x' :: PhoneParts(s, i, p, x') ==> x' < run
  {
    forall x' | PhoneParts(s, i, p, x') ensures x' < run {
      assert PhoneChar(s[x']);
    }
  }

  /** The phone pattern's matcher over `text`. */
  function PhoneMatcher(text: string): nat -> Option<nat> {
    i => PhoneEnd(text, i)
  }

  /** `m` has at least nine characters, starts with `+` or a digit and ends with a digit. */
  predicate PhoneShape(m: string) {
    |m| >= 9 && (m[0] == '+' || IsDigit(m[0])) && IsDigit(m[|m| - 1])
  }

  /** A phone text starts with `+` or a digit, ends with a digit and is at least nine characters long. */
  lemma PhoneText(s: string, i: nat, e: nat)
    requires i <= e <= |s| && PhoneAt(s, i, e)
    ensures PhoneShape(s[i..e])
  {
    var p, x :| PhoneParts(s, i, p, x) && e == x + 1;
  }

  // The plugin

  /**
   * `run(text)`: the texts of what each pattern's `matchAll` reports, in
   * text order. Each e-mail contains `@` and ends in two ASCII letters; each
   * phone starts with `+` or a digit, ends with a digit and has at least
   * nine characters.
   */
  function Run(text: string): (r: Contacts)
    ensures exists hits :: MatchAllOf(EmailMatcher(text), 0, |text|, hits) && TextsOf(text, hits, r.emails)
    ensures exists hits :: MatchAllOf(PhoneMatcher(text), 0, |text|, hits) && TextsOf(text, hits, r.phones)
    ensures forall k :: 0 <= k < |r.emails| ==> EmailShape(r.emails[k])
    ensures forall k :: 0 <= k < |r.phones| ==> PhoneShape(r.phones[k])
  {
    Contacts(Emails(text), Phones(text))
  }

  /** `[...text.matchAll(email)].map(m => m[0])`. */
  function Emails(text: string): (emails: seq<string>)
    ensures exists hits :: MatchAllOf(EmailMatcher(text), 0, |text|, hits) && TextsOf(text, hits, emails)
    ensures forall k :: 0 <= k < |emails| ==> EmailShape(emails[k])
  {
    var m := EmailMatcher(text);
    var hits := MatchAll(m, 0, |text|);
    MatchAllSpec(m, 0, |text|);
    MatchAllOfHits(m, 0, |text|, hits);
    var emails := Texts(text, hits);
    forall k | 0 <= k < |emails| ensures EmailShape(emails[k]) {
      EmailText(text, hits[k].start, hits[k].end);
    }
    emails
  }

  /** `[...text.matchAll(phone)].map(m => m[0])`. */
  function Phones(text: string): (phones: seq<string>)
    ensures exists hits :: MatchAllOf(PhoneMatcher(text), 0, |text|, hits) && TextsOf(text, hits, phones)
    ensures forall k :: 0 <= k < |phones| ==> PhoneShape(phones[k])
  {
    var m := PhoneMatcher(text);
    var hits := MatchAll(m, 0, |text|);
    MatchAllSpec(m, 0, |text|);
    MatchAllOfHits(m, 0, |text|, hits);
    var phones := Texts(text, hits);
    forall k | 0 <= k < |phones| ensures PhoneShape(phones[k]) {
      PhoneText(text, hits[k].start, hits[k].end);
    }
    phones
  }
}
