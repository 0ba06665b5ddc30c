/**
 * The invoice-parser plugin `run(text)`: three independent `match` calls,
 * each falling back to a default string when it finds nothing.
 *
 *   vendor: `/Vendor:\s*(.*)/i`, or "Unknown" (also for an empty capture)
 *   date:   `/Date:\s*(\d{4}-\d{2}-\d{2})/`, or "N/A"
 *   total:  `/Total:\s*\$([\d.]+)/`, or "0.00"
 */
module InvoiceParser {
  import opened Wrappers
  import opened Text
  import opened Matching
  import opened LabelledLine

  /** The object `run` returns: always these three strings. */
  datatype Invoice = Invoice(vendor: string, date: string, total: string)

  // The date pattern

  /** `\d{4}-\d{2}-\d{2}` at `w`; the digit values are not checked. */
  predicate DateShape(s: string, w: int) {
    && 0 <= w && w + 10 <= |s|
    && s[w + 4] == '-' && s[w + 7] == '-'
    && forall k | w <= k < w + 10 && k != w + 4 && k != w + 7 :: IsDigit(s[k])
  }

  /** The date pattern matches at `i` with its capture starting at `w`. */
  predicate DateAt(s: string, i: int, w: int) {
    At(s, i, "Date:") && All(s, i + 5, w, IsSpace) && DateShape(s, w)
  }

  /**
   * Where the capture starts when the date pattern matches at `i`. Giving back
   * white space from `\s*` cannot help, since a digit must follow, so the
   * capture starts at the end of the white-space run or nowhere.
   */
  function DateMatch(s: string, i: nat): (w: Option<nat>)
    ensures w.Some? ==> DateAt(s, i, w.value)
    ensures forall v :: DateAt(s, i, v) ==> w == Some(v)
  {
    if At(s, i, "Date:") then
      var w := RunEnd(s, i + 5, IsSpace);
      DateStart(s, i, w);
      if DateShape(s, w) then Some(w) else None
    else None
  }

  /** A date capture starts after all of the white space. */
  lemma DateStart(s: string, i: nat, w: nat)
    requires At(s, i, "Date:") && w == RunEnd(s, i + 5, IsSpace)
    ensures forall v :: DateAt(s, i, v) ==> v == w
  {
    forall v | DateAt(s, i, v) ensures v == w {
      assert IsDigit(s[v]);
    }
  }

  /** The leftmost match of the date pattern is at `i`, its capture starting at `w`. */
  ghost predicate FirstDateAt(s: string, i: int, w: int) {
    DateAt(s, i, w) && forall k, v | 0 <= k < i :: !DateAt(s, k, v)
  }

  /**
   * `r` is the capture of the first match of the date pattern: `None` when it
   * matches nowhere, and otherwise the ten characters after the white space
   * at the leftmost index where it matches.
   */
  ghost predicate IsFirstDate(s: string, r: Option<string>) {
    && (r.None? <==> forall i, w | 0 <= i <= |s| :: !DateAt(s, i, w))
    && (r.Some? ==> exists i, w :: FirstDateAt(s, i, w) && r.value == s[w..w + 10])
  }

  /** The date pattern as a matcher: the end of its match at `j`, which is where the capture ends. */
  function DateMatcher(s: string): nat -> Option<nat> {
    j => if DateMatch(s, j).Some? then Some(DateMatch(s, j).value + 10) else None
  }

  /** The first index at or after `k` where the date pattern matches. */
  function DateFrom(s: string, k: nat): (r: Option<nat>)
    ensures r.Some? ==> k <= r.value <= |s| && DateMatch(s, r.value).Some?
  {
    First(DateMatcher(s), k, |s|)
  }

  /** `DateFrom` skips no index where the date pattern matches. */
  lemma DateFromSpec(s: string, k: nat)
    ensures var r := DateFrom(s, k);
      && (r.Some? ==> forall j: nat | k <= j < r.value :: DateMatch(s, j).None?)
      && (r.None? ==> forall j: nat | k <= j <= |s| :: DateMatch(s, j).None?)
  {
    var m := DateMatcher(s);
    FirstSpec(m, k, |s|);
    forall j: nat ensures m(j).None? <==> DateMatch(s, j).None? {
    }
  }

  /** Where the scanner finds nothing, the pattern matches nowhere. */
  lemma NoDate(s: string, hi: int)
    requires forall j | 0 <= j < hi :: DateMatch(s, j).None?
    ensures forall j, v | 0 <= j < hi :: !DateAt(s, j, v)
  {
    forall j, v | 0 <= j < hi ensures !DateAt(s, j, v) {
      var _ := DateMatch(s, j);
    }
  }

  /** `text.match(/Date:\s*(\d{4}-\d{2}-\d{2})/)?.[1]`. */
  function FirstDate(s: string): (r: Option<string>)
    ensures IsFirstDate(s, r)
    ensures r.Some? ==> |r.value| == 10
  {
    var i := DateFrom(s, 0);
    DateFromSpec(s, 0);
    if i.None? then
      NoDate(s, |s| + 1);
      None
    else
      var w := DateMatch(s, i.value).value;
      NoDate(s, i.value);
      assert FirstDateAt(s, i.value, w);
      Some(s[w..w + 10])
  }

  /** There is one leftmost match. */
  lemma FirstDateAtUnique(s: string, i: int, w: int, j: int, x: int)
    requires FirstDateAt(s, i, w) && FirstDateAt(s, j, x)
    ensures i == j && w == x
  {
    assert i == j;
    DateStart(s, i, RunEnd(s, i + 5, IsSpace));
  }

  /** There is one first date capture. */
  lemma IsFirstDateUnique(s: string, r: Option<string>, q: Option<string>)
    requires IsFirstDate(s, r) && IsFirstDate(s, q)
    ensures r == q
  {
    if r.Some? && q.Some? {
      var i, w :| FirstDateAt(s, i, w) && r.value == s[w..w + 10];
      var j, x :| FirstDateAt(s, j, x) && q.value == s[x..x + 10];
      FirstDateAtUnique(s, i, w, j, x);
    }
  }

  // The total pattern

  /** `[\d.]`. */
  predicate AmountChar(c: char) {
    IsDigit(c) || c == '.'
  }

  /** The total pattern can match at `i` with its capture `s[b..e]`, the `$` just before `b`. */
  predicate TotalAt(s: string, i: int, b: int, e: int) {
    && At(s, i, "Total:")
    && i + 6 < b < e <= |s|
    && All(s, i + 6, b - 1, IsSpace)
    && s[b - 1] == '$'
    && All(s, b, e, AmountChar)
  }

  /**
   * The capture when the total pattern matches at `i`: `\s*` must take all
   * the white space for a `$` to follow, and the greedy `[\d.]+` then takes
   * the longest run it can.
   */
  function TotalMatch(s: string, i: nat): (h: Option<Hit>)
    ensures h.Some? ==> TotalAt(s, i, h.value.start, h.value.end)
  {
    if At(s, i, "Total:") then
      var w := RunEnd(s, i + 6, IsSpace);
      if w < |s| && s[w] == '$' then
        var e := RunEnd(s, w + 1, AmountChar);
        if e > w + 1 then Some(Hit(w + 1, e)) else None
      else None
    else None
  }

  /** The capture `TotalMatch` finds is the longest, and it misses no match. */
  lemma TotalMatchSpec(s: string, i: nat)
    ensures var h := TotalMatch(s, i);
      && (h.Some? ==> forall b, e :: TotalAt(s, i, b, e) ==> b == h.value.start && e <= h.value.end)
      && (h.None? ==> forall b, e :: !TotalAt(s, i, b, e))
  {
    if At(s, i, "Total:") {
      TotalStart(s, i, RunEnd(s, i + 6, IsSpace));
    }
  }

  /** A total capture starts just after the `$` that ends the white space. */
  lemma TotalStart(s: string, i: nat, w: nat)
    requires At(s, i, "Total:") && w == RunEnd(s, i + 6, IsSpace)
    ensures forall b, e :: TotalAt(s, i, b, e) ==> b == w + 1
  {
    forall b, e | TotalAt(s, i, b, e) ensures b == w + 1 {
    }
  }

  /** The longest capture at `i` is `s[b..e]`. */
  ghost predicate LongestTotalAt(s: string, i: int, b: int, e: int) {
    TotalAt(s, i, b, e) && forall b', e' :: TotalAt(s, i, b', e') ==> e' <= e
  }

  /** The leftmost match of the total pattern is at `i`, with the longest capture `s[b..e]`. */
  ghost predicate FirstTotalAt(s: string, i: int, b: int, e: int) {
    LongestTotalAt(s, i, b, e) && forall k, b', e' | 0 <= k < i :: !TotalAt(s, k, b', e')
  }

  /**
   * `r` is the capture of the first match of the total pattern: `None` when
   * it matches nowhere, and otherwise the longest capture at the leftmost
   * index where it matches.
   */
  ghost predicate IsFirstTotal(s: string, r: Option<string>) {
    && (r.None? <==> forall i, b, e | 0 <= i <= |s| :: !TotalAt(s, i, b, e))
    && (r.Some? ==> exists i, b, e :: FirstTotalAt(s, i, b, e) && r.value == s[b..e])
  }

  /** The total pattern as a matcher: the end of its match at `j`, which is where the capture ends. */
  function TotalMatcher(s: string): nat -> Option<nat> {
    j => if TotalMatch(s, j).Some? then Some(TotalMatch(s, j).value.end) else None
  }

  /** The first index at or after `k` where the total pattern matches. */
  function TotalFrom(s: string, k: nat): (r: Option<nat>)
    ensures r.Some? ==> k <= r.value <= |s| && TotalMatch(s, r.value).Some?
  {
    First(TotalMatcher(s), k, |s|)
  }

  /** `TotalFrom` skips no index where the total pattern matches. */
  lemma TotalFromSpec(s: string, k: nat)
    ensures var r := TotalFrom(s, k);
      && (r.Some? ==> forall j: nat | k <= j < r.value :: TotalMatch(s, j).None?)
      && (r.None? ==> forall j: nat | k <= j <= |s| :: TotalMatch(s, j).None?)
  {
    var m := TotalMatcher(s);
    FirstSpec(m, k, |s|);
    forall j: nat ensures m(j).None? <==> TotalMatch(s, j).None? {
    }
  }

  /** Where the scanner finds nothing, the pattern matches nowhere. */
  lemma NoTotal(s: string, hi: int)
    requires forall j | 0 <= j < hi :: TotalMatch(s, j).None?
    ensures forall j, b, e | 0 <= j < hi :: !TotalAt(s, j, b, e)
  {
    forall j, b, e | 0 <= j < hi ensures !TotalAt(s, j, b, e) {
      TotalMatchSpec(s, j);
    }
  }

  /** `text.match(/Total:\s*\$([\d.]+)/)?.[1]`. */
  function FirstTotal(s: string): (r: Option<string>)
    ensures IsFirstTotal(s, r)
    ensures r.Some? ==> r.value != [] && forall k :: 0 <= k < |r.value| ==> AmountChar(r.value[k])
  {
    var i := TotalFrom(s, 0);
    TotalFromSpec(s, 0);
    if i.None? then
      NoTotal(s, |s| + 1);
      None
    else
      var h := TotalMatch(s, i.value).value;
      TotalMatchSpec(s, i.value);
      NoTotal(s, i.value);
      assert FirstTotalAt(s, i.value, h.start, h.end);
      Some(s[h.start..h.end])
  }

  /** There is one leftmost match, and one longest capture there. */
  lemma FirstTotalAtUnique(s: string, i: int, b: int, e: int, j: int, c: int, f: int)
    requires FirstTotalAt(s, i, b, e) && FirstTotalAt(s, j, c, f)
    ensures i == j && b == c && e == f
  {
    assert i == j;
    TotalStart(s, i, RunEnd(s, i + 6, IsSpace));
  }

  /** There is one first total capture. */
  lemma IsFirstTotalUnique(s: string, r: Option<string>, q: Option<string>)
    requires IsFirstTotal(s, r) && IsFirstTotal(s, q)
    ensures r == q
  {
    if r.Some? && q.Some? {
      var i, b, e :| FirstTotalAt(s, i, b, e) && r.value == s[b..e];
      var j, c, f :| FirstTotalAt(s, j, c, f) && q.value == s[c..f];
      FirstTotalAtUnique(s, i, b, e, j, c, f);
    }
  }

  // The plugin

  /**
   * `run(text)`: each field is its pattern's first capture, or its default
   * when there is none or it is empty.
   */
  function Run(text: string): (r: Invoice)
    ensures exists v :: IsFirstLine(text, "Vendor:", v) && r.vendor == OrElse(v, "Unknown")
    ensures exists d :: IsFirstDate(text, d) && r.date == OrElse(d, "N/A")
    ensures exists t :: IsFirstTotal(text, t) && r.total == OrElse(t, "0.00")
  {
    FirstLineSpec(text, "Vendor:");
    Invoice(
      OrElse(FirstLine(text, "Vendor:"), "Unknown"),
      OrElse(FirstDate(text), "N/A"),
      OrElse(FirstTotal(text), "0.00"))
  }

  /** Those properties leave no choice: any result that has them is `run`'s. */
  lemma RunDetermined(text: string, r: Invoice)
    requires exists v :: IsFirstLine(text, "Vendor:", v) && r.vendor == OrElse(v, "Unknown")
    requires exists d :: IsFirstDate(text, d) && r.date == OrElse(d, "N/A")
    requires exists t :: IsFirstTotal(text, t) && r.total == OrElse(t, "0.00")
    ensures r == Run(text)
  {
    var v :| IsFirstLine(text, "Vendor:", v) && r.vendor == OrElse(v, "Unknown");
    var d :| IsFirstDate(text, d) && r.date == OrElse(d, "N/A");
    var t :| IsFirstTotal(text, t) && r.total == OrElse(t, "0.00");
    FirstLineSpec(text, "Vendor:");
    IsFirstLineUnique(text, "Vendor:", v, FirstLine(text, "Vendor:"));
    IsFirstDateUnique(text, d, FirstDate(text));
    IsFirstTotalUnique(text, t, FirstTotal(text));
  }

  /**
   * The date and total defaults appear only when their pattern matches
   * nowhere; a date found is ten characters, and a total found is a non-empty
   * run of digits and dots.
   */
  lemma RunDefaults(text: string)
    ensures var r := Run(text);
      && (r.date == "N/A" <==> forall i, w | 0 <= i <= |text| :: !DateAt(text, i, w))
      && (r.total == "0.00" <== forall i, b, e | 0 <= i <= |text| :: !TotalAt(text, i, b, e))
      && (r.date != "N/A" ==> |r.date| == 10)
      && (r.total != "0.00" ==> r.total != [] && forall k :: 0 <= k < |r.total| ==> AmountChar(r.total[k]))
  {
    var d := FirstDate(text);
    if d.Some? {
      assert d.value != "N/A";
    }
  }
}
