/**
 * Patterns of the form `/<Label>\s*(.*)/i`: a key, ignoring ASCII case,
 * then the rest of the line after it.
 *
 * The greedy `\s*` takes every white-space character after the key, line
 * terminators included, and `(.*)` then takes every character up to the next
 * line terminator. `(.*)` also matches the empty text, so the matcher never
 * steps back: each occurrence of the key is a match, and its capture is
 * empty only when nothing but white space follows the key.
 */
module LabelledLine {
  import opened Wrappers
  import opened Text

  /** `c` has no line terminator: a text `.` can match character by character. */
  predicate OneLine(c: string) {
    forall t :: 0 <= t < |c| ==> !IsLineTerminator(c[t])
  }

  /**
   * From `b`, `\s*` takes `s[b..w]` and `(.*)` takes `s[w..e]`: the longest
   * white-space run, then the longest text without a line terminator.
   */
  predicate LineSpan(s: string, b: int, w: int, e: int) {
    && 0 <= b <= w <= e <= |s|
    && All(s, b, w, IsSpace)
    && (w < |s| ==> !IsSpace(s[w]))
    && (forall k | w <= k < e :: !IsLineTerminator(s[k]))
    && (e < |s| ==> IsLineTerminator(s[e]))
  }

  /** `c` is what `\s*(.*)` captures from `b`. */
  ghost predicate RestOfLine(s: string, b: int, c: string) {
    exists w, e :: LineSpan(s, b, w, e) && c == s[w..e]
  }

  /** The capture of `\s*(.*)` from `b`. */
  function LineCapture(s: string, b: nat): (c: string)
    requires b <= |s|
    ensures RestOfLine(s, b, c)
    ensures c == [] <==> All(s, b, |s|, IsSpace)
    ensures OneLine(c)
    ensures c != [] ==> !IsSpace(c[0])
  {
    var w := RunEnd(s, b, IsSpace);
    var e := LineEnd(s, w);
    assert LineSpan(s, b, w, e);
    s[w..e]
  }

  /** The two greedy runs leave no choice. */
  lemma LineSpanUnique(s: string, b: int, w: int, e: int, w': int, e': int)
    requires LineSpan(s, b, w, e) && LineSpan(s, b, w', e')
    ensures w == w' && e == e'
  {
  }

  /** There is one text `\s*(.*)` captures from `b`. */
  lemma RestOfLineUnique(s: string, b: int, c: string, d: string)
    requires RestOfLine(s, b, c) && RestOfLine(s, b, d)
    ensures c == d
  {
    var w, e :| LineSpan(s, b, w, e) && c == s[w..e];
    var w', e' :| LineSpan(s, b, w', e') && d == s[w'..e'];
    LineSpanUnique(s, b, w, e, w', e');
  }

  /**
   * `r` is what the first match of `/<key>\s*(.*)/i` captures: `None` when
   * the key occurs nowhere, and otherwise the rest of the line after its
   * first occurrence.
   */
  ghost predicate IsFirstLine(s: string, key: string, r: Option<string>) {
    && (r.None? <==> forall i | 0 <= i <= |s| :: !AtIgnoreCase(s, i, key))
    && (r.Some? ==> exists i | 0 <= i <= |s| :: FirstAt(s, i, key) && RestOfLine(s, i + |key|, r.value))
  }

  /** The first occurrence of `key` in `s` is at `i`. */
  predicate FirstAt(s: string, i: int, key: string) {
    AtIgnoreCase(s, i, key) && forall k | 0 <= k < i :: !AtIgnoreCase(s, k, key)
  }

  /** There is one first occurrence. */
  lemma FirstAtUnique(s: string, i: int, j: int, key: string)
    requires FirstAt(s, i, key) && FirstAt(s, j, key)
    ensures i == j
  {
  }

  /** The first occurrence of `key` at or after `k`, ignoring ASCII case. */
  function FirstLabel(s: string, key: string, k: nat): (r: Option<nat>)
    requires k <= |s| + 1
    ensures r.Some? ==> k <= r.value <= |s| && AtIgnoreCase(s, r.value, key)
    ensures r.Some? ==> forall j | k <= j < r.value :: !AtIgnoreCase(s, j, key)
    ensures r.None? ==> forall j | k <= j <= |s| :: !AtIgnoreCase(s, j, key)
    decreases |s| + 1 - k
  {
    if k > |s| then None
    else if AtIgnoreCase(s, k, key) then Some(k)
    else FirstLabel(s, key, k + 1)
  }

  /** `text.match(/<key>\s*(.*)/i)?.[1]`. */
  function FirstLine(s: string, key: string): (r: Option<string>)
    ensures r.Some? ==> OneLine(r.value)
  {
    var i := FirstLabel(s, key, 0);
    if i.None? then None else Some(LineCapture(s, i.value + |key|))
  }

  /** `FirstLine` gives what the first match captures. */
  lemma FirstLineSpec(s: string, key: string)
    ensures IsFirstLine(s, key, FirstLine(s, key))
  {
    var i := FirstLabel(s, key, 0);
    if i.Some? {
      assert FirstAt(s, i.value, key);
    }
  }

  /** The first match's capture is determined by the text. */
  lemma IsFirstLineUnique(s: string, key: string, r: Option<string>, q: Option<string>)
    requires IsFirstLine(s, key, r) && IsFirstLine(s, key, q)
    ensures r == q
  {
    if r.Some? && q.Some? {
      var i :| 0 <= i <= |s| && FirstAt(s, i, key) && RestOfLine(s, i + |key|, r.value);
      var j :| 0 <= j <= |s| && FirstAt(s, j, key) && RestOfLine(s, j + |key|, q.value);
      FirstAtUnique(s, i, j, key);
      RestOfLineUnique(s, i + |key|, r.value, q.value);
    }
  }

  /** `capture || fallback`: an absent or empty capture gives the fallback. */
  function OrElse(r: Option<string>, fallback: string): (v: string)
    ensures r.Some? && r.value != [] ==> v == r.value
    ensures r.None? || r.value == [] ==> v == fallback
  {
    if r.Some? && r.value != [] then r.value else fallback
  }

  /**
   * The field `match(/<key>\s*(.*)/i)?.[1] || fallback` falls back when
   * the key occurs nowhere or only white space follows its first
   * occurrence; otherwise it is a non-empty one-line text that starts with no
   * white space.
   */
  lemma FieldFallback(s: string, key: string, fallback: string)
    ensures var i, v := FirstLabel(s, key, 0), OrElse(FirstLine(s, key), fallback);
      var missing := i.None? || All(s, i.value + |key|, |s|, IsSpace);
      && (missing ==> v == fallback)
      && (!missing ==> v != [] && OneLine(v) && !IsSpace(v[0]))
  {
    var i := FirstLabel(s, key, 0);
    if i.Some? {
      CaptureOrElse(s, i.value + |key|, fallback);
    }
  }

  /** The capture from `b`, or the fallback when only white space follows. */
  lemma CaptureOrElse(s: string, b: nat, fallback: string)
    requires b <= |s|
    ensures var v := OrElse(Some(LineCapture(s, b)), fallback);
      && (All(s, b, |s|, IsSpace) ==> v == fallback)
      && (!All(s, b, |s|, IsSpace) ==> v != [] && OneLine(v) && !IsSpace(v[0]))
  {
  }
}
