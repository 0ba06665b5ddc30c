/**
 * The regular expression `<open>(.*?)<close>` for two literals, as
 * ECMAScript's backtracking matcher runs it.
 *
 * At a start index the literal `open` must match; then the lazy `.*?` tries
 * `close` after zero characters, then after one, and so on, consuming only
 * characters that are not line terminators (`.` without the `s` flag). The
 * first start index, from the left, at which this succeeds is the match.
 * `matchAll` with the `g` flag resumes after the end of each match, so the
 * matches are found left to right and do not overlap. With the `i` flag both
 * literals match ignoring ASCII case.
 *
 * The functions carry only the bounds their callers need; what they mean is
 * stated by the lemmas that follow them.
 */
module Delimited {
  import opened Wrappers
  import opened Text

  /** The literal `p` at index `i`, ignoring ASCII case when `ci`. */
  predicate LitAt(s: string, i: int, p: string, ci: bool) {
    if ci then AtIgnoreCase(s, i, p) else At(s, i, p)
  }

  lemma LitAtBounds(s: string, i: int, p: string, ci: bool)
    requires LitAt(s, i, p, ci)
    ensures 0 <= i && i + |p| <= |s|
  {
  }

  /** `s[k..m]` holds no line terminator, so `.*` can consume it. */
  predicate NoBreak(s: string, k: int, m: int) {
    0 <= k <= m <= |s| && forall t :: k <= t < m ==> !IsLineTerminator(s[t])
  }

  /**
   * `(.*?)<close>` from index `k`: the index at which `close` matches after
   * the fewest characters, none of them a line terminator.
   */
  function FirstClose(s: string, k: nat, close: string, ci: bool): (j: Option<nat>)
    requires k <= |s|
    ensures j.Some? ==> k <= j.value && LitAt(s, j.value, close, ci)
    decreases |s| - k
  {
    if LitAt(s, k, close, ci) then Some(k)
    else if k < |s| && !IsLineTerminator(s[k]) then FirstClose(s, k + 1, close, ci)
    else None
  }

  /**
   * `close` is found after characters that are not line terminators, and
   * no earlier index on that line, nor any index on it when none is found,
   * holds `close`.
   */
  lemma {:induction false} FirstCloseSpec(s: string, k: nat, close: string, ci: bool)
    requires k <= |s|
    ensures var j := FirstClose(s, k, close, ci);
      && (j.Some? ==> NoBreak(s, k, j.value))
      && forall m :: NoBreak(s, k, m) && (j.None? || m < j.value) ==> !LitAt(s, m, close, ci)
    decreases |s| - k
  {
    var j := FirstClose(s, k, close, ci);
    if LitAt(s, k, close, ci) {
    } else if k < |s| && !IsLineTerminator(s[k]) {
      FirstCloseSpec(s, k + 1, close, ci);
      forall m | NoBreak(s, k, m) && (j.None? || m < j.value) ensures !LitAt(s, m, close, ci) {
        if m > k {
          assert NoBreak(s, k + 1, m);
        }
      }
    } else {
      forall m | NoBreak(s, k, m) ensures !LitAt(s, m, close, ci) {
        assert m == k;
      }
    }
  }

  /** A match: the index where `open` starts and the index where `close` starts. */
  datatype Span = Span(start: nat, close: nat)

  /** The pattern matched at start index `i`: the index of its `close`. */
  function MatchAt(s: string, i: nat, open: string, close: string, ci: bool): (j: Option<nat>)
    requires i <= |s|
    ensures j.Some? ==> i + |open| <= j.value && j.value + |close| <= |s|
  {
    if LitAt(s, i, open, ci) then
      LitAtBounds(s, i, open, ci);
      var r := FirstClose(s, i + |open|, close, ci);
      if r.Some? then LitAtBounds(s, r.value, close, ci); r else r
    else None
  }

  /**
   * A match at `i` is `open`, then the fewest characters, none a line
   * terminator, before a `close`; without a match, either `open` is not at
   * `i` or no `close` follows on the same line.
   */
  lemma MatchAtSpec(s: string, i: nat, open: string, close: string, ci: bool)
    requires i <= |s|
    ensures var j := MatchAt(s, i, open, close, ci);
      && (j.Some? ==> LitAt(s, i, open, ci) && NoBreak(s, i + |open|, j.value) && LitAt(s, j.value, close, ci))
      && (j.Some? ==> forall m :: i + |open| <= m < j.value ==> !LitAt(s, m, close, ci))
      && (j.None? && LitAt(s, i, open, ci) ==> forall m :: NoBreak(s, i + |open|, m) ==> !LitAt(s, m, close, ci))
  {
    var j := MatchAt(s, i, open, close, ci);
    if LitAt(s, i, open, ci) {
      LitAtBounds(s, i, open, ci);
      FirstCloseSpec(s, i + |open|, close, ci);
    }
    if j.Some? {
      forall m | i + |open| <= m < j.value ensures !LitAt(s, m, close, ci) {
        assert NoBreak(s, i + |open|, m);
      }
    }
  }

  /** A well-formed span of `s` for the pattern: the slices it names exist. */
  predicate Fits(s: string, sp: Span, open: string, close: string) {
    sp.start + |open| <= sp.close && sp.close + |close| <= |s|
  }

  /** `exec` from `lastIndex = from`: the leftmost match starting at or after `from`. */
  function Leftmost(s: string, from: nat, open: string, close: string, ci: bool): (m: Option<Span>)
    requires from <= |s|
    ensures m.Some? ==> from <= m.value.start && Fits(s, m.value, open, close)
    decreases |s| - from
  {
    var j := MatchAt(s, from, open, close, ci);
    if j.Some? then Some(Span(from, j.value))
    else if from == |s| then None
    else Leftmost(s, from + 1, open, close, ci)
  }

  /** No match starts in `s[lo..hi]`. */
  predicate NoMatchIn(s: string, lo: int, hi: int, open: string, close: string, ci: bool) {
    forall i :: lo <= i < hi && 0 <= i <= |s| ==> MatchAt(s, i, open, close, ci).None?
  }

  /** The match `Leftmost` reports is a match. */
  lemma {:induction false} LeftmostFound(s: string, from: nat, open: string, close: string, ci: bool)
    requires from <= |s| && Leftmost(s, from, open, close, ci).Some?
    ensures var m := Leftmost(s, from, open, close, ci).value;
      MatchAt(s, m.start, open, close, ci) == Some(m.close)
    decreases |s| - from
  {
    if MatchAt(s, from, open, close, ci).None? {
      LeftmostFound(s, from + 1, open, close, ci);
    }
  }

  /** No match starts between `from` and what `Leftmost` reports. */
  lemma {:induction false} LeftmostNoEarlier(s: string, from: nat, i: nat, open: string, close: string, ci: bool)
    requires from <= i <= |s|
    requires Leftmost(s, from, open, close, ci).None? || i < Leftmost(s, from, open, close, ci).value.start
    ensures MatchAt(s, i, open, close, ci).None?
    decreases i - from
  {
    if i > from {
      LeftmostNoEarlier(s, from + 1, i, open, close, ci);
    }
  }

  /** `Leftmost` finds a match, and none starts before it; or there is none at all. */
  lemma LeftmostSpec(s: string, from: nat, open: string, close: string, ci: bool)
    requires from <= |s|
    ensures var m := Leftmost(s, from, open, close, ci);
      && (m.Some? ==> MatchAt(s, m.value.start, open, close, ci) == Some(m.value.close))
      && (m.Some? ==> NoMatchIn(s, from, m.value.start, open, close, ci))
      && (m.None? ==> NoMatchIn(s, from, |s| + 1, open, close, ci))
  {
    var m := Leftmost(s, from, open, close, ci);
    if m.Some? {
      LeftmostFound(s, from, open, close, ci);
    }
    forall i | from <= i <= |s| && (m.None? || i < m.value.start)
      ensures MatchAt(s, i, open, close, ci).None?
    {
      LeftmostNoEarlier(s, from, i, open, close, ci);
    }
  }

  /** The index at which `matchAll` resumes after the match `sp`. */
  function End(sp: Span, close: string): nat {
    sp.close + |close|
  }

  /**
   * `spans` is what `matchAll` finds from `from`: the leftmost match, then
   * what it finds from the end of that match, until no match is left.
   */
  predicate ScanOf(s: string, from: int, spans: seq<Span>, open: string, close: string, ci: bool)
    decreases |spans|
  {
    if spans == [] then NoMatchIn(s, from, |s| + 1, open, close, ci)
    else
      && from <= spans[0].start <= |s|
      && NoMatchIn(s, from, spans[0].start, open, close, ci)
      && MatchAt(s, spans[0].start, open, close, ci) == Some(spans[0].close)
      && ScanOf(s, End(spans[0], close), spans[1..], open, close, ci)
  }

  /** The spans of all matches `matchAll` finds from `from`. */
  function Scan(s: string, from: nat, open: string, close: string, ci: bool): (spans: seq<Span>)
    requires from <= |s| && open != []
    decreases |s| - from
  {
    var m := Leftmost(s, from, open, close, ci);
    if m.None? then [] else [m.value] + Scan(s, End(m.value, close), open, close, ci)
  }

  /** `Scan` computes the matches `matchAll` reports. */
  lemma {:induction false} ScanSpec(s: string, from: nat, open: string, close: string, ci: bool)
    requires from <= |s| && open != []
    ensures ScanOf(s, from, Scan(s, from, open, close, ci), open, close, ci)
    decreases |s| - from
  {
    LeftmostSpec(s, from, open, close, ci);
    var m := Leftmost(s, from, open, close, ci);
    if m.Some? {
      var sp := m.value;
      var rest := Scan(s, End(sp, close), open, close, ci);
      ScanSpec(s, End(sp, close), open, close, ci);
      assert ([sp] + rest)[1..] == rest;
    }
  }

  /** The matches `matchAll` reports are determined by the input. */
  lemma {:induction false} ScanOfUnique(s: string, from: int, a: seq<Span>, b: seq<Span>, open: string, close: string, ci: bool)
    requires ScanOf(s, from, a, open, close, ci) && ScanOf(s, from, b, open, close, ci)
    ensures a == b
    decreases |a|
  {
    if a != [] && b != [] && a[0].start == b[0].start {
      ScanOfUnique(s, End(a[0], close), a[1..], b[1..], open, close, ci);
      assert a == [a[0]] + a[1..];
      assert b == [b[0]] + b[1..];
    }
  }

  /** Every reported span is a match, and each starts at or after the end of the one before. */
  lemma {:induction false} ScanOfSpans(s: string, from: int, spans: seq<Span>, open: string, close: string, ci: bool)
    requires ScanOf(s, from, spans, open, close, ci)
    ensures forall k :: 0 <= k < |spans| ==> from <= spans[k].start <= |s| && MatchAt(s, spans[k].start, open, close, ci) == Some(spans[k].close)
    ensures forall k :: 0 < k < |spans| ==> End(spans[k - 1], close) <= spans[k].start
    decreases |spans|
  {
    if spans != [] {
      var rest := spans[1..];
      ScanOfSpans(s, End(spans[0], close), rest, open, close, ci);
      assert forall k :: 0 < k < |spans| ==> spans[k] == rest[k - 1];
    }
  }

  /** The text between `open` and `close` of the match `sp`. */
  function Inner(s: string, sp: Span, open: string, close: string): string
    requires Fits(s, sp, open, close)
  {
    s[sp.start + |open|..sp.close]
  }

  /** `[...s.matchAll(re)].map(m => m[1])` from `lastIndex = from`. */
  function Captures(s: string, from: nat, open: string, close: string, ci: bool): (caps: seq<string>)
    requires from <= |s| && open != []
    decreases |s| - from
  {
    var m := Leftmost(s, from, open, close, ci);
    if m.None? then [] else [Inner(s, m.value, open, close)] + Captures(s, End(m.value, close), open, close, ci)
  }

  /** The captures are the inner texts of the spans `matchAll` finds, in the same order. */
  lemma {:induction false} CapturesAreScan(s: string, from: nat, open: string, close: string, ci: bool)
    requires from <= |s| && open != []
    ensures var spans := Scan(s, from, open, close, ci);
      var caps := Captures(s, from, open, close, ci);
      && |caps| == |spans|
      && forall k :: 0 <= k < |spans| ==> Fits(s, spans[k], open, close) && caps[k] == Inner(s, spans[k], open, close)
    decreases |s| - from
  {
    var m := Leftmost(s, from, open, close, ci);
    if m.Some? {
      CapturesAreScan(s, End(m.value, close), open, close, ci);
    }
  }

  /** `s.match(re)?.[1]` without the `g` flag: the capture of the leftmost match. */
  function FirstCapture(s: string, open: string, close: string, ci: bool): (c: Option<string>)
    requires open != []
    ensures IsFirstCapture(s, c, open, close, ci)
  {
    var m := Leftmost(s, 0, open, close, ci);
    if m.None? then
      LeftmostNone(s, open, close, ci);
      None
    else
      LeftmostCaptured(s, open, close, ci);
      Some(Inner(s, m.value, open, close))
  }

  /** The first capture is the first of all captures, and there is one exactly when some match exists. */
  lemma FirstCaptureSpec(s: string, open: string, close: string, ci: bool)
    requires open != []
    ensures FirstCapture(s, open, close, ci).None? <==> Captures(s, 0, open, close, ci) == []
    ensures FirstCapture(s, open, close, ci).Some? ==> FirstCapture(s, open, close, ci).value == Captures(s, 0, open, close, ci)[0]
  {
  }

  lemma LitAtSlice(s: string, b: int, e: int, m: int, p: string, ci: bool)
    requires 0 <= b <= e <= |s| && 0 <= m && m + |p| <= e - b
    ensures LitAt(s[b..e], m, p, ci) <==> LitAt(s, b + m, p, ci)
  {
    var x, y := s[b..e][m..m + |p|], s[b + m..b + m + |p|];
    forall t | 0 <= t < |p| ensures x[t] == y[t] {
    }
    assert x == y;
  }

  /**
   * What a capture `c` of `s` is: free of line terminators and of `close`,
   * and, for a case-sensitive pattern, found in `s` between `open` and `close`.
   */
  predicate WellCaptured(s: string, c: string, open: string, close: string, ci: bool) {
    && (forall t :: 0 <= t < |c| ==> !IsLineTerminator(c[t]))
    && (forall m :: 0 <= m && m + |close| <= |c| ==> !LitAt(c, m, close, ci))
    && (!ci ==> Contains(s, open + c + close))
  }

  lemma Wrapped(s: string, i: nat, j: nat, open: string, c: string, close: string)
    requires At(s, i, open) && At(s, j, close) && i + |open| <= j && c == s[i + |open|..j]
    ensures At(s, i, open + c + close)
  {
    assert s[i..i + |open|] == open;
    assert s[j..j + |close|] == close;
    assert s[i..j + |close|] == s[i..i + |open|] + s[i + |open|..j] + s[j..j + |close|];
  }

  /** The text the match at `i` captures is well captured. */
  lemma {:induction false} InnerShape(s: string, i: nat, j: nat, open: string, close: string, ci: bool)
    requires i <= |s| && close != [] && MatchAt(s, i, open, close, ci) == Some(j)
    ensures WellCaptured(s, s[i + |open|..j], open, close, ci)
  {
    MatchAtSpec(s, i, open, close, ci);
    var b := i + |open|;
    var c := s[b..j];
    forall m | 0 <= m && m + |close| <= |c| ensures !LitAt(c, m, close, ci) {
      LitAtSlice(s, b, j, m, close, ci);
    }
    if !ci {
      Wrapped(s, i, j, open, c, close);
    }
  }

  /** Every capture is well captured. */
  lemma {:induction false} CapturesShape(s: string, from: nat, open: string, close: string, ci: bool)
    requires from <= |s| && open != [] && close != []
    ensures forall c :: c in Captures(s, from, open, close, ci) ==> WellCaptured(s, c, open, close, ci)
    decreases |s| - from
  {
    var m := Leftmost(s, from, open, close, ci);
    if m.Some? {
      var sp := m.value;
      LeftmostFound(s, from, open, close, ci);
      InnerShape(s, sp.start, sp.close, open, close, ci);
      CapturesShape(s, End(sp, close), open, close, ci);
    }
  }

  /**
   * The pattern can match at `i`: `open` there and, later on the same line,
   * a `close`. This says nothing about which `close` the lazy `.*?` picks.
   */
  predicate PairAt(s: string, i: nat, open: string, close: string, ci: bool) {
    LitAt(s, i, open, ci) && exists j | i + |open| <= j <= |s| :: NoBreak(s, i + |open|, j) && LitAt(s, j, close, ci)
  }

  /** The lazy matcher succeeds at `i` exactly when a pair starts there. */
  lemma MatchAtIffPair(s: string, i: nat, open: string, close: string, ci: bool)
    requires i <= |s|
    ensures MatchAt(s, i, open, close, ci).Some? <==> PairAt(s, i, open, close, ci)
  {
    MatchAtSpec(s, i, open, close, ci);
    if LitAt(s, i, open, ci) {
      LitAtBounds(s, i, open, ci);
    }
  }

  /** No capture at all exactly when no pair exists anywhere in the input. */
  lemma CapturesEmpty(s: string, open: string, close: string, ci: bool)
    requires open != []
    ensures Captures(s, 0, open, close, ci) == [] <==> forall i | 0 <= i <= |s| :: !PairAt(s, i, open, close, ci)
  {
    LeftmostSpec(s, 0, open, close, ci);
    forall i | 0 <= i <= |s| {
      MatchAtIffPair(s, i, open, close, ci);
    }
  }

  /** `s[i + d] != p[d]` for some `d`, so `p` does not occur at `i`. */
  lemma NotAt(s: string, i: nat, p: string, d: nat)
    requires d < |p| && (i + d < |s| ==> s[i + d] != p[d])
    ensures !At(s, i, p)
  {
  }

  /** `p` cannot occur at an index whose character is not the first of `p`. */
  lemma NotAtRange(s: string, lo: nat, hi: nat, p: string)
    requires p != [] && lo <= hi <= |s|
    requires forall m :: lo <= m < hi ==> s[m] != p[0]
    ensures forall m :: lo <= m < hi ==> !At(s, m, p)
  {
    forall m | lo <= m < hi ensures !At(s, m, p) {
      NotAt(s, m, p, 0);
    }
  }

  /** `close` first occurs at `j` on a line that runs on from `k` (case-sensitive). */
  lemma {:induction false} FirstCloseAt(s: string, k: nat, j: nat, close: string)
    requires k <= j <= |s| && At(s, j, close)
    requires NoBreak(s, k, j) && forall m :: k <= m < j ==> !At(s, m, close)
    ensures FirstClose(s, k, close, false) == Some(j)
    decreases j - k
  {
    if k < j {
      FirstCloseAt(s, k + 1, j, close);
    }
  }

  /** With no match from `from` up to `i`, and one at `i`, `Leftmost` reports the one at `i`. */
  lemma {:induction false} LeftmostAt(s: string, from: nat, i: nat, j: nat, open: string, close: string, ci: bool)
    requires from <= i <= |s| && NoMatchIn(s, from, i, open, close, ci)
    requires MatchAt(s, i, open, close, ci) == Some(j)
    ensures Leftmost(s, from, open, close, ci) == Some(Span(i, j))
    decreases i - from
  {
    if from < i {
      LeftmostAt(s, from + 1, i, j, open, close, ci);
    }
  }

  /** One step of `matchAll`: the capture of the match at `i`, then the rest. */
  lemma CapturesStep(s: string, from: nat, i: nat, j: nat, open: string, close: string, ci: bool)
    requires from <= i <= |s| && open != [] && NoMatchIn(s, from, i, open, close, ci)
    requires MatchAt(s, i, open, close, ci) == Some(j)
    ensures Captures(s, from, open, close, ci) == [s[i + |open|..j]] + Captures(s, j + |close|, open, close, ci)
  {
    LeftmostAt(s, from, i, j, open, close, ci);
    assert End(Span(i, j), close) == j + |close|;
  }

  /** Without a match from `from` on, `matchAll` reports nothing more. */
  lemma CapturesDone(s: string, from: nat, open: string, close: string, ci: bool)
    requires from <= |s| && open != [] && NoMatchIn(s, from, |s| + 1, open, close, ci)
    ensures Captures(s, from, open, close, ci) == []
  {
    if Leftmost(s, from, open, close, ci).Some? {
      LeftmostFound(s, from, open, close, ci);
    }
  }

  /** `open` at `i`, then a stretch of one line without `close`, then `close` at `j`: the match at `i` ends at `j`. */
  lemma MatchAtClose(s: string, i: nat, open: string, j: nat, close: string)
    requires At(s, i, open) && i + |open| <= j && At(s, j, close)
    requires NoBreak(s, i + |open|, j) && forall m :: i + |open| <= m < j ==> !At(s, m, close)
    ensures MatchAt(s, i, open, close, false) == Some(j)
  {
    FirstCloseAt(s, i + |open|, j, close);
  }

  /** As `MatchAtClose`, for a stretch without even the first character of `close`. */
  lemma MatchAtFirst(s: string, i: nat, open: string, j: nat, close: string)
    requires close != [] && At(s, i, open) && i + |open| <= j && At(s, j, close)
    requires forall m :: i + |open| <= m < j ==> s[m] != close[0] && !IsLineTerminator(s[m])
    ensures MatchAt(s, i, open, close, false) == Some(j)
  {
    forall m | i + |open| <= m < j ensures !At(s, m, close) {
      NotAt(s, m, close, 0);
    }
    MatchAtClose(s, i, open, j, close);
  }

  /** With no match between `from` and `to`, `matchAll` from `from` reports what it reports from `to`. */
  lemma {:induction false} CapturesSkip(s: string, from: nat, to: nat, open: string, close: string, ci: bool)
    requires from <= to <= |s| && open != [] && NoMatchIn(s, from, to, open, close, ci)
    ensures Captures(s, from, open, close, ci) == Captures(s, to, open, close, ci)
    decreases |s| - from
  {
    if from < to {
      assert Leftmost(s, from, open, close, ci) == Leftmost(s, from + 1, open, close, ci);
      CapturesSkip(s, from + 1, to, open, close, ci);
    }
  }

  /**
   * `open` at `i`, then `c` and `close`, where `c` is one line and `close`
   * does not start inside `c`: the match at `i` captures `c`.
   */
  lemma MatchAtEnclosing(s: string, i: nat, open: string, c: string, close: string)
    requires At(s, i, open) && At(s, i + |open|, c + close)
    requires forall t :: 0 <= t < |c| ==> !IsLineTerminator(c[t])
    requires forall m :: 0 <= m < |c| ==> !At(c + close, m, close)
    ensures MatchAt(s, i, open, close, false) == Some(i + |open| + |c|)
    ensures s[i + |open|..i + |open| + |c|] == c
  {
    var b := i + |open|;
    var j := b + |c|;
    forall m | b <= m < j ensures !At(s, m, close) {
      AtWithin(s, b, c + close, m - b, close);
    }
    AtWithin(s, b, c + close, |c|, close);
    assert (c + close)[|c|..|c| + |close|] == close;
    forall t | b <= t < j ensures !IsLineTerminator(s[t]) {
      assert s[t] == s[b..b + |c + close|][t - b] == (c + close)[t - b] == c[t - b];
    }
    AtWithin(s, b, c + close, 0, c);
    assert (c + close)[0..|c|] == c;
    MatchAtClose(s, i, open, j, close);
  }

  /**
   * `c` is what the match at `i` captures: `open` at `i`, then `c` on one
   * line, then `close`, which does not start anywhere earlier after `open`.
   */
  predicate CapturedAt(s: string, i: int, c: string, open: string, close: string, ci: bool) {
    var b := i + |open|;
    && LitAt(s, i, open, ci) && b + |c| <= |s| && s[b..b + |c|] == c
    && NoBreak(s, b, b + |c|) && LitAt(s, b + |c|, close, ci)
    && forall m :: b <= m < b + |c| ==> !LitAt(s, m, close, ci)
  }

  /** `s.match(re)?.[1]` as a property: the capture of the leftmost place where a pair starts, if any. */
  predicate IsFirstCapture(s: string, c: Option<string>, open: string, close: string, ci: bool) {
    && (c.None? <==> forall i | 0 <= i <= |s| :: !PairAt(s, i, open, close, ci))
    && (c.Some? ==> exists i | 0 <= i <= |s| ::
          && CapturedAt(s, i, c.value, open, close, ci)
          && forall k | 0 <= k < i :: !PairAt(s, k, open, close, ci))
  }

  lemma LeftmostNone(s: string, open: string, close: string, ci: bool)
    requires Leftmost(s, 0, open, close, ci).None?
    ensures IsFirstCapture(s, None, open, close, ci)
  {
    LeftmostSpec(s, 0, open, close, ci);
    NoMatchNoPair(s, 0, |s| + 1, open, close, ci);
  }

  lemma LeftmostCaptured(s: string, open: string, close: string, ci: bool)
    requires Leftmost(s, 0, open, close, ci).Some?
    ensures IsFirstCapture(s, Some(Inner(s, Leftmost(s, 0, open, close, ci).value, open, close)), open, close, ci)
  {
    var sp := Leftmost(s, 0, open, close, ci).value;
    LeftmostSpec(s, 0, open, close, ci);
    FirstMatchCaptured(s, sp.start, sp.close, open, close, ci);
  }

  /** The match at `i`, with none before it, makes its capture the first. */
  lemma FirstMatchCaptured(s: string, i: nat, j: nat, open: string, close: string, ci: bool)
    requires i <= |s| && NoMatchIn(s, 0, i, open, close, ci) && MatchAt(s, i, open, close, ci) == Some(j)
    ensures IsFirstCapture(s, Some(s[i + |open|..j]), open, close, ci)
  {
    NoMatchNoPair(s, 0, i, open, close, ci);
    MatchAtIffPair(s, i, open, close, ci);
    MatchAtSpec(s, i, open, close, ci);
    assert CapturedAt(s, i, s[i + |open|..j], open, close, ci);
  }

  lemma NoMatchNoPair(s: string, lo: int, hi: int, open: string, close: string, ci: bool)
    requires NoMatchIn(s, lo, hi, open, close, ci)
    ensures forall i | lo <= i < hi && 0 <= i <= |s| :: !PairAt(s, i, open, close, ci)
  {
    forall i | lo <= i < hi && 0 <= i <= |s| ensures !PairAt(s, i, open, close, ci) {
      MatchAtIffPair(s, i, open, close, ci);
    }
  }

  /** At most one capture is first: the property determines the result. */
  lemma FirstCaptureUnique(s: string, c: Option<string>, d: Option<string>, open: string, close: string, ci: bool)
    requires IsFirstCapture(s, c, open, close, ci) && IsFirstCapture(s, d, open, close, ci)
    ensures c == d
  {
    if c.Some? && d.Some? {
      var i :| 0 <= i <= |s| && CapturedAt(s, i, c.value, open, close, ci) && forall k | 0 <= k < i :: !PairAt(s, k, open, close, ci);
      var i' :| 0 <= i' <= |s| && CapturedAt(s, i', d.value, open, close, ci) && forall k | 0 <= k < i' :: !PairAt(s, k, open, close, ci);
      CapturedPair(s, i, c.value, open, close, ci);
      CapturedPair(s, i', d.value, open, close, ci);
      assert i == i';
      CapturedAtUnique(s, i, c.value, d.value, open, close, ci);
    }
  }

  lemma CapturedPair(s: string, i: nat, c: string, open: string, close: string, ci: bool)
    requires CapturedAt(s, i, c, open, close, ci)
    ensures PairAt(s, i, open, close, ci)
  {
    assert NoBreak(s, i + |open|, i + |open| + |c|);
  }

  /** The lazy `.*?` leaves no choice: one capture per start index. */
  lemma CapturedAtUnique(s: string, i: nat, c: string, d: string, open: string, close: string, ci: bool)
    requires CapturedAt(s, i, c, open, close, ci) && CapturedAt(s, i, d, open, close, ci)
    ensures c == d
  {
  }
}
