/**
 * The string operations of ECMAScript that the scripts and services rely on:
 * the character classes of regular expressions (`.`, `\s`, `\d`, `\w`),
 * `trim`, `startsWith`/`endsWith`/`includes`, `split` on one character,
 * `join`, ASCII case folding and the decimal rendering of integers.
 */
module Text {

  /** The characters `.` refuses to match: ECMAScript LineTerminator. */
  predicate IsLineTerminator(c: char) {
    c == '\n' || c == '\r' || c == '\U{2028}' || c == '\U{2029}'
  }

  /** ECMAScript WhiteSpace or LineTerminator: what `\s` matches and `trim` strips. */
  predicate IsSpace(c: char) {
    || c == '\t' || c == '\U{B}' || c == '\U{C}' || c == ' ' || c == '\U{A0}' || c == '\U{FEFF}'
    || c == '\U{1680}' || ('\U{2000}' <= c <= '\U{200A}') || c == '\U{202F}' || c == '\U{205F}'
    || c == '\U{3000}'
    || IsLineTerminator(c)
  }

  predicate IsDigit(c: char) {
    '0' <= c <= '9'
  }

  predicate IsAsciiLetter(c: char) {
    ('a' <= c <= 'z') || ('A' <= c <= 'Z')
  }

  /** `\w` of a regular expression without the `u` flag. */
  predicate IsWordChar(c: char) {
    IsAsciiLetter(c) || IsDigit(c) || c == '_'
  }

  /** `[\w.-]`: the host characters of the URL pattern and the name characters of the e-mail pattern. */
  predicate IsWordDotDash(c: char) {
    IsWordChar(c) || c == '.' || c == '-'
  }

  function ToLowerChar(c: char): (r: char)
    ensures 'A' <= c <= 'Z' ==> 'a' <= r <= 'z'
    ensures !('A' <= c <= 'Z') ==> r == c
  {
    if 'A' <= c <= 'Z' then (c as int + 32) as char else c
  }

  /** `toLowerCase`, restricted to ASCII letters. */
  function Lower(s: string): (r: string)
    ensures |r| == |s|
    ensures forall i :: 0 <= i < |s| ==> r[i] == ToLowerChar(s[i])
  {
    seq(|s|, i requires 0 <= i < |s| => ToLowerChar(s[i]))
  }

  /** `p` occurs in `s` at index `i`. */
  predicate At(s: string, i: int, p: string) {
    0 <= i && i + |p| <= |s| && s[i..i + |p|] == p
  }

  /**
   * `p` occurs in `s` at index `i` ignoring ASCII case, as a pattern made of
   * ASCII characters matches under the `i` flag without the `u` flag.
   */
  predicate AtIgnoreCase(s: string, i: int, p: string) {
    0 <= i && i + |p| <= |s| && forall t :: 0 <= t < |p| ==> ToLowerChar(s[i + t]) == ToLowerChar(p[t])
  }

  lemma AtConcat(a: string, p: string, b: string)
    ensures At(a + p + b, |a|, p)
  {
    assert (a + p + b)[|a|..|a| + |p|] == p;
  }

  /** An occurrence inside an occurrence of `y` at `k`. */
  lemma AtWithin(s: string, k: int, y: string, m: int, p: string)
    requires At(s, k, y) && 0 <= m && m + |p| <= |y|
    ensures At(s, k + m, p) <==> At(y, m, p)
  {
    var a, b := s[k + m..k + m + |p|], y[m..m + |p|];
    forall t | 0 <= t < |p| ensures a[t] == b[t] {
      assert s[k..k + |y|][m + t] == y[m + t];
    }
    assert a == b;
  }

  predicate StartsWith(s: string, p: string) {
    At(s, 0, p)
  }

  predicate EndsWith(s: string, p: string) {
    |p| <= |s| && s[|s| - |p|..] == p
  }

  /** `s.includes(p)`. */
  predicate Contains(s: string, p: string) {
    exists i | 0 <= i <= |s| :: At(s, i, p)
  }

  predicate ContainsIgnoreCase(s: string, p: string) {
    exists i | 0 <= i <= |s| :: AtIgnoreCase(s, i, p)
  }

  /** Every character of `s[lo..hi]` satisfies `P`. */
  predicate All(s: string, lo: int, hi: int, P: char -> bool) {
    0 <= lo <= hi <= |s| && forall k :: lo <= k < hi ==> P(s[k])
  }

  /** The end of the longest run of characters satisfying `P` that starts at `i`. */
  function RunEnd(s: string, i: nat, P: char -> bool): (e: nat)
    requires i <= |s|
    ensures i <= e <= |s|
    ensures All(s, i, e, P)
    ensures e < |s| ==> !P(s[e])
    decreases |s| - i
  {
    if i < |s| && P(s[i]) then RunEnd(s, i + 1, P) else i
  }

  /** The index of the first line terminator at or after `i`, or `|s|`. */
  function LineEnd(s: string, i: nat): (e: nat)
    requires i <= |s|
    ensures i <= e <= |s|
    ensures forall k :: i <= k < e ==> !IsLineTerminator(s[k])
    ensures e < |s| ==> IsLineTerminator(s[e])
  {
    RunEnd(s, i, c => !IsLineTerminator(c))
  }

  /** The start of the longest run of characters satisfying `P` that ends at `j` and starts at or after `lo`. */
  function RunStart(s: string, lo: nat, j: nat, P: char -> bool): (b: nat)
    requires lo <= j <= |s|
    ensures lo <= b <= j
    ensures All(s, b, j, P)
    ensures b > lo ==> !P(s[b - 1])
    decreases j
  {
    if j > lo && P(s[j - 1]) then RunStart(s, lo, j - 1, P) else j
  }

  /** `s.trim()`: a substring of `s` with no white space at either end. */
  function Trim(s: string): (r: string)
    ensures r == [] || (!IsSpace(r[0]) && !IsSpace(r[|r| - 1]))
    ensures exists i :: At(s, i, r)
    ensures r == [] <==> forall k :: 0 <= k < |s| ==> IsSpace(s[k])
    ensures exists a, b :: 0 <= a <= b <= |s| && r == s[a..b] && All(s, 0, a, IsSpace) && All(s, b, |s|, IsSpace)
  {
    var a := RunEnd(s, 0, IsSpace);
    var b := RunStart(s, a, |s|, IsSpace);
    assert At(s, a, s[a..b]);
    assert All(s, 0, a, IsSpace) && All(s, b, |s|, IsSpace);
    s[a..b]
  }

  /** The index of the first `c` in `s`, or `|s|`. */
  function IndexOf(s: string, c: char): (i: nat)
    ensures i <= |s|
    ensures forall k :: 0 <= k < i ==> s[k] != c
    ensures i < |s| ==> s[i] == c
  {
    RunEnd(s, 0, x => x != c)
  }

  /** `s.split(c)` for a one-character separator. */
  function Split(s: string, c: char): (parts: seq<string>)
    ensures |parts| >= 1
    ensures forall p :: p in parts ==> c !in p
    decreases |s|
  {
    var i := IndexOf(s, c);
    if i == |s| then [s] else [s[..i]] + Split(s[i + 1..], c)
  }

  /** `parts.join(sep)`. */
  function Join(parts: seq<string>, sep: string): string {
    if |parts| == 0 then []
    else if |parts| == 1 then parts[0]
    else parts[0] + sep + Join(parts[1..], sep)
  }

  /** Splitting on a character and joining with it gives back the string. */
  lemma {:induction false} JoinSplit(s: string, c: char)
    ensures Join(Split(s, c), [c]) == s
    decreases |s|
  {
    var i := IndexOf(s, c);
    if i < |s| {
      JoinSplit(s[i + 1..], c);
      assert s == s[..i] + [c] + s[i + 1..];
    }
  }

  /** Joining parts that do not contain the separator and splitting again gives back the parts. */
  lemma {:induction false} SplitJoin(parts: seq<string>, c: char)
    requires |parts| >= 1
    requires forall p :: p in parts ==> c !in p
    ensures Split(Join(parts, [c]), c) == parts
    decreases |parts|
  {
    if |parts| == 1 {
      assert parts[0] in parts;
      assert forall k :: 0 <= k < |parts[0]| ==> parts[0][k] != c;
      assert IndexOf(parts[0], c) == |parts[0]|;
    } else {
      var s := Join(parts, [c]);
      var p := parts[0];
      var rest := Join(parts[1..], [c]);
      assert s == p + [c] + rest;
      assert IndexOf(s, c) == |p| by {
        assert forall k :: 0 <= k < |p| ==> s[k] == p[k];
        assert s[|p|] == c;
        assert c !in p;
      }
      assert s[|p| + 1..] == rest;
      assert s[..|p|] == p;
      SplitJoin(parts[1..], c);
    }
  }

  function DigitChar(d: nat): (c: char)
    requires d < 10
    ensures IsDigit(c)
  {
    ('0' as int + d) as char
  }

  /** The decimal rendering JavaScript gives a non-negative integer. */
  function NatToString(n: nat): (s: string)
    ensures |s| >= 1
    ensures forall k :: 0 <= k < |s| ==> IsDigit(s[k])
    ensures n >= 10 ==> |s| >= 2
  {
    if n < 10 then [DigitChar(n)] else NatToString(n / 10) + [DigitChar(n % 10)]
  }

  /** Different numbers have different renderings. */
  lemma {:induction false} NatToStringInjective(m: nat, n: nat)
    requires NatToString(m) == NatToString(n)
    ensures m == n
  {
    var sm, sn := NatToString(m), NatToString(n);
    if m < 10 && n < 10 {
      assert sm[0] == DigitChar(m) && sn[0] == DigitChar(n);
    } else if m >= 10 && n >= 10 {
      assert sm[|sm| - 1] == DigitChar(m % 10);
      assert sn[|sn| - 1] == DigitChar(n % 10);
      assert sm[..|sm| - 1] == NatToString(m / 10);
      assert sn[..|sn| - 1] == NatToString(n / 10);
      NatToStringInjective(m / 10, n / 10);
    }
  }

  /** The decimal rendering JavaScript gives an integer. */
  function IntToString(i: int): (s: string)
    ensures |s| >= 1
    ensures forall k :: 0 <= k < |s| ==> IsDigit(s[k]) || (k == 0 && s[k] == '-')
  {
    if i < 0 then "-" + NatToString(-i) else NatToString(i)
  }

  /** Different integers have different renderings: the sign shows in the first character. */
  lemma IntToStringInjective(m: int, n: int)
    requires IntToString(m) == IntToString(n)
    ensures m == n
  {
    var sm, sn := IntToString(m), IntToString(n);
    assert (sm[0] == '-') == (m < 0) && (sn[0] == '-') == (n < 0);
    if m < 0 {
      assert sm[1..] == NatToString(-m) && sn[1..] == NatToString(-n);
      NatToStringInjective(-m, -n);
    } else {
      NatToStringInjective(m, n);
    }
  }
}
