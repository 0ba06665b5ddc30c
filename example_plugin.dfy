/**
 * The example plugin `run(html)`: the text of every `<td>…</td>` cell, in
 * document order, as `[...html.matchAll(/<td>(.*?)<\/td>/g)].map(m => m[1])`.
 */
module ExamplePlugin {
  import opened Wrappers
  import opened Text
  import opened Delimited

  /**
   * Each cell is found in the input between `<td>` and `</td>`, holds no
   * line terminator and no `</td>`, and there is none exactly when no
   * `<td>` is followed by a `</td>` on the same line. The tags are
   * case-sensitive and take no attributes.
   */
  function Run(html: string): (cells: seq<string>)
    ensures forall c :: c in cells ==> WellCaptured(html, c, "<td>", "</td>", false)
    ensures cells == [] <==> forall i | 0 <= i <= |html| :: !PairAt(html, i, "<td>", "</td>", false)
  {
    CapturesShape(html, 0, "<td>", "</td>", false);
    CapturesEmpty(html, "<td>", "</td>", false);
    Captures(html, 0, "<td>", "</td>", false)
  }

  /** `"<td>One</td><td>Two</td>"` gives `["One", "Two"]`. */
  lemma RunExample()
    ensures Run("<td>One</td><td>Two</td>") == ["One", "Two"]
  {
    var s := "<td>One</td><td>Two</td>";
    assert s[4..7] == "One" && s[16..19] == "Two";
    ExampleMatches();
    CapturesStep(s, 12, 12, 19, "<td>", "</td>", false);
    CapturesStep(s, 0, 0, 7, "<td>", "</td>", false);
  }

  /** The two matches of the example, and nothing after them. */
  lemma ExampleMatches()
    ensures var s := "<td>One</td><td>Two</td>";
      && MatchAt(s, 0, "<td>", "</td>", false) == Some(7)
      && MatchAt(s, 12, "<td>", "</td>", false) == Some(19)
      && Captures(s, 24, "<td>", "</td>", false) == []
  {
    ExampleFirstCell();
    ExampleSecondCell();
    CapturesDone("<td>One</td><td>Two</td>", 24, "<td>", "</td>", false);
  }

  lemma ExampleFirstCell()
    ensures MatchAt("<td>One</td><td>Two</td>", 0, "<td>", "</td>", false) == Some(7)
  {
    var s := "<td>One</td><td>Two</td>";
    assert s[0..4] == "<td>" && s[7..12] == "</td>";
    MatchAtFirst(s, 0, "<td>", 7, "</td>");
  }

  lemma ExampleSecondCell()
    ensures MatchAt("<td>One</td><td>Two</td>", 12, "<td>", "</td>", false) == Some(19)
  {
    var s := "<td>One</td><td>Two</td>";
    assert s[12..16] == "<td>" && s[19..24] == "</td>";
    MatchAtFirst(s, 12, "<td>", 19, "</td>");
  }
}
