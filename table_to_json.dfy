/**
 * The table-to-json plugin `run(html)`: every `<tr>…</tr>` row of the
 * input, in document order, becomes an object whose keys `col1`, `col2`, …
 * number the row's `<td>…</td>` cells and whose values are the cells' text.
 * Rows and cells are found with the lazy patterns `/<tr>(.*?)<\/tr>/g` and
 * `/<td>(.*?)<\/td>/g`.
 */
module TableToJson {
  import opened Wrappers
  import opened Text
  import opened Records
  import opened Delimited

  /** `` `col${i + 1}` ``: the key of the cell at index `i`. */
  function ColumnKey(i: nat): string {
    "col" + NatToString(i + 1)
  }

  /** `cells.map((val, i) => [`col${i+1}`, val])`. */
  function Numbered(cells: seq<string>): (es: Entries<string>)
    ensures |es| == |cells|
  {
    seq(|cells|, i requires 0 <= i < |cells| => (ColumnKey(i), cells[i]))
  }

  /** The cells of one row. */
  function Cells(row: string): seq<string> {
    Captures(row, 0, "<td>", "</td>", false)
  }

  /** The rows of the input. */
  function Rows(html: string): seq<string> {
    Captures(html, 0, "<tr>", "</tr>", false)
  }

  /** `Object.fromEntries(...)` for one row. */
  function RowObject(row: string): Entries<string> {
    FromEntries(Numbered(Cells(row)))
  }

  /** `run(html)`: one object per row, in order. */
  function Run(html: string): (objs: seq<Entries<string>>)
    ensures |objs| == |Rows(html)|
  {
    var rows := Rows(html);
    seq(|rows|, k requires 0 <= k < |rows| => RowObject(rows[k]))
  }

  /** Different cell indexes give different keys. */
  lemma ColumnKeyInjective(i: nat, j: nat)
    requires ColumnKey(i) == ColumnKey(j)
    ensures i == j
  {
    var a, b := NatToString(i + 1), NatToString(j + 1);
    assert a == ColumnKey(i)[3..] && b == ColumnKey(j)[3..];
    NatToStringInjective(i + 1, j + 1);
  }

  /**
   * The object of a row has one entry per cell, in cell order, keyed
   * `col1`, `col2`, …: no key repeats, so `Object.fromEntries` drops
   * nothing and a cell that is empty or equal to another is kept.
   */
  lemma RowObjectSpec(row: string)
    ensures |RowObject(row)| == |Cells(row)|
    ensures forall i :: 0 <= i < |Cells(row)| ==> RowObject(row)[i] == (ColumnKey(i), Cells(row)[i])
  {
    var es := Numbered(Cells(row));
    forall i, j | 0 <= i < j < |es| ensures es[i].0 != es[j].0 {
      if es[i].0 == es[j].0 {
        ColumnKeyInjective(i, j);
      }
    }
    FromEntriesDistinct(es);
  }

  /**
   * The output has one object per row match; every value is the text of a
   * cell, found in its row between `<td>` and `</td>`, and every row is
   * found in the input between `<tr>` and `</tr>`; neither holds a line
   * break or its closing tag.
   */
  lemma RunSpec(html: string)
    ensures |Run(html)| == |Rows(html)|
    ensures forall k :: 0 <= k < |Rows(html)| ==>
      && WellCaptured(html, Rows(html)[k], "<tr>", "</tr>", false)
      && |Run(html)[k]| == |Cells(Rows(html)[k])|
      && forall i :: 0 <= i < |Run(html)[k]| ==>
           && Run(html)[k][i].0 == ColumnKey(i)
           && WellCaptured(Rows(html)[k], Run(html)[k][i].1, "<td>", "</td>", false)
  {
    var rows := Rows(html);
    CapturesShape(html, 0, "<tr>", "</tr>", false);
    forall k | 0 <= k < |rows|
      ensures && |Run(html)[k]| == |Cells(rows[k])|
              && forall i :: 0 <= i < |Run(html)[k]| ==>
                   Run(html)[k][i].0 == ColumnKey(i) && WellCaptured(rows[k], Run(html)[k][i].1, "<td>", "</td>", false)
    {
      RowObjectSpec(rows[k]);
      CapturesShape(rows[k], 0, "<td>", "</td>", false);
      assert forall i :: 0 <= i < |Cells(rows[k])| ==> Cells(rows[k])[i] in Cells(rows[k]);
    }
  }
}
