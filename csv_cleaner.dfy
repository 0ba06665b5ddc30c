/**
 * The csv-cleaner plugin `run(text)`: the text is cut into lines on
 * `/\r?\n/`, blank lines are dropped, the first remaining line gives the
 * header keys (trimmed, lower-cased) and every later line becomes an object
 * built with `Object.fromEntries`, cell `i` under header `i`. Commas always
 * split: quotes are not recognised. With no non-blank line, reading
 * `lines[0].split` throws.
 */
module CsvCleaner {
  import opened Wrappers
  import opened Text
  import opened Records

  /** A line without its final `\r`, when it has one. */
  function DropCr(l: string): (r: string)
    ensures r == l || (l == r + "\r")
  {
    if l != [] && l[|l| - 1] == '\r' then l[..|l| - 1] else l
  }

  /**
   * `text.split(/\r?\n/)`: the pieces between `\n` characters, each but the
   * last losing the `\r` that the match takes with its `\n`.
   */
  function SplitLines(text: string): (lines: seq<string>)
    ensures |lines| == |Split(text, '\n')|
  {
    var parts := Split(text, '\n');
    seq(|parts|, i requires 0 <= i < |parts| => if i < |parts| - 1 then DropCr(parts[i]) else parts[i])
  }

  /** No line holds a `\n`. */
  lemma {:induction false} SplitLinesShape(text: string)
    ensures forall i :: 0 <= i < |SplitLines(text)| ==> '\n' !in SplitLines(text)[i]
  {
    var parts := Split(text, '\n');
    forall i | 0 <= i < |parts| ensures '\n' !in SplitLines(text)[i] {
      assert parts[i] in parts;
      if i < |parts| - 1 && DropCr(parts[i]) != parts[i] {
        assert forall k :: 0 <= k < |DropCr(parts[i])| ==> DropCr(parts[i])[k] == parts[i][k];
      }
    }
  }

  /** Lines joined with `\n` are cut back into the same lines when none holds a `\n` or ends in `\r`. */
  lemma {:induction false} SplitLinesJoin(lines: seq<string>)
    requires |lines| >= 1
    requires forall l :: l in lines ==> '\n' !in l && (l == [] || l[|l| - 1] != '\r')
    ensures SplitLines(Join(lines, "\n")) == lines
  {
    var text := Join(lines, "\n");
    SplitJoin(lines, '\n');
    var parts := Split(text, '\n');
    forall i | 0 <= i < |lines| ensures SplitLines(text)[i] == lines[i] {
      assert parts[i] == lines[i] && lines[i] in lines;
    }
  }

  /** `l.trim().length` is zero. */
  predicate Blank(l: string) {
    Trim(l) == []
  }

  /** `lines.filter(l => l.trim().length)`: the non-blank lines, in order. */
  function NonBlank(lines: seq<string>): (kept: seq<string>)
    ensures |kept| <= |lines|
    ensures forall l :: l in kept ==> !Blank(l)
    decreases |lines|
  {
    if lines == [] then []
    else if Blank(lines[0]) then NonBlank(lines[1..])
    else [lines[0]] + NonBlank(lines[1..])
  }

  /**
   * The filter keeps the input order and every repeat: it works line by line
   * (`NonBlankOne` says what it does to one line).
   */
  lemma {:induction false} NonBlankAppend(a: seq<string>, b: seq<string>)
    ensures NonBlank(a + b) == NonBlank(a) + NonBlank(b)
    decreases |a|
  {
    if a == [] {
      assert a + b == b;
    } else {
      var t := a[1..];
      assert (a + b)[0] == a[0] && (a + b)[1..] == t + b;
      NonBlankAppend(t, b);
    }
  }

  /** A single line is kept exactly when it is not blank. */
  lemma NonBlankOne(l: string)
    ensures NonBlank([l]) == if Blank(l) then [] else [l]
  {
    assert [l][1..] == [];
  }

  /** A line is kept exactly when it is there and not blank. */
  lemma {:induction false} NonBlankKeeps(lines: seq<string>, l: string)
    ensures l in NonBlank(lines) <==> l in lines && !Blank(l)
    decreases |lines|
  {
    if lines != [] {
      NonBlankKeeps(lines[1..], l);
      assert lines == [lines[0]] + lines[1..];
    }
  }

  /** Nothing is kept exactly when every line is blank. */
  lemma {:induction false} NonBlankEmpty(lines: seq<string>)
    ensures NonBlank(lines) == [] <==> forall i :: 0 <= i < |lines| ==> Blank(lines[i])
    decreases |lines|
  {
    if lines != [] {
      NonBlankEmpty(lines[1..]);
      assert forall i :: 1 <= i < |lines| ==> lines[i] == lines[1..][i - 1];
    }
  }

  /** The lines that take part: `text.split(/\r?\n/).filter(l => l.trim().length)`; none is blank. */
  function CleanLines(text: string): (lines: seq<string>)
    ensures forall l :: l in lines ==> !Blank(l)
  {
    NonBlank(SplitLines(text))
  }

  /** `line.split(",").map(h => h.trim().toLowerCase())`. */
  function Headers(line: string): (headers: seq<string>)
    ensures |headers| == |Split(line, ',')|
  {
    var cells := Cells(line);
    seq(|cells|, i requires 0 <= i < |cells| => Lower(cells[i]))
  }

  /** `line.split(",").map(v => v.trim())`. */
  function Cells(line: string): (cells: seq<string>)
    ensures |cells| == |Split(line, ',')|
  {
    var parts := Split(line, ',');
    seq(|parts|, i requires 0 <= i < |parts| => Trim(parts[i]))
  }

  predicate Trimmed(s: string) {
    s == [] || (!IsSpace(s[0]) && !IsSpace(s[|s| - 1]))
  }

  predicate NoUpper(s: string) {
    forall k :: 0 <= k < |s| ==> !('A' <= s[k] <= 'Z')
  }

  /** Lower-casing keeps a string trimmed and leaves no upper-case ASCII letter. */
  lemma {:induction false} LowerTrimmed(s: string)
    requires Trimmed(s)
    ensures Trimmed(Lower(s)) && NoUpper(Lower(s))
  {
  }

  /** Trimming a string without `c` leaves a string without `c`. */
  lemma {:induction false} TrimKeepsOut(s: string, c: char)
    requires c !in s
    ensures c !in Trim(s)
  {
    var t := Trim(s);
    var lo :| At(s, lo, t);
    forall j | 0 <= j < |t| ensures t[j] != c {
      assert t[j] == s[lo + j];
    }
  }

  /**
   * Every header is a trimmed, lower-case piece of the header line between
   * commas, and every cell a trimmed piece of its line between commas.
   */
  lemma {:induction false} HeadersAndCells(line: string)
    ensures forall i :: 0 <= i < |Headers(line)| ==>
      ',' !in Headers(line)[i] && Trimmed(Headers(line)[i]) && NoUpper(Headers(line)[i])
    ensures forall i :: 0 <= i < |Cells(line)| ==>
      ',' !in Cells(line)[i] && Trimmed(Cells(line)[i]) && Cells(line)[i] == Trim(Split(line, ',')[i])
  {
    var parts := Split(line, ',');
    forall i | 0 <= i < |parts|
      ensures ',' !in Headers(line)[i] && Trimmed(Headers(line)[i]) && NoUpper(Headers(line)[i])
      ensures ',' !in Cells(line)[i] && Trimmed(Cells(line)[i])
    {
      assert parts[i] in parts;
      TrimKeepsOut(parts[i], ',');
      LowerTrimmed(Trim(parts[i]));
    }
  }

  /** `headers[i]` as a property key: "undefined" past the last header. */
  function Key(headers: seq<string>, i: nat): string {
    if i < |headers| then headers[i] else "undefined"
  }

  /** `row.map((val, i) => [headers[i], val])`. */
  function Keyed(headers: seq<string>, row: seq<string>): (es: Entries<string>)
    ensures |es| == |row|
  {
    seq(|row|, i requires 0 <= i < |row| => (Key(headers, i), row[i]))
  }

  /** The object of one row. */
  function RowRecord(headers: seq<string>, row: seq<string>): Entries<string> {
    FromEntries(Keyed(headers, row))
  }

  /** `data.map(...)`: the object of each line, under `headers`. */
  function Objects(headers: seq<string>, data: seq<string>): (objs: seq<Entries<string>>)
    ensures |objs| == |data|
  {
    seq(|data|, k requires 0 <= k < |data| => RowRecord(headers, Cells(data[k])))
  }

  /** The message of the `TypeError` that reading `split` of `undefined` throws. */
  const NoLineMessage := "Cannot read properties of undefined (reading 'split')"

  /** `run(text)`: one object per non-blank line after the header line. */
  function Run(text: string): (r: Result<seq<Entries<string>>>)
    ensures r.Failure? <==> CleanLines(text) == []
    ensures r.Success? ==> |r.value| == |CleanLines(text)| - 1
  {
    var lines := CleanLines(text);
    if lines == [] then Failure(NoLineMessage)
    else
      Success(Objects(Headers(lines[0]), lines[1..]))
  }

  /** `run` throws exactly when every line is blank. */
  lemma {:induction false} RunFails(text: string)
    ensures Run(text).Failure? <==> forall i :: 0 <= i < |SplitLines(text)| ==> Blank(SplitLines(text)[i])
  {
    NonBlankEmpty(SplitLines(text));
  }

  /** Reading a key of a row object gives the value of the last entry with that key. */
  lemma {:induction false} LastKeyedValue(headers: seq<string>, row: seq<string>, k: string)
    ensures Get(RowRecord(headers, row), k) == LastValue(Keyed(headers, row), k)
  {
    FromEntriesGet(Keyed(headers, row), k);
  }

  /** `LastValue` finds the last entry with the key, and nothing when no entry has it. */
  lemma {:induction false} LastValueIsLast<V>(es: Entries<V>, k: string)
    ensures LastValue(es, k).None? <==> forall i :: 0 <= i < |es| ==> es[i].0 != k
    ensures LastValue(es, k).Some? ==>
      exists i :: 0 <= i < |es| && es[i] == (k, LastValue(es, k).value) && forall j :: i < j < |es| ==> es[j].0 != k
    decreases |es|
  {
    if es != [] {
      var n := |es| - 1;
      var init := es[..n];
      if es[n].0 == k {
        assert es[n] == (k, LastValue(es, k).value);
      } else {
        assert LastValue(es, k) == LastValue(init, k);
        LastValueIsLast(init, k);
        if LastValue(init, k).Some? {
          var i :| 0 <= i < |init| && init[i] == (k, LastValue(init, k).value) && forall j :: i < j < |init| ==> init[j].0 != k;
          assert es[i] == init[i];
          forall j | i < j < |es| ensures es[j].0 != k {
            if j < n { assert es[j] == init[j]; }
          }
        } else {
          forall i | 0 <= i < |es| ensures es[i].0 != k {
            if i < n { assert es[i] == init[i]; }
          }
        }
      }
    }
  }

  /**
   * Cell `i` is found under header `i`: a row has a property exactly for the
   * headers of its cells (so a short row lacks the trailing ones, and cells
   * past the last header go under "undefined"), and a repeated key keeps the
   * cell of its last occurrence.
   */
  lemma {:induction false} RowRecordGet(headers: seq<string>, row: seq<string>, k: string)
    ensures Get(RowRecord(headers, row), k).None? <==> forall i :: 0 <= i < |row| ==> Key(headers, i) != k
    ensures Get(RowRecord(headers, row), k).Some? ==>
      exists i :: 0 <= i < |row| && Key(headers, i) == k && row[i] == Get(RowRecord(headers, row), k).value
        && forall j :: i < j < |row| ==> Key(headers, j) != k
  {
    var es := Keyed(headers, row);
    assert forall i :: 0 <= i < |row| ==> es[i] == (Key(headers, i), row[i]);
    LastKeyedValue(headers, row, k);
    LastValueIsLast(es, k);
  }

  /** Cells past the last header all go under "undefined", which keeps the last of them. */
  lemma {:induction false} ExtraCellsUndefined(headers: seq<string>, row: seq<string>)
    requires |headers| < |row|
    ensures Get(RowRecord(headers, row), "undefined") == Some(row[|row| - 1])
  {
    LastKeyedValue(headers, row, "undefined");
  }

  /** With distinct headers and a row of the same length, the object pairs header `i` with cell `i`, in order. */
  lemma {:induction false} RowRecordAligned(headers: seq<string>, row: seq<string>)
    requires |row| == |headers|
    requires forall i, j :: 0 <= i < j < |headers| ==> headers[i] != headers[j]
    ensures RowRecord(headers, row) == seq(|row|, i requires 0 <= i < |row| => (headers[i], row[i]))
  {
    var es := Keyed(headers, row);
    assert DistinctKeys(es);
    FromEntriesDistinct(es);
  }

  /** One space on each side of a trimmed, non-empty word is what `trim` removes. */
  lemma {:induction false} TrimPadded(w: string)
    requires w != [] && !IsSpace(w[0]) && !IsSpace(w[|w| - 1])
    ensures Trim(" " + w + " ") == w
  {
    var s := " " + w + " ";
    assert s[1] == w[0] && s[|s| - 2] == w[|w| - 1];
    assert RunEnd(s, 0, IsSpace) == 1 by {
      assert RunEnd(s, 1, IsSpace) == 1;
    }
    assert RunStart(s, 1, |s|, IsSpace) == |s| - 1 by {
      assert RunStart(s, 1, |s| - 1, IsSpace) == |s| - 1;
    }
    assert s[1..|s| - 1] == w;
  }

  /** A line of the example: two words, each with a space on either side, around a comma. */
  function PaddedLine(a: string, b: string): string {
    " " + a + " , " + b + " "
  }

  /** A non-empty piece with no white space at its ends, no comma and no line break. */
  predicate Word(a: string) {
    a != [] && !IsSpace(a[0]) && !IsSpace(a[|a| - 1]) && ',' !in a && '\n' !in a && '\r' !in a
  }

  lemma {:induction false} PaddedSplit(a: string, b: string)
    requires Word(a) && Word(b)
    ensures Split(PaddedLine(a, b), ',') == [" " + a + " ", " " + b + " "]
  {
    assert PaddedLine(a, b) == Join([" " + a + " ", " " + b + " "], ",");
    SplitJoin([" " + a + " ", " " + b + " "], ',');
  }

  lemma {:induction false} PaddedCells(a: string, b: string)
    requires Word(a) && Word(b)
    ensures Cells(PaddedLine(a, b)) == [a, b]
  {
    PaddedSplit(a, b);
    TrimPadded(a);
    TrimPadded(b);
  }

  lemma {:induction false} PaddedHeaders(a: string, b: string)
    requires Word(a) && Word(b)
    ensures Headers(PaddedLine(a, b)) == [Lower(a), Lower(b)]
  {
    PaddedCells(a, b);
  }

  lemma {:induction false} PaddedLineShape(a: string, b: string)
    requires Word(a) && Word(b)
    ensures var l := PaddedLine(a, b); '\n' !in l && l[|l| - 1] != '\r' && !Blank(l)
  {
    var l := PaddedLine(a, b);
    assert l[1] == a[0];
    assert forall k :: 0 <= k < |l| ==> l[k] == ' ' || l[k] == ',' || l[k] in a || l[k] in b;
  }

  /** Lines that are all non-blank are all kept. */
  lemma {:induction false} NonBlankAll(lines: seq<string>)
    requires forall l :: l in lines ==> !Blank(l)
    ensures NonBlank(lines) == lines
    decreases |lines|
  {
    if lines != [] {
      var head, rest := lines[0], lines[1..];
      assert head in lines;
      forall l | l in rest ensures !Blank(l) {
        assert l in lines;
      }
      NonBlankAll(rest);
      assert lines == [head] + rest;
    }
  }

  lemma {:induction false} JoinThree(l0: string, l1: string, l2: string)
    ensures Join([l0, l1, l2], "\n") == l0 + "\n" + l1 + "\n" + l2
  {
    assert [l0, l1, l2][1..] == [l1, l2] && [l1, l2][1..] == [l2];
    assert Join([l2], "\n") == l2;
    assert Join([l1, l2], "\n") == l1 + "\n" + l2;
    assert Join([l0, l1, l2], "\n") == l0 + "\n" + (l1 + "\n" + l2);
  }

  /** Three lines that hold no line break and are not blank are all kept. */
  lemma {:induction false} CleanThree(l0: string, l1: string, l2: string)
    requires forall l :: l in [l0, l1, l2] ==> '\n' !in l && (l == [] || l[|l| - 1] != '\r') && !Blank(l)
    ensures CleanLines(l0 + "\n" + l1 + "\n" + l2) == [l0, l1, l2]
  {
    JoinThree(l0, l1, l2);
    SplitLinesJoin([l0, l1, l2]);
    NonBlankAll([l0, l1, l2]);
  }

  /** With three kept lines, the objects are those of the last two under the keys of the first. */
  lemma {:induction false} RunThree(text: string, l0: string, l1: string, l2: string)
    requires CleanLines(text) == [l0, l1, l2]
    ensures Run(text) == Success(Objects(Headers(l0), [l1, l2]))
  {
    assert [l0, l1, l2][1..] == [l1, l2];
  }

  /** `" Name , Age \n John , 30 \n Jane , 25 "`. */
  const ExampleText := PaddedLine("Name", "Age") + "\n" + PaddedLine("John", "30") + "\n" + PaddedLine("Jane", "25")

  lemma {:induction false} ExampleWords()
    ensures Word("Name") && Word("Age") && Word("John") && Word("30") && Word("Jane") && Word("25")
  {
  }

  lemma {:induction false} ExampleKeys()
    ensures Headers(PaddedLine("Name", "Age")) == ["name", "age"]
  {
    ExampleWords();
    PaddedHeaders("Name", "Age");
    assert Lower("Name") == "name";
    assert Lower("Age") == "age";
  }

  lemma {:induction false} ExampleClean()
    ensures CleanLines(ExampleText) == [PaddedLine("Name", "Age"), PaddedLine("John", "30"), PaddedLine("Jane", "25")]
  {
    ExampleWords();
    PaddedLineShape("Name", "Age");
    PaddedLineShape("John", "30");
    PaddedLineShape("Jane", "25");
    CleanThree(PaddedLine("Name", "Age"), PaddedLine("John", "30"), PaddedLine("Jane", "25"));
  }

  lemma {:induction false} ExampleRow(a: string, b: string)
    requires Word(a) && Word(b)
    ensures RowRecord(["name", "age"], Cells(PaddedLine(a, b))) == [("name", a), ("age", b)]
  {
    PaddedCells(a, b);
    RowRecordAligned(["name", "age"], [a, b]);
  }

  /** Two padded lines of words give the objects of those words under `name` and `age`. */
  lemma {:induction false} TwoObjects(a: string, b: string, c: string, d: string)
    requires Word(a) && Word(b) && Word(c) && Word(d)
    ensures Objects(["name", "age"], [PaddedLine(a, b), PaddedLine(c, d)])
      == [[("name", a), ("age", b)], [("name", c), ("age", d)]]
  {
    var objs := Objects(["name", "age"], [PaddedLine(a, b), PaddedLine(c, d)]);
    assert objs[0] == RowRecord(["name", "age"], Cells(PaddedLine(a, b)));
    assert objs[1] == RowRecord(["name", "age"], Cells(PaddedLine(c, d)));
    ExampleRow(a, b);
    ExampleRow(c, d);
  }

  lemma {:induction false} ExampleObjects()
    ensures Objects(["name", "age"], [PaddedLine("John", "30"), PaddedLine("Jane", "25")])
      == [[("name", "John"), ("age", "30")], [("name", "Jane"), ("age", "25")]]
  {
    ExampleWords();
    TwoObjects("John", "30", "Jane", "25");
  }

  /** The example text gives two objects keyed `name` and `age`. */
  lemma {:induction false} Example()
    ensures Run(ExampleText) == Success([[("name", "John"), ("age", "30")], [("name", "Jane"), ("age", "25")]])
  {
    ExampleClean();
    RunThree(ExampleText, PaddedLine("Name", "Age"), PaddedLine("John", "30"), PaddedLine("Jane", "25"));
    ExampleKeys();
    ExampleObjects();
  }
}
