/**
 * The three serialisers of the scraping service: `convertToCSV`,
 * `convertToGeoJSON` and `convertToKML`. Each writes one entry per scrape
 * result, in order, with the first 200 characters of the content.
 */
module ScrapeExport {
  import opened Wrappers
  import opened Text
  import opened Records
  import opened Scraper
  import PageText

  const PreviewLength := 200

  /** `content.substring(0, 200)`. */
  function Preview(content: string): (p: string)
    ensures p <= content
    ensures |p| == if |content| < PreviewLength then |content| else PreviewLength
  {
    if |content| <= PreviewLength then content else content[..PreviewLength]
  }

  // CSV

  /** `s.replace(/"/g, '""')`. */
  function DoubleQuotes(s: string): (r: string)
    ensures |r| >= |s|
  {
    if s == [] then []
    else (if s[0] == '"' then "\"\"" else [s[0]]) + DoubleQuotes(s[1..])
  }

  /** A text without quotes is left as it is. */
  lemma {:induction false} DoubleQuotesNone(s: string)
    requires '"' !in s
    ensures DoubleQuotes(s) == s
  {
    if s != [] {
      assert s == [s[0]] + s[1..];
      DoubleQuotesNone(s[1..]);
    }
  }

  /** `` `"${cell}"` ``. */
  function QuoteCell(cell: string): string {
    "\"" + cell + "\""
  }

  /** `row.map(cell => `"${cell}"`).join(",")`. */
  function CsvLine(cells: seq<string>): string {
    Join(seq(|cells|, i requires 0 <= i < |cells| => QuoteCell(cells[i])), ",")
  }

  const CsvHeader := ["URL", "Title", "Content Preview"]

  /** The cells of one result: the URL as it is, the title and the preview with their quotes doubled. */
  function CsvCells(r: ScrapeResult): seq<string> {
    [r.url, DoubleQuotes(r.title), DoubleQuotes(Preview(r.content))]
  }

  /** `[headers, ...rows]`. */
  function CsvTable(results: seq<ScrapeResult>): (table: seq<seq<string>>)
    ensures |table| == |results| + 1
  {
    [CsvHeader] + seq(|results|, i requires 0 <= i < |results| => CsvCells(results[i]))
  }

  /** `convertToCSV`: the lines of the table joined by "\n", with no final line break. */
  function ConvertToCsv(results: seq<ScrapeResult>): string {
    var table := CsvTable(results);
    Join(seq(|table|, k requires 0 <= k < |table| => CsvLine(table[k])), "\n")
  }

  /**
   * A reader for the quoted fields of section 2 of RFC 4180, with "\n"
   * ending a record: `s` follows an opening quote; the field ends at a quote
   * that is not doubled, and a doubled quote stands for one quote. Gives the
   * value and what follows the closing quote.
   */
  function ReadEscaped(s: string): (r: Option<(string, string)>)
    ensures r.Some? ==> |r.value.1| < |s|
    decreases |s|
  {
    if s == [] then None
    else if s[0] == '"' then
      if |s| >= 2 && s[1] == '"' then
        var rest := ReadEscaped(s[2..]);
        if rest.None? then None else Some(("\"" + rest.value.0, rest.value.1))
      else Some(("", s[1..]))
    else
      var rest := ReadEscaped(s[1..]);
      if rest.None? then None else Some(([s[0]] + rest.value.0, rest.value.1))
  }

  /** The quoted fields of one record, separated by commas; gives the values and what follows. */
  function ReadFields(s: string): (r: Option<(seq<string>, string)>)
    ensures r.Some? ==> |r.value.1| < |s| && r.value.0 != []
    decreases |s|
  {
    if s == [] || s[0] != '"' then None
    else
      var f := ReadEscaped(s[1..]);
      if f.None? then None
      else if f.value.1 != [] && f.value.1[0] == ',' then
        var more := ReadFields(f.value.1[1..]);
        if more.None? then None else Some(([f.value.0] + more.value.0, more.value.1))
      else Some(([f.value.0], f.value.1))
  }

  /** The records of a text, one per line; there is at least one, and none is empty. */
  function ReadRecords(s: string): (r: Option<seq<seq<string>>>)
    ensures r.Some? ==> r.value != [] && forall k :: 0 <= k < |r.value| ==> r.value[k] != []
    decreases |s|
  {
    var rec := ReadFields(s);
    if rec.None? then None
    else if rec.value.1 == [] then Some([rec.value.0])
    else if rec.value.1[0] == '\n' then
      var more := ReadRecords(rec.value.1[1..]);
      if more.None? then None else Some([rec.value.0] + more.value)
    else None
  }

  /** A value with its quotes doubled, then a closing quote, reads back as the value. */
  lemma {:induction false} ReadDoubled(x: string, rest: string)
    requires rest == [] || rest[0] != '"'
    ensures ReadEscaped(DoubleQuotes(x) + "\"" + rest) == Some((x, rest))
    decreases |x|
  {
    var s := DoubleQuotes(x) + "\"" + rest;
    if x == [] {
      assert s == "\"" + rest;
    } else {
      ReadDoubled(x[1..], rest);
      var tail := DoubleQuotes(x[1..]) + "\"" + rest;
      if x[0] == '"' {
        assert s == "\"\"" + tail;
        assert s[2..] == tail;
        assert "\"" + x[1..] == x;
      } else {
        assert s == [x[0]] + tail;
        assert s[1..] == tail;
        assert [x[0]] + x[1..] == x;
      }
    }
  }

  /** The values with their quotes doubled. */
  function Escaped(values: seq<string>): (cells: seq<string>)
    ensures |cells| == |values|
  {
    seq(|values|, i requires 0 <= i < |values| => DoubleQuotes(values[i]))
  }

  lemma {:induction false} JoinCons(parts: seq<string>, sep: string)
    requires |parts| >= 2
    ensures Join(parts, sep) == parts[0] + sep + Join(parts[1..], sep)
  {
  }

  /** One quoted, escaped value and a comma before the rest of a record. */
  lemma ReadFirstField(v: string, tail: string)
    ensures var s := "\"" + DoubleQuotes(v) + "\"" + "," + tail;
      ReadFields(s) == (var more := ReadFields(tail); if more.None? then None else Some(([v] + more.value.0, more.value.1)))
  {
    var s := "\"" + DoubleQuotes(v) + "\"" + "," + tail;
    assert s[1..] == DoubleQuotes(v) + "\"" + ("," + tail);
    ReadDoubled(v, "," + tail);
    assert ("," + tail)[1..] == tail;
  }

  /** A line of two or more cells: the first quoted cell, a comma, the line of the others. */
  lemma {:induction false} CsvLineCons(cells: seq<string>)
    requires |cells| >= 2
    ensures CsvLine(cells) == QuoteCell(cells[0]) + "," + CsvLine(cells[1..])
  {
    var quoted := seq(|cells|, i requires 0 <= i < |cells| => QuoteCell(cells[i]));
    assert quoted[1..] == seq(|cells| - 1, i requires 0 <= i < |cells| - 1 => QuoteCell(cells[1..][i]));
    JoinCons(quoted, ",");
  }

  lemma EscapedCons(values: seq<string>)
    requires values != []
    ensures Escaped(values)[0] == DoubleQuotes(values[0]) && Escaped(values)[1..] == Escaped(values[1..])
  {
  }

  /** A line of quoted, escaped values reads back as the values. */
  lemma {:induction false} ReadLine(values: seq<string>, rest: string)
    requires values != []
    requires rest == [] || rest[0] == '\n'
    ensures ReadFields(CsvLine(Escaped(values)) + rest) == Some((values, rest))
    decreases |values|
  {
    var cells := Escaped(values);
    var head := DoubleQuotes(values[0]);
    EscapedCons(values);
    if |values| == 1 {
      var s := QuoteCell(head) + rest;
      assert CsvLine(cells) == QuoteCell(head);
      assert s[1..] == head + "\"" + rest;
      ReadDoubled(values[0], rest);
      assert values == [values[0]];
    } else {
      var tail := CsvLine(Escaped(values[1..])) + rest;
      CsvLineCons(cells);
      assert CsvLine(cells) + rest == "\"" + head + "\"" + "," + tail;
      ReadFirstField(values[0], tail);
      ReadLine(values[1..], rest);
      assert [values[0]] + values[1..] == values;
    }
  }

  /** The lines of a table of escaped values. */
  function CsvLines(rows: seq<seq<string>>): (lines: seq<string>)
    ensures |lines| == |rows|
  {
    seq(|rows|, k requires 0 <= k < |rows| => CsvLine(Escaped(rows[k])))
  }

  lemma {:induction false} CsvLinesCons(rows: seq<seq<string>>)
    requires |rows| >= 2
    ensures Join(CsvLines(rows), "\n") == CsvLine(Escaped(rows[0])) + ("\n" + Join(CsvLines(rows[1..]), "\n"))
  {
    var lines := CsvLines(rows);
    assert lines[1..] == CsvLines(rows[1..]);
    JoinCons(lines, "\n");
  }

  /** Lines of quoted, escaped values joined by "\n" read back as the table. */
  lemma {:induction false} ReadTable(rows: seq<seq<string>>)
    requires rows != [] && forall k :: 0 <= k < |rows| ==> rows[k] != []
    ensures ReadRecords(Join(CsvLines(rows), "\n")) == Some(rows)
    decreases |rows|
  {
    var lines := CsvLines(rows);
    if |rows| == 1 {
      ReadLine(rows[0], []);
      assert CsvLine(Escaped(rows[0])) + [] == Join(lines, "\n");
      assert rows == [rows[0]];
    } else {
      var tail := Join(CsvLines(rows[1..]), "\n");
      CsvLinesCons(rows);
      ReadLine(rows[0], "\n" + tail);
      assert ("\n" + tail)[1..] == tail;
      ReadTable(rows[1..]);
      assert [rows[0]] + rows[1..] == rows;
    }
  }

  /** What the CSV text is meant to carry: the header, then the URL, title and preview of each result. */
  function CsvFields(results: seq<ScrapeResult>): (rows: seq<seq<string>>)
    ensures |rows| == |results| + 1
  {
    [CsvHeader] + seq(|results|, i requires 0 <= i < |results| => [results[i].url, results[i].title, Preview(results[i].content)])
  }

  /** With quote-free URLs, the CSV table is the escaped table of fields. */
  lemma CsvTableEscaped(results: seq<ScrapeResult>)
    requires forall i :: 0 <= i < |results| ==> '"' !in results[i].url
    ensures CsvTable(results) == seq(|results| + 1, k requires 0 <= k < |results| + 1 => Escaped(CsvFields(results)[k]))
  {
    var fields := CsvFields(results);
    HeaderEscaped();
    forall k | 1 <= k < |results| + 1 ensures CsvTable(results)[k] == Escaped(fields[k]) {
      DoubleQuotesNone(results[k - 1].url);
    }
  }

  /** `convertToCSV` with the URL's quotes doubled too, as the title's and the preview's are. */
  function ConvertToCsvEscaped(results: seq<ScrapeResult>): string {
    Join(CsvLines(CsvFields(results)), "\n")
  }

  /**
   * Reading the escaped CSV text as section 2 of RFC 4180 gives back the
   * header and, for each result in order, its URL, title and preview.
   */
  lemma CsvEscapedRoundTrip(results: seq<ScrapeResult>)
    ensures ReadRecords(ConvertToCsvEscaped(results)) == Some(CsvFields(results))
  {
    ReadTable(CsvFields(results));
  }

  /** For results whose URLs hold no quote, `convertToCSV` writes the escaped text. */
  lemma CsvEscapedAgrees(results: seq<ScrapeResult>)
    requires forall i :: 0 <= i < |results| ==> '"' !in results[i].url
    ensures ConvertToCsv(results) == ConvertToCsvEscaped(results)
  {
    var fields := CsvFields(results);
    var table := CsvTable(results);
    CsvTableEscaped(results);
    assert seq(|table|, k requires 0 <= k < |table| => CsvLine(table[k])) == CsvLines(fields) by {
      forall k | 0 <= k < |table| ensures CsvLine(table[k]) == CsvLines(fields)[k] {
        assert table[k] == Escaped(fields[k]);
      }
    }
  }

  /**
   * For results whose URLs hold no quote, reading `convertToCSV`'s text as
   * section 2 of RFC 4180 gives back the header and, for each result in
   * order, its URL, title and the first 200 characters of its content.
   */
  lemma CsvRoundTrip(results: seq<ScrapeResult>)
    requires forall i :: 0 <= i < |results| ==> '"' !in results[i].url
    ensures ReadRecords(ConvertToCsv(results)) == Some(CsvFields(results))
  {
    CsvEscapedAgrees(results);
    CsvEscapedRoundTrip(results);
  }

  /**
   * A URL with a quote inside, followed by anything but a quote, a comma or
   * a line break, ends its cell early: the CSV text of such a result does
   * not read back at all.
   */
  lemma CsvQuotedUrlUnreadable(r: ScrapeResult, x: string, y: string)
    requires '"' !in x && y != [] && y[0] != '"' && y[0] != ',' && y[0] != '\n'
    requires r.url == x + "\"" + y
    ensures ReadRecords(ConvertToCsv([r])) == None
  {
    var cells := CsvCells(r);
    var row := CsvLine(cells);
    SingleCsv(r);
    HeaderEscaped();
    CsvLineCons(cells);
    assert row == "\"" + x + "\"" + y + ("\"" + "," + CsvLine(cells[1..]));
    RowUnreadable(x, y, "\"" + "," + CsvLine(cells[1..]));
    ReadAfterLine(CsvHeader, row);
  }

  lemma SingleCsv(r: ScrapeResult)
    ensures ConvertToCsv([r]) == CsvLine(CsvHeader) + "\n" + CsvLine(CsvCells(r))
  {
    var table := CsvTable([r]);
    var lines := seq(|table|, k requires 0 <= k < |table| => CsvLine(table[k]));
    assert lines == [CsvLine(CsvHeader), CsvLine(CsvCells(r))];
    JoinCons(lines, "\n");
    assert lines[1..] == [CsvLine(CsvCells(r))];
  }

  /** The header holds no quote. */
  lemma HeaderEscaped()
    ensures Escaped(CsvHeader) == CsvHeader
  {
    EscapedNone(CsvHeader);
  }

  /** Values without quotes are left as they are. */
  lemma EscapedNone(values: seq<string>)
    requires forall k :: 0 <= k < |values| ==> '"' !in values[k]
    ensures Escaped(values) == values
  {
    forall k | 0 <= k < |values| ensures Escaped(values)[k] == values[k] {
      DoubleQuotesNone(values[k]);
    }
  }

  /** After a line of quoted, escaped values, the records read are those of the next line on. */
  lemma ReadAfterLine(values: seq<string>, more: string)
    requires values != []
    ensures ReadRecords(CsvLine(Escaped(values)) + "\n" + more) ==
      var rest := ReadRecords(more);
      if rest.None? then None else Some([values] + rest.value)
  {
    ReadLine(values, "\n" + more);
    assert CsvLine(Escaped(values)) + "\n" + more == CsvLine(Escaped(values)) + ("\n" + more);
    assert ("\n" + more)[1..] == more;
  }

  /** A quoted cell holding a quote that is followed by anything but a quote, a comma or a line break. */
  lemma RowUnreadable(x: string, y: string, rest: string)
    requires '"' !in x && y != [] && y[0] != '"' && y[0] != ',' && y[0] != '\n'
    ensures ReadRecords("\"" + x + "\"" + y + rest) == None
  {
    var row := "\"" + x + "\"" + y + rest;
    DoubleQuotesNone(x);
    ReadDoubled(x, y + rest);
    assert row[1..] == DoubleQuotes(x) + "\"" + (y + rest);
  }

  // GeoJSON

  /** A JSON value; the numbers this output holds are integers. */
  datatype Json =
    | JNull
    | JBool(b: bool)
    | JNumber(n: int)
    | JString(s: string)
    | JArray(items: seq<Json>)
    | JObject(members: Entries<Json>)

  /** One result as a Feature at the default point `[0, 0]`. */
  function Feature(r: ScrapeResult): Json {
    JObject([
      ("type", JString("Feature")),
      ("properties", JObject([("url", JString(r.url)), ("title", JString(r.title)), ("content", JString(Preview(r.content)))])),
      ("geometry", JObject([("type", JString("Point")), ("coordinates", JArray([JNumber(0), JNumber(0)]))]))
    ])
  }

  /** `convertToGeoJSON`: a FeatureCollection with one Feature per result, in order. */
  function ConvertToGeoJson(results: seq<ScrapeResult>): Json {
    JObject([
      ("type", JString("FeatureCollection")),
      ("features", JArray(seq(|results|, i requires 0 <= i < |results| => Feature(results[i]))))
    ])
  }

  /** A position (section 3.1.1 of RFC 7946): an array of two or more numbers. */
  predicate IsPosition(j: Json) {
    j.JArray? && |j.items| >= 2 && forall k :: 0 <= k < |j.items| ==> j.items[k].JNumber?
  }

  /** A Point (section 3.1.2 of RFC 7946): type "Point" and a position as its coordinates. */
  predicate IsPoint(j: Json) {
    && j.JObject?
    && Get(j.members, "type") == Some(JString("Point"))
    && Get(j.members, "coordinates").Some?
    && IsPosition(Get(j.members, "coordinates").value)
  }

  /**
   * A Feature (section 3.2 of RFC 7946): type "Feature", a geometry that is
   * a Point or null, and properties that are an object or null.
   */
  predicate IsFeature(j: Json) {
    && j.JObject?
    && Get(j.members, "type") == Some(JString("Feature"))
    && Get(j.members, "geometry").Some?
    && (Get(j.members, "geometry").value.JNull? || IsPoint(Get(j.members, "geometry").value))
    && Get(j.members, "properties").Some?
    && (Get(j.members, "properties").value.JNull? || Get(j.members, "properties").value.JObject?)
  }

  /** A FeatureCollection (section 3.3 of RFC 7946): type "FeatureCollection" and an array of Features. */
  predicate IsFeatureCollection(j: Json) {
    && j.JObject?
    && Get(j.members, "type") == Some(JString("FeatureCollection"))
    && Get(j.members, "features").Some?
    && Get(j.members, "features").value.JArray?
    && forall k :: 0 <= k < |Get(j.members, "features").value.items| ==> IsFeature(Get(j.members, "features").value.items[k])
  }

  /** The string stored under `k`, if there is one. */
  function StringMember(o: Entries<Json>, k: string): Option<string> {
    var v := Get(o, k);
    if v.Some? && v.value.JString? then Some(v.value.s) else None
  }

  /** The url, title and content properties of a Feature. */
  function FeatureProperties(f: Json): Option<(string, string, string)> {
    var p := if f.JObject? then Get(f.members, "properties") else None;
    if p.None? || !p.value.JObject? then None
    else
      var url, title, content := StringMember(p.value.members, "url"), StringMember(p.value.members, "title"), StringMember(p.value.members, "content");
      if url.None? || title.None? || content.None? then None
      else Some((url.value, title.value, content.value))
  }

  /** The url, title and content of every Feature of a collection, in order. */
  function ReadGeoJson(j: Json): Option<seq<(string, string, string)>> {
    var fs := if j.JObject? then Get(j.members, "features") else None;
    if fs.None? || !fs.value.JArray? then None
    else
      var items := fs.value.items;
      if exists k :: 0 <= k < |items| && FeatureProperties(items[k]).None? then None
      else Some(seq(|items|, k requires 0 <= k < |items| => FeatureProperties(items[k]).value))
  }

  /** What each exported entry carries: the URL, the title and the first 200 characters of the content. */
  function Summary(r: ScrapeResult): (string, string, string) {
    (r.url, r.title, Preview(r.content))
  }

  /** Each Feature conforms and carries its result's summary. */
  lemma FeatureOf(r: ScrapeResult)
    ensures IsFeature(Feature(r))
    ensures FeatureProperties(Feature(r)) == Some(Summary(r))
  {
    var props := [("url", JString(r.url)), ("title", JString(r.title)), ("content", JString(Preview(r.content)))];
    var coords := JArray([JNumber(0), JNumber(0)]);
    var point := [("type", JString("Point")), ("coordinates", coords)];
    var members := Feature(r).members;
    assert Get(members, "type") == Some(JString("Feature"));
    assert members[1..][0] == ("properties", JObject(props));
    assert Get(members, "properties") == Some(JObject(props));
    assert members[1..][1..][0] == ("geometry", JObject(point));
    assert Get(members[1..][1..], "geometry") == Some(JObject(point));
    assert Get(members, "geometry") == Some(JObject(point));
    assert Get(point, "type") == Some(JString("Point"));
    assert point[1..][0] == ("coordinates", coords);
    assert Get(point, "coordinates") == Some(coords);
    assert StringMember(props, "url") == Some(r.url);
    assert props[1..][0] == ("title", JString(r.title));
    assert Get(props[1..], "title") == Some(JString(r.title));
    assert StringMember(props, "title") == Some(r.title);
    assert props[1..][1..][0] == ("content", JString(Preview(r.content)));
    assert Get(props[1..][1..], "content") == Some(JString(Preview(r.content)));
    assert Get(props[1..], "content") == Some(JString(Preview(r.content)));
    assert StringMember(props, "content") == Some(Preview(r.content));
  }

  /** The output is a FeatureCollection in the sense of section 3.3 of RFC 7946. */
  lemma GeoJsonConforms(results: seq<ScrapeResult>)
    ensures IsFeatureCollection(ConvertToGeoJson(results))
  {
    var features := seq(|results|, i requires 0 <= i < |results| => Feature(results[i]));
    assert Get(ConvertToGeoJson(results).members, "features") == Some(JArray(features));
    forall k | 0 <= k < |features| ensures IsFeature(features[k]) {
      FeatureOf(results[k]);
    }
  }

  /** Reading the collection back gives each result's URL, title and preview, in order. */
  lemma GeoJsonRoundTrip(results: seq<ScrapeResult>)
    ensures ReadGeoJson(ConvertToGeoJson(results)) == Some(seq(|results|, i requires 0 <= i < |results| => Summary(results[i])))
  {
    var features := seq(|results|, i requires 0 <= i < |results| => Feature(results[i]));
    assert Get(ConvertToGeoJson(results).members, "features") == Some(JArray(features));
    forall k | 0 <= k < |features| ensures FeatureProperties(features[k]) == Some(Summary(results[k])) {
      FeatureOf(results[k]);
    }
    assert !exists k :: 0 <= k < |features| && FeatureProperties(features[k]).None?;
    assert seq(|features|, k requires 0 <= k < |features| => FeatureProperties(features[k]).value)
        == seq(|results|, i requires 0 <= i < |results| => Summary(results[i]));
  }

  // KML

  const KmlHead := "<?xml version=\"1.0\" encoding=\"UTF-8\"?>\n<kml xmlns=\"http://www.opengis.net/kml/2.2\">\n  <Document>\n    <name>Scrape Results</name>\n    "
  const KmlTail := "\n  </Document>\n</kml>"
  const PlacemarkOpen := "\n    <Placemark>\n      <name>"
  const NameToDescription := "</name>\n      <description><![CDATA["
  const PlacemarkClose := "]]></description>\n      <Point>\n        <coordinates>0,0,0</coordinates>\n      </Point>\n    </Placemark>\n  "

  /** One result as a Placemark: the title as its name, the preview as CDATA, at `0,0,0`. */
  function Placemark(r: ScrapeResult): string {
    PlacemarkOpen + r.title + NameToDescription + Preview(r.content) + PlacemarkClose
  }

  /** The placemarks joined with nothing between them. */
  function Placemarks(results: seq<ScrapeResult>): string {
    Join(seq(|results|, i requires 0 <= i < |results| => Placemark(results[i])), "")
  }

  /** `convertToKML`: the document head, the placemarks, the document tail. */
  function ConvertToKml(results: seq<ScrapeResult>): string {
    KmlHead + Placemarks(results) + KmlTail
  }

  /** The text of `s` before the first occurrence of `d`, and the text after that occurrence. */
  function ReadUntil(s: string, d: string): (r: Option<(string, string)>)
    requires d != []
    ensures r.Some? ==> |r.value.1| < |s|
    decreases |s|
  {
    if At(s, 0, d) then Some(([], s[|d|..]))
    else if s == [] then None
    else
      var rest := ReadUntil(s[1..], d);
      if rest.None? then None else Some(([s[0]] + rest.value.0, rest.value.1))
  }

  /** In `x + d`, the first occurrence of `d` is the one after `x`. */
  predicate EndsAtFirst(x: string, d: string) {
    forall q :: 0 <= q < |x| ==> !At(x + d, q, d)
  }

  /** A text holding no first character of `d` cannot start an occurrence of `d`. */
  lemma NoFirstChar(x: string, d: string)
    requires d != [] && d[0] !in x
    ensures EndsAtFirst(x, d)
  {
    forall q | 0 <= q < |x| ensures !At(x + d, q, d) {
      assert (x + d)[q] == x[q];
    }
  }

  /** An occurrence in the tail of `t` is one in `t`, one index further on. */
  lemma AtTail(t: string, q: nat, d: string)
    requires t != []
    ensures At(t[1..], q, d) ==> At(t, q + 1, d)
  {
    if At(t[1..], q, d) {
      assert t[1..][q..q + |d|] == t[q + 1..q + 1 + |d|];
    }
  }

  /** Reading up to `d` stops at the first occurrence, the one just after `x`. */
  lemma {:induction false} ReadUntilFirst(x: string, d: string, rest: string)
    requires d != [] && EndsAtFirst(x, d)
    ensures ReadUntil(x + d + rest, d) == Some((x, rest))
    decreases |x|
  {
    var s := x + d + rest;
    if x == [] {
      assert s == d + rest;
      assert At(s, 0, d);
    } else {
      assert !At(x + d, 0, d);
      assert s[..|d|] == (x + d)[..|d|];
      assert x[1..] + d == (x + d)[1..];
      forall q | 0 <= q < |x| - 1 ensures !At(x[1..] + d, q, d) {
        AtTail(x + d, q, d);
      }
      assert s[1..] == x[1..] + d + rest;
      ReadUntilFirst(x[1..], d, rest);
      assert [x[0]] + x[1..] == x;
    }
  }

  /**
   * The items of `s` written as `open`, a first text, `mid`, a second text,
   * `close`, one after another: the two texts of each, in order.
   */
  function ReadItems(s: string, open: string, mid: string, close: string): Option<seq<(string, string)>>
    requires mid != [] && close != []
    decreases |s|
  {
    if s == [] then Some([])
    else if !At(s, 0, open) then None
    else
      var first := ReadUntil(s[|open|..], mid);
      if first.None? then None
      else
        var second := ReadUntil(first.value.1, close);
        if second.None? then None
        else
          var more := ReadItems(second.value.1, open, mid, close);
          if more.None? then None else Some([(first.value.0, second.value.0)] + more.value)
  }

  lemma ReadItem(open: string, x: string, mid: string, y: string, close: string, rest: string)
    requires mid != [] && close != []
    requires EndsAtFirst(x, mid) && EndsAtFirst(y, close)
    ensures ReadItems(open + x + mid + y + close + rest, open, mid, close) ==
      var more := ReadItems(rest, open, mid, close);
      if more.None? then None else Some([(x, y)] + more.value)
  {
    var s := open + x + mid + y + close + rest;
    var afterFirst := y + close + rest;
    assert s == open + (x + mid + afterFirst);
    assert At(s, 0, open);
    assert s[|open|..] == x + mid + afterFirst;
    ReadUntilFirst(x, mid, afterFirst);
    ReadUntilFirst(y, close, rest);
  }

  /** The name and the description of each placemark of `s`, in order. */
  function ReadPlacemarks(s: string): Option<seq<(string, string)>> {
    ReadItems(s, PlacemarkOpen, NameToDescription, PlacemarkClose)
  }

  /** The placemarks of a document with `convertToKML`'s head and tail. */
  function ReadKml(s: string): Option<seq<(string, string)>> {
    var body := Unframe(s, KmlHead, KmlTail);
    if body.None? then None else ReadPlacemarks(body.value)
  }

  /** The text between `head` and `tail`, when `s` starts with one and ends with the other. */
  function Unframe(s: string, head: string, tail: string): Option<string> {
    if |s| < |head| + |tail| || !StartsWith(s, head) || !EndsWith(s, tail) then None
    else Some(s[|head|..|s| - |tail|])
  }

  lemma Unframed(head: string, body: string, tail: string)
    ensures Unframe(head + body + tail, head, tail) == Some(body)
  {
    var s := head + body + tail;
    assert s[|head|..|s| - |tail|] == body;
    assert s[..|head|] == head;
    assert s[|s| - |tail|..] == tail;
  }

  /** Neither the title nor the preview ends its element early. */
  predicate KmlSafe(r: ScrapeResult) {
    EndsAtFirst(r.title, NameToDescription) && EndsAtFirst(Preview(r.content), PlacemarkClose)
  }

  lemma ConcatCons(parts: seq<string>)
    requires parts != []
    ensures Join(parts, "") == parts[0] + Join(parts[1..], "")
  {
    if |parts| >= 2 {
      JoinCons(parts, "");
    }
  }

  /** The items of `pairs`, each written as `open`, its first text, `mid`, its second text, `close`. */
  function Items(pairs: seq<(string, string)>, open: string, mid: string, close: string): string {
    Join(seq(|pairs|, i requires 0 <= i < |pairs| => open + pairs[i].0 + mid + pairs[i].1 + close), "")
  }

  lemma {:induction false} ReadAllItems(pairs: seq<(string, string)>, open: string, mid: string, close: string)
    requires mid != [] && close != []
    requires forall i :: 0 <= i < |pairs| ==> EndsAtFirst(pairs[i].0, mid) && EndsAtFirst(pairs[i].1, close)
    ensures ReadItems(Items(pairs, open, mid, close), open, mid, close) == Some(pairs)
    decreases |pairs|
  {
    if pairs != [] {
      var tail := pairs[1..];
      var (x, y) := pairs[0];
      var rest := Items(tail, open, mid, close);
      forall i | 0 <= i < |tail| ensures EndsAtFirst(tail[i].0, mid) && EndsAtFirst(tail[i].1, close) {
        assert tail[i] == pairs[i + 1];
      }
      ReadAllItems(tail, open, mid, close);
      ItemsCons(pairs, open, mid, close);
      ReadItem(open, x, mid, y, close, rest);
      assert [(x, y)] + tail == pairs;
    }
  }

  /** The first item, then the items of the rest. */
  lemma ItemsCons(pairs: seq<(string, string)>, open: string, mid: string, close: string)
    requires pairs != []
    ensures Items(pairs, open, mid, close) == open + pairs[0].0 + mid + pairs[0].1 + close + Items(pairs[1..], open, mid, close)
  {
    var parts := seq(|pairs|, i requires 0 <= i < |pairs| => open + pairs[i].0 + mid + pairs[i].1 + close);
    var tail := pairs[1..];
    assert parts[1..] == seq(|tail|, i requires 0 <= i < |tail| => open + tail[i].0 + mid + tail[i].1 + close);
    ConcatCons(parts);
  }

  /** The title and preview of each result. */
  function TitlePreviews(results: seq<ScrapeResult>): (pairs: seq<(string, string)>)
    ensures |pairs| == |results|
  {
    seq(|results|, i requires 0 <= i < |results| => (results[i].title, Preview(results[i].content)))
  }

  lemma PlacemarksAreItems(results: seq<ScrapeResult>)
    ensures Placemarks(results) == Items(TitlePreviews(results), PlacemarkOpen, NameToDescription, PlacemarkClose)
  {
    var pairs := TitlePreviews(results);
    assert seq(|results|, i requires 0 <= i < |results| => Placemark(results[i]))
        == seq(|pairs|, i requires 0 <= i < |pairs| => PlacemarkOpen + pairs[i].0 + NameToDescription + pairs[i].1 + PlacemarkClose);
  }

  /**
   * For results whose titles and previews do not close their elements early,
   * reading `convertToKML`'s document gives back each title and preview, in
   * order.
   */
  lemma KmlRoundTrip(results: seq<ScrapeResult>)
    requires forall i :: 0 <= i < |results| ==> KmlSafe(results[i])
    ensures ReadKml(ConvertToKml(results)) == Some(TitlePreviews(results))
  {
    Unframed(KmlHead, Placemarks(results), KmlTail);
    PlacemarksAreItems(results);
    ReadAllItems(TitlePreviews(results), PlacemarkOpen, NameToDescription, PlacemarkClose);
  }

  /** A scraped title holds no `<`, so it never ends its name element early. */
  lemma ScrapedTitleKmlSafe(url: string, html: string)
    ensures EndsAtFirst(Scraped(url, html).title, NameToDescription)
  {
    var title := PageText.Title(html);
    PageText.TitleCases(html);
    assert '<' !in title;
    NoFirstChar(title, NameToDescription);
  }
}
