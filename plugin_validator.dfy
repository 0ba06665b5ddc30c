/**
 * The input validation table `pluginSchemas` and `validatePluginInput`.
 *
 * Each known plugin id maps to a schema over the raw input string: a minimum
 * length, a regular expression the input must contain a match of, or an
 * alternative of two schemas. An id without an entry accepts every input.
 * Validation returns `true` or throws; it never returns `false`.
 */
module PluginValidator {
  import opened Wrappers
  import opened Text

  /** The regular expressions of the table, each as the set of strings `regex.test` accepts. */
  datatype Pattern =
    | Includes(lit: string)              // an unanchored literal, e.g. /,/
    | IncludesIgnoreCase(lit: string)    // an unanchored literal with the i flag, e.g. /<table/i
    | Prefix(lit: string)                // a literal anchored with ^, e.g. /^\[/
    | SpacedPair(before: string, after: string)  // before, then \s*, then after

  datatype Schema =
    | MinLength(n: nat)                  // z.string().min(n)
    | Regex(p: Pattern)                  // z.string().regex(p)
    | Or(left: Schema, right: Schema)    // a.or(b)

  /** `before`, any run of white space, then `after`, starting at index `i`. */
  predicate SpacedAt(s: string, i: int, before: string, after: string) {
    At(s, i, before) && exists j | i + |before| <= j <= |s| :: All(s, i + |before|, j, IsSpace) && At(s, j, after)
  }

  /** `regex.test(s)`. */
  predicate Test(p: Pattern, s: string) {
    match p
    case Includes(lit) => Contains(s, lit)
    case IncludesIgnoreCase(lit) => ContainsIgnoreCase(s, lit)
    case Prefix(lit) => StartsWith(s, lit)
    case SpacedPair(before, after) => exists i | 0 <= i <= |s| :: SpacedAt(s, i, before, after)
  }

  /** `schema.safeParse(s).success` for a string input. */
  predicate Accepts(schema: Schema, s: string) {
    match schema
    case MinLength(n) => |s| >= n
    case Regex(p) => Test(p, s)
    case Or(a, b) => Accepts(a, s) || Accepts(b, s)
  }

  /** `pluginSchemas`. */
  const Schemas: map<string, Schema> := map[
    "invoice-parser" := MinLength(10),
    "contact-extractor" := MinLength(10),
    "table-to-json" := Regex(IncludesIgnoreCase("<table")),
    "resume-parser" := MinLength(10),
    "meta-tag-extractor" := Regex(IncludesIgnoreCase("<meta")),
    "json-summary" := Or(Regex(Prefix("[")), Regex(Prefix("{"))),
    "csv-cleaner" := Regex(Includes(",")),
    "geojson-validator" := Regex(SpacedPair("\"type\":", "\"FeatureCollection\"")),
    "date-normalizer" := MinLength(5),
    "url-extractor" := MinLength(5)
  ]

  /** The message of the Error thrown for a rejected input. */
  function RejectMessage(pluginId: string): string {
    "Invalid input for plugin: " + pluginId
  }

  /** `validatePluginInput(pluginId, input)`: `true`, or the Error it throws. */
  function ValidatePluginInput(pluginId: string, input: string): (r: Result<bool>)
    ensures r.Success? ==> r.value
    ensures r.Failure? ==> r.error == RejectMessage(pluginId) && pluginId in Schemas
    ensures pluginId !in Schemas ==> r.Success?
    ensures pluginId in Schemas ==> (r.Success? <==> Accepts(Schemas[pluginId], input))
  {
    if pluginId !in Schemas then Success(true)
    else if !Accepts(Schemas[pluginId], input) then Failure(RejectMessage(pluginId))
    else Success(true)
  }

  /** An id without a schema accepts every input, the empty string included. */
  lemma UnlistedAcceptsAll(pluginId: string, input: string)
    requires pluginId !in Schemas
    ensures ValidatePluginInput(pluginId, input) == Success(true)
    ensures ValidatePluginInput(pluginId, "") == Success(true)
  {
  }

  /** The length rules. */
  lemma LengthRules(input: string)
    ensures ValidatePluginInput("invoice-parser", input).Success? <==> |input| >= 10
    ensures ValidatePluginInput("contact-extractor", input).Success? <==> |input| >= 10
    ensures ValidatePluginInput("resume-parser", input).Success? <==> |input| >= 10
    ensures ValidatePluginInput("date-normalizer", input).Success? <==> |input| >= 5
    ensures ValidatePluginInput("url-extractor", input).Success? <==> |input| >= 5
  {
  }

  /** The substring rules: `<table` and `<meta` in any case and at any position, and a comma. */
  lemma SubstringRules(input: string)
    ensures ValidatePluginInput("table-to-json", input).Success?
      <==> exists i | 0 <= i <= |input| :: AtIgnoreCase(input, i, "<table")
    ensures ValidatePluginInput("meta-tag-extractor", input).Success?
      <==> exists i | 0 <= i <= |input| :: AtIgnoreCase(input, i, "<meta")
    ensures ValidatePluginInput("csv-cleaner", input).Success? <==> ',' in input
  {
    if ',' in input {
      var i :| 0 <= i < |input| && input[i] == ',';
      assert At(input, i, ",");
    }
    if Contains(input, ",") {
      var i :| 0 <= i <= |input| && At(input, i, ",");
      assert input[i] == input[i..i + 1][0];
    }
  }

  /** json-summary accepts exactly inputs whose first character is `[` or `{`: leading white space is rejected. */
  lemma JsonSummaryRule(input: string)
    ensures ValidatePluginInput("json-summary", input).Success?
      <==> |input| > 0 && (input[0] == '[' || input[0] == '{')
    ensures ValidatePluginInput("json-summary", " []").Failure?
  {
    assert Schemas["json-summary"] == Or(Regex(Prefix("[")), Regex(Prefix("{")));
    if |input| > 0 {
      assert input[0..1] == [input[0]];
      assert StartsWith(input, "[") <==> input[0] == '[';
      assert StartsWith(input, "{") <==> input[0] == '{';
    }
    assert Accepts(Schemas["json-summary"], input) <==> StartsWith(input, "[") || StartsWith(input, "{");
    var s := " []";
    assert s[0..1] == " ";
  }

  /** geojson-validator: the marker `"type":`, white space, then `"FeatureCollection"`, anywhere. */
  lemma GeoJsonRule(input: string)
    ensures ValidatePluginInput("geojson-validator", input).Success?
      <==> exists i | 0 <= i <= |input| :: SpacedAt(input, i, "\"type\":", "\"FeatureCollection\"")
  {
  }

  /**
   * Any text holding the marker `"type":`, white space (line breaks
   * included, or none), then `"FeatureCollection"` passes, e.g.
   * `{"type":"FeatureCollection","features":[]}`.
   */
  lemma GeoJsonAcceptsMarker(a: string, ws: string, b: string)
    requires forall k :: 0 <= k < |ws| ==> IsSpace(ws[k])
    ensures ValidatePluginInput("geojson-validator", a + "\"type\":" + ws + "\"FeatureCollection\"" + b).Success?
  {
    SpacedPairFound(a, "\"type\":", ws, "\"FeatureCollection\"", b);
    assert Schemas["geojson-validator"] == Regex(SpacedPair("\"type\":", "\"FeatureCollection\""));
  }

  /** `before`, white space `ws`, then `after`, anywhere in a text, satisfy the pattern. */
  lemma SpacedPairFound(a: string, before: string, ws: string, after: string, b: string)
    requires forall k :: 0 <= k < |ws| ==> IsSpace(ws[k])
    ensures Test(SpacedPair(before, after), a + before + ws + after + b)
  {
    var s := a + before + ws + after + b;
    AtConcat(a, before, ws + after + b);
    assert a + before + (ws + after + b) == s;
    AtConcat(a + before + ws, after, b);
    var j := |a| + |before| + |ws|;
    assert All(s, |a| + |before|, j, IsSpace) by {
      forall k | |a| + |before| <= k < j ensures IsSpace(s[k]) {
        assert s[k] == ws[k - |a| - |before|];
      }
    }
    assert SpacedAt(s, |a|, before, after);
  }
}
