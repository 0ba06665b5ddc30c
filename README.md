# Clippr scraping engine and plugins, in Dafny

This project models the core of Clippr, a web-scraping platform, and proves properties of the model. Clippr crawls a site, keeps the text and links of each page, and exports the results. It also runs small text-extraction plugins over user input.

The model covers four groups.

- **Plugin execution gate.**
  - `runPlugin` reads a plugin's manifest and checks its `entry` against the fixed script path. It imports the script, checks that the default export is a function, and runs it. Every failure is wrapped in one error message (`PluginLoader`).
  - `validatePluginInput` checks an input against a fixed table of per-plugin rules (`PluginValidator`).
- **Extraction plugins.** Each plugin is a handful of ECMAScript regular expressions over its input:
  - `CsvCleaner`, `TableToJson`, `ExamplePlugin`, `InvoiceParser`, `MetaTagExtractor`, `UrlExtractor`, `ContactExtractor` and `ResumeParser`;
  - with shared scanners in `Delimited` (lazy `<open>(.*?)<close>`) and `LabelledLine` (`<key>\s*(.*)`).

  Each pattern is a hand-written scanner that follows the backtracking matcher of section 22.2 of ECMA-262: leftmost match, greedy runs backing off, lazy runs stopping early. Each scanner is proved to find exactly the text the pattern describes.
- **Engine tables**, as classes whose methods update their fields:
  - the round-robin `ProxyManager` (`Proxies`) and the `HTTPWorker` that consumes it (`Worker`);
  - the `SchedulerService` task table (`Scheduling`);
  - the `PluginManager` installed-plugin table over its static registry (`Plugins`).

  A JavaScript `Map` is a map plus its keys in insertion order (`OrderedMaps`).
- **Scraper service** (`server/services/scraper.ts`):
  - the breadth-first `discoverUrls` walk (`Discovery`);
  - `scrapeUrl` with its title and text extraction (`PageText`, over the patterns of `HtmlPatterns` and the leftmost/global matching of `Matching`);
  - the three attribute extractors and the `scrapeWebsite` loop with its counters (`Scraper`);
  - the CSV, GeoJSON and KML exports (`ScrapeExport`).

Shared modules:
- `Wrappers` holds `Option` and `Result`.
- `Text` holds the character classes of JavaScript, `trim`, `split`, substring search and decimal rendering.
- `Records` holds plain objects as ordered entry lists, with the last-wins rule of `Object.fromEntries` and property assignment.

The outside world is passed in:
- the file reads, `JSON.parse` and `import()` of the loader;
- `fetch`, `new URL(...).href` and `.hostname`;
- `encodeURIComponent`;
- the outcome of running a scheduled task;
- whether `createScrapedData` succeeds.

Times are integers (milliseconds since the epoch), given as parameters.

## Model

| member | source | states |
|---|---|---|
| Delimited.FirstCloseSpec | ClippyV2_WebSocketQueue/server/plugins/example-plugin/script.ts:2 | `(.*?)</td>` stops at the first `close` after `k` reached without crossing a line terminator; no earlier index on that line holds `close` |
| Delimited.MatchAtSpec | ClippyV2_WebSocketQueue/server/plugins/example-plugin/script.ts:2 | a match at `i` is `open`, the fewest non-line-terminator characters, then `close`; without a match no `close` follows `open` on its line |
| Delimited.LeftmostSpec | ClippyV2_WebSocketQueue/server/plugins/example-plugin/script.ts:3 | `exec` from `lastIndex` reports a match and no match starts before it, or reports none and none exists |
| Delimited.ScanSpec | ClippyV2_WebSocketQueue/server/plugins/example-plugin/script.ts:3 | the spans computed are those `matchAll` reports: the leftmost match, then the matches from its end on |
| Delimited.ScanOfUnique | ClippyV2_WebSocketQueue/server/plugins/example-plugin/script.ts:3 | the matches `matchAll` reports are determined by the input |
| Delimited.ScanOfSpans | ClippyV2_WebSocketQueue/server/plugins/example-plugin/script.ts:3 | every reported span is a match, and each starts at or after the end of the previous one |
| Delimited.CapturesAreScan | ClippyV2_WebSocketQueue/server/plugins/example-plugin/script.ts:3-4 | the captures are the inner texts of the reported matches, in the same order |
| Delimited.FirstCapture | ClippyV2_WithTests/server/plugins/meta-tag-extractor/script.ts:2 | `s.match(re)?.[1]` is the capture of the leftmost place a match starts, `None` when there is none |
| Delimited.FirstCaptureSpec | ClippyV2_WithTests/server/plugins/meta-tag-extractor/script.ts:2 | the first capture is the first of all `matchAll` captures, and exists exactly when some match exists |
| Delimited.CapturesShape | ClippyV2_WebSocketQueue/server/plugins/example-plugin/script.ts:2-4 | every capture holds no line terminator and no `close`, and (case-sensitive) sits in the input between `open` and `close` |
| Delimited.MatchAtIffPair | ClippyV2_WebSocketQueue/server/plugins/example-plugin/script.ts:2 | the lazy pattern matches at `i` exactly when `open` is at `i` and a `close` follows on the same line |
| Delimited.CapturesEmpty | ClippyV2_WebSocketQueue/server/plugins/example-plugin/script.ts:3 | `matchAll` finds nothing exactly when no `open` is followed by a `close` on its line |
| Delimited.FirstCaptureUnique | ClippyV2_WithTests/server/plugins/meta-tag-extractor/script.ts:2 | at most one value has the first-capture property, so it determines `match`'s result |
| Delimited.CapturedAtUnique | ClippyV2_WebSocketQueue/server/plugins/example-plugin/script.ts:2 | the lazy `.*?` leaves no choice: a start index has at most one capture |
| Delimited.CapturesSkip | ClippyV2_WebSocketQueue/server/plugins/example-plugin/script.ts:3 | with no match between `from` and `to`, `matchAll` from either reports the same captures |
| ExamplePlugin.Run | ClippyV2_WebSocketQueue/server/plugins/example-plugin/script.ts:1-4 | every returned cell lies between `<td>` and `</td>` with no line break or `</td>` inside; the result is empty exactly when no `<td>` is followed by `</td>` on its line |
| ExamplePlugin.RunExample | ClippyV2_WebSocketQueue/server/plugins/example-plugin/script.ts:1-4 | `"<td>One</td><td>Two</td>"` gives `["One", "Two"]` |
| TableToJson.Run | ClippyV2_WithTests/server/plugins/table-to-json/script.ts:1-7 | one object per `<tr>…</tr>` match |
| TableToJson.ColumnKeyInjective | ClippyV2_WithTests/server/plugins/table-to-json/script.ts:5 | different cell indexes give different `col<n>` keys |
| TableToJson.RowObjectSpec | ClippyV2_WithTests/server/plugins/table-to-json/script.ts:4-5 | a row's object has one entry per cell, in order, keyed `col1`, `col2`, …; `Object.fromEntries` drops nothing |
| TableToJson.RunSpec | ClippyV2_WithTests/server/plugins/table-to-json/script.ts:2-6 | each row lies in the input between `<tr>` and `</tr>`, each value in its row between `<td>` and `</td>`, keyed by its position |
| MetaTagExtractor.Run | ClippyV2_WithTests/server/plugins/meta-tag-extractor/script.ts:1-6 | title, description and keywords are each the capture of the leftmost case-insensitive match of their pattern, `undefined` when none matches |
| MetaTagExtractor.RunDetermined | ClippyV2_WithTests/server/plugins/meta-tag-extractor/script.ts:2-5 | any result with those three properties is `run`'s |
| UrlExtractor.UrlEnd | ClippyV2_Validated/server/plugins/url-extractor/script.ts:2 | the match at `i` is a text the pattern describes and the longest such; none exists exactly when the scanner finds none; the character after it cannot extend it |
| UrlExtractor.HostRun | ClippyV2_Validated/server/plugins/url-extractor/script.ts:2 | an empty host run means no match; a host run with no `/` after it ends the longest match |
| UrlExtractor.PathRun | ClippyV2_Validated/server/plugins/url-extractor/script.ts:2 | with a `/` after the host, the greedy path run ends the longest match |
| UrlExtractor.SchemeUnique | ClippyV2_Validated/server/plugins/url-extractor/script.ts:2 | only one of `http://` and `https://` fits at an index, and every match has its host where the scanner looks |
| UrlExtractor.Run | ClippyV2_Validated/server/plugins/url-extractor/script.ts:1-4 | the result is the texts of the matches `matchAll` reports, in order; each starts with `http://` or `https://` and occurs in the input |
| UrlExtractor.UrlText | ClippyV2_Validated/server/plugins/url-extractor/script.ts:2 | a matched text starts with its scheme and occurs in the input |
| ContactExtractor.LastTld | ClippyV2_10Plugins/server/plugins/contact-extractor/script.ts:2 | the last `.` in a range that two letters follow, or none in the range |
| ContactExtractor.EmailEnd | ClippyV2_10Plugins/server/plugins/contact-extractor/script.ts:2 | the e-mail match at `i` is a text the pattern describes and the longest one there; none when the pattern describes none |
| ContactExtractor.NameRun | ClippyV2_10Plugins/server/plugins/contact-extractor/script.ts:2 | every e-mail text has its `@` right after the name run, so the run never backtracks |
| ContactExtractor.DomainRun | ClippyV2_10Plugins/server/plugins/contact-extractor/script.ts:2 | the final `.` of every e-mail text lies inside the domain run with two letters after it |
| ContactExtractor.EmailLongest | ClippyV2_10Plugins/server/plugins/contact-extractor/script.ts:2 | the scanner's text is an e-mail text and no longer one starts at `i` |
| ContactExtractor.EmailText | ClippyV2_10Plugins/server/plugins/contact-extractor/script.ts:2 | an e-mail text contains `@`, has five or more characters and ends in two ASCII letters |
| ContactExtractor.LastDigit | ClippyV2_10Plugins/server/plugins/contact-extractor/script.ts:3 | the last digit in a range, or none in the range |
| ContactExtractor.PhoneEnd | ClippyV2_10Plugins/server/plugins/contact-extractor/script.ts:3 | the phone match at `i` is a text the pattern describes and the longest one there; none when the pattern describes none |
| ContactExtractor.PhoneStart | ClippyV2_10Plugins/server/plugins/contact-extractor/script.ts:3 | a `+` at the start is always taken: every phone text has its first digit at the same place |
| ContactExtractor.PhoneRun | ClippyV2_10Plugins/server/plugins/contact-extractor/script.ts:3 | the last digit of every phone text lies inside the greedy class run |
| ContactExtractor.PhoneText | ClippyV2_10Plugins/server/plugins/contact-extractor/script.ts:3 | a phone text starts with `+` or a digit, ends with a digit and has nine or more characters |
| ContactExtractor.Emails | ClippyV2_10Plugins/server/plugins/contact-extractor/script.ts:2 | the texts of the e-mail matches `matchAll` reports, in order, each of e-mail shape |
| ContactExtractor.Phones | ClippyV2_10Plugins/server/plugins/contact-extractor/script.ts:3 | the texts of the phone matches `matchAll` reports, in order, each of phone shape |
| ContactExtractor.Run | ClippyV2_10Plugins/server/plugins/contact-extractor/script.ts:1-5 | both lists are what the two independent scans report, with the shapes above |
| LabelledLine.LineCapture | ClippyV2_WithTests/server/plugins/invoice-parser/script.ts:2 | `\s*(.*)` from `b` captures one line that starts with no white space, and is empty exactly when only white space follows |
| LabelledLine.LineSpanUnique | ClippyV2_WithTests/server/plugins/invoice-parser/script.ts:2 | the two greedy runs of `\s*(.*)` leave no choice |
| LabelledLine.RestOfLineUnique | ClippyV2_WithTests/server/plugins/invoice-parser/script.ts:2 | there is one text `\s*(.*)` captures from a given index |
| LabelledLine.FirstLabel | ClippyV2_WithTests/server/plugins/invoice-parser/script.ts:2 | the first occurrence of the key at or after `k`, ignoring ASCII case, or none |
| LabelledLine.FirstLine | ClippyV2_WithTests/server/plugins/invoice-parser/script.ts:2 | a capture it finds stays on one line: `.` does not match a line terminator |
| LabelledLine.FirstLineSpec | ClippyV2_WithTests/server/plugins/invoice-parser/script.ts:2 | `text.match(/<key>\s*(.*)/i)?.[1]`: the rest of the line after the key's first occurrence, `None` when it never occurs |
| LabelledLine.FirstAtUnique | ClippyV2_WithTests/server/plugins/invoice-parser/script.ts:2 | there is one first occurrence of a key |
| LabelledLine.IsFirstLineUnique | ClippyV2_WithTests/server/plugins/invoice-parser/script.ts:2 | the first match's capture is determined by the text |
| LabelledLine.OrElse | ClippyV2_WithTests/server/plugins/invoice-parser/script.ts:6 | JavaScript's `or` of a capture and a fallback: the capture when present and non-empty, the fallback otherwise |
| LabelledLine.FieldFallback | ClippyV2_WithTests/server/plugins/invoice-parser/script.ts:2-6 | the field falls back exactly when the key is missing or only white space follows its first occurrence; otherwise it is one non-empty line |
| InvoiceParser.DateMatch | ClippyV2_WithTests/server/plugins/invoice-parser/script.ts:3 | where the date capture starts when the pattern matches at `i`; the only place it can start |
| InvoiceParser.DateStart | ClippyV2_WithTests/server/plugins/invoice-parser/script.ts:3 | a date capture starts after all the white space, since a digit must follow |
| InvoiceParser.DateFrom | ClippyV2_WithTests/server/plugins/invoice-parser/script.ts:3 | an index it finds is at or after `k`, within the text, and the date pattern matches there |
| InvoiceParser.DateFromSpec | ClippyV2_WithTests/server/plugins/invoice-parser/script.ts:3 | the date pattern matches nowhere between `k` and the index found, and nowhere from `k` on when none is found |
| InvoiceParser.NoDate | ClippyV2_WithTests/server/plugins/invoice-parser/script.ts:3 | where the scanner finds nothing the pattern matches nowhere |
| InvoiceParser.FirstDate | ClippyV2_WithTests/server/plugins/invoice-parser/script.ts:3 | the capture of the leftmost date match, ten characters long, or `None` |
| InvoiceParser.FirstDateAtUnique | ClippyV2_WithTests/server/plugins/invoice-parser/script.ts:3 | there is one leftmost date match |
| InvoiceParser.IsFirstDateUnique | ClippyV2_WithTests/server/plugins/invoice-parser/script.ts:3 | there is one first date capture |
| InvoiceParser.TotalMatch | ClippyV2_WithTests/server/plugins/invoice-parser/script.ts:4 | a capture it finds at `i` is a match of the total pattern: `Total:`, white space, `$`, then digits and dots |
| InvoiceParser.TotalMatchSpec | ClippyV2_WithTests/server/plugins/invoice-parser/script.ts:4 | the capture `TotalMatch` finds at `i` starts after the `$` and is the longest run of digits and dots; none means the pattern cannot match there |
| InvoiceParser.TotalStart | ClippyV2_WithTests/server/plugins/invoice-parser/script.ts:4 | a total capture starts just after the `$` that ends the white space |
| InvoiceParser.TotalFrom | ClippyV2_WithTests/server/plugins/invoice-parser/script.ts:4 | an index it finds is at or after `k`, within the text, and the total pattern matches there |
| InvoiceParser.TotalFromSpec | ClippyV2_WithTests/server/plugins/invoice-parser/script.ts:4 | the total pattern matches nowhere between `k` and the index found, and nowhere from `k` on when none is found |
| InvoiceParser.NoTotal | ClippyV2_WithTests/server/plugins/invoice-parser/script.ts:4 | where the scanner finds nothing the pattern matches nowhere |
| InvoiceParser.FirstTotal | ClippyV2_WithTests/server/plugins/invoice-parser/script.ts:4 | the longest capture at the leftmost total match, a non-empty run of digits and dots, or `None` |
| InvoiceParser.FirstTotalAtUnique | ClippyV2_WithTests/server/plugins/invoice-parser/script.ts:4 | there is one leftmost total match and one longest capture there |
| InvoiceParser.IsFirstTotalUnique | ClippyV2_WithTests/server/plugins/invoice-parser/script.ts:4 | there is one first total capture |
| InvoiceParser.Run | ClippyV2_WithTests/server/plugins/invoice-parser/script.ts:1-10 | each field is its pattern's first capture, or "Unknown", "N/A" or "0.00" when it is absent or empty |
| InvoiceParser.RunDetermined | ClippyV2_WithTests/server/plugins/invoice-parser/script.ts:5-9 | any result with those properties is `run`'s |
| InvoiceParser.RunDefaults | ClippyV2_WithTests/server/plugins/invoice-parser/script.ts:7-8 | "N/A" exactly when no date matches; "0.00" when no total matches; a found date has ten characters and a found total only digits and dots |
| ResumeParser.KeyEnd | ClippyV2_10Plugins/server/plugins/resume-parser/script.ts:4 | where `Skills?:` ends at `i`, ignoring case; the only place it can end |
| ResumeParser.KeyUnique | ClippyV2_10Plugins/server/plugins/resume-parser/script.ts:4 | `Skills:` and `Skill:` cannot both occur at one index |
| ResumeParser.LastNewlineStart | ClippyV2_10Plugins/server/plugins/resume-parser/script.ts:4 | the largest white-space split from which `.*?` reaches a `\n`, or none |
| ResumeParser.SkillsMatch | ClippyV2_10Plugins/server/plugins/resume-parser/script.ts:4 | the match at `i` keeps as much white space as it can and stops at the first `\n`; none when the pattern cannot match there |
| ResumeParser.SkillsRun | ClippyV2_10Plugins/server/plugins/resume-parser/script.ts:4 | every skills match at `i` keeps white space only within the run after the key and ends at the first line terminator |
| ResumeParser.DroppedAtEnd | ClippyV2_10Plugins/server/plugins/resume-parser/script.ts:4 | a skills line that no `\n` ends is not matched |
| ResumeParser.SkillCapture | ClippyV2_10Plugins/server/plugins/resume-parser/script.ts:4 | the text the skills match at `i` captures, on one line |
| ResumeParser.Skills | ClippyV2_10Plugins/server/plugins/resume-parser/script.ts:4-5 | one capture per match `matchAll` reports, in order, each on one line |
| ResumeParser.FirstEmail | ClippyV2_10Plugins/server/plugins/resume-parser/script.ts:3 | the first e-mail the contact extractor would report, `None` when it reports none |
| ResumeParser.FirstEmailSpec | ClippyV2_10Plugins/server/plugins/resume-parser/script.ts:3 | that first e-mail is the text of the leftmost match |
| ResumeParser.Run | ClippyV2_10Plugins/server/plugins/resume-parser/script.ts:1-6 | name after the first `Name:` or "N/A", the first e-mail, and every skills capture in order |
| CsvCleaner.DropCr | ClippyV2_ProductionMVP/server/plugins/csv-cleaner/script.ts:2 | the line unchanged, or without its one final `\r` |
| CsvCleaner.SplitLines | ClippyV2_ProductionMVP/server/plugins/csv-cleaner/script.ts:2 | one piece per `\n`-separated part of the text |
| CsvCleaner.SplitLinesShape | ClippyV2_ProductionMVP/server/plugins/csv-cleaner/script.ts:2 | no piece of `split(/\r?\n/)` holds a `\n` |
| CsvCleaner.SplitLinesJoin | ClippyV2_ProductionMVP/server/plugins/csv-cleaner/script.ts:2 | lines joined with `\n` split back into the same lines when none holds `\n` or ends in `\r` |
| CsvCleaner.NonBlank | ClippyV2_ProductionMVP/server/plugins/csv-cleaner/script.ts:2 | the filter keeps no more lines than it is given, and none of them blank; which lines, and in what order, is stated by the two lemmas below |
| CsvCleaner.NonBlankAppend | ClippyV2_ProductionMVP/server/plugins/csv-cleaner/script.ts:2 | `filter` distributes over concatenation: the kept lines stay in input order, repeats included |
| CsvCleaner.NonBlankOne | ClippyV2_ProductionMVP/server/plugins/csv-cleaner/script.ts:2 | one line is kept exactly when its trimmed length is not zero |
| CsvCleaner.NonBlankKeeps | ClippyV2_ProductionMVP/server/plugins/csv-cleaner/script.ts:2 | a line is kept exactly when it is present and `trim()` leaves something |
| CsvCleaner.NonBlankEmpty | ClippyV2_ProductionMVP/server/plugins/csv-cleaner/script.ts:2 | nothing is kept exactly when every line is blank |
| CsvCleaner.CleanLines | ClippyV2_ProductionMVP/server/plugins/csv-cleaner/script.ts:2 | the lines split on `\r?\n` with the blank ones dropped: none of those kept is blank |
| CsvCleaner.Headers | ClippyV2_ProductionMVP/server/plugins/csv-cleaner/script.ts:3 | one header per comma-separated piece of the first line |
| CsvCleaner.Cells | ClippyV2_ProductionMVP/server/plugins/csv-cleaner/script.ts:4 | one cell per comma-separated piece of a line |
| CsvCleaner.LowerTrimmed | ClippyV2_ProductionMVP/server/plugins/csv-cleaner/script.ts:3 | lower-casing keeps a trimmed string trimmed and leaves no upper-case ASCII letter |
| CsvCleaner.HeadersAndCells | ClippyV2_ProductionMVP/server/plugins/csv-cleaner/script.ts:3-4 | every header is a trimmed, lower-case, comma-free piece; every cell a trimmed, comma-free piece |
| CsvCleaner.Keyed | ClippyV2_ProductionMVP/server/plugins/csv-cleaner/script.ts:5 | one entry per cell |
| CsvCleaner.Objects | ClippyV2_ProductionMVP/server/plugins/csv-cleaner/script.ts:5 | one object per data line |
| CsvCleaner.Run | ClippyV2_ProductionMVP/server/plugins/csv-cleaner/script.ts:1-6 | throws exactly when no line is left after filtering; otherwise one object per remaining line after the header line |
| CsvCleaner.RunFails | ClippyV2_ProductionMVP/server/plugins/csv-cleaner/script.ts:2-3 | `run` throws exactly when every line of the text is blank |
| CsvCleaner.LastKeyedValue | ClippyV2_ProductionMVP/server/plugins/csv-cleaner/script.ts:5 | reading a key of a row object gives the value of the last entry with that key |
| CsvCleaner.LastValueIsLast | ClippyV2_ProductionMVP/server/plugins/csv-cleaner/script.ts:5 | `Object.fromEntries` keeps the last entry with a key, and nothing for a key no entry has |
| CsvCleaner.RowRecord | ClippyV2_ProductionMVP/server/plugins/csv-cleaner/script.ts:5 | the object of one row, `Object.fromEntries` over the header and cell pairs; `RowRecordGet` states which property holds which cell |
| CsvCleaner.RowRecordGet | ClippyV2_ProductionMVP/server/plugins/csv-cleaner/script.ts:5 | a row has a property exactly for the headers of its cells, holding the cell of the last cell with that header |
| CsvCleaner.ExtraCellsUndefined | ClippyV2_ProductionMVP/server/plugins/csv-cleaner/script.ts:5 | cells past the last header go under "undefined", which keeps the last of them |
| CsvCleaner.RowRecordAligned | ClippyV2_ProductionMVP/server/plugins/csv-cleaner/script.ts:5 | with distinct headers and a row of the same length, header `i` holds cell `i`, in order |
| CsvCleaner.Example | ClippyV2_WebSocketQueue/server/test/plugin-harness.ts:35-37 | the "Messy CSV" input gives `[{name: "John", age: "30"}, {name: "Jane", age: "25"}]` |
| PluginLoader.JoinPath | ClippyV2_Hardened/server/engine/plugin-loader.ts:7-8 | `path.join(dir, name)` ends with `name` |
| PluginLoader.RunPlugin | ClippyV2_Hardened/server/engine/plugin-loader.ts:4-29 | the effects performed are a non-empty prefix of: read the manifest, import the script, invoke the body; every failure is re-thrown as one wrapped message |
| PluginLoader.GateExamples | ClippyV2_Hardened/server/engine/plugin-loader.ts:13-15 | the entry gate passes for `script.ts`, `t.ts` and the full script path, and fails for an empty, missing or different entry |
| PluginLoader.ImportOnlyScriptAfterGate | ClippyV2_Hardened/server/engine/plugin-loader.ts:8-17 | only the fixed script path is imported, whatever the manifest names, and only after the manifest was read and the gate passed |
| PluginLoader.InvokeOnlyWhenChecked | ClippyV2_Hardened/server/engine/plugin-loader.ts:17-22 | the body is invoked, once and with the unchanged input, exactly when the gate passes and the default export is a function |
| PluginLoader.SuccessIsBodyResult | ClippyV2_Hardened/server/engine/plugin-loader.ts:22-23 | success happens exactly when every check passes and the body succeeds, and returns the body's result |
| PluginLoader.FailureMessages | ClippyV2_Hardened/server/engine/plugin-loader.ts:10-27 | each failure is `Execution failed for plugin '<id>': <msg>` with the message of the read, the parse, the gate, the import, the shape check or the body |
| PluginLoader.Unwrap | ClippyV2_Hardened/server/engine/plugin-loader.ts:27 | an original message recovered from a wrapped one wraps back to it |
| PluginLoader.UnwrapWrap | ClippyV2_Hardened/server/engine/plugin-loader.ts:27 | wrapping loses nothing: the original message is recovered |
| PluginValidator.ValidatePluginInput | ClippyV2_Validated/server/engine/plugin-validator.ts:16-22 | returns `true` for an id without a schema; otherwise `true` exactly when the schema accepts the input, and throws the message naming the id when it does not; never `false` |
| PluginValidator.UnlistedAcceptsAll | ClippyV2_Validated/server/engine/plugin-validator.ts:17-18 | an id without a schema accepts every input, the empty one included |
| PluginValidator.LengthRules | ClippyV2_Validated/server/engine/plugin-validator.ts:4-13 | the length rules: 10 or more characters for three plugins, 5 or more for two |
| PluginValidator.SubstringRules | ClippyV2_Validated/server/engine/plugin-validator.ts:6-10 | `<table` and `<meta` in any case at any position, and a comma |
| PluginValidator.JsonSummaryRule | ClippyV2_Validated/server/engine/plugin-validator.ts:9 | json-summary accepts exactly inputs that start with `[` or `{`; leading white space is rejected |
| PluginValidator.GeoJsonRule | ClippyV2_Validated/server/engine/plugin-validator.ts:11 | geojson-validator accepts exactly inputs holding `"type":`, white space, `"FeatureCollection"` |
| PluginValidator.GeoJsonAcceptsMarker | ClippyV2_WebSocketQueue/server/test/plugin-harness.ts:39-43 | any text holding the marker passes, such as `{"type":"FeatureCollection","features":[]}` |
| PluginValidator.SpacedPairFound | ClippyV2_Validated/server/engine/plugin-validator.ts:11 | the marker with any white space between its halves satisfies the pattern |
| Proxies.NonBlankLines | server/engine/ProxyManager.ts:27 | keeps exactly the lines of the list that are not blank, and only those; order and repeats are stated by the two lemmas below |
| Proxies.NonBlankLinesAppend | server/engine/ProxyManager.ts:27 | `filter` distributes over concatenation, so the kept lines stay in list order and keep their repeats |
| Proxies.NonBlankLinesOne | server/engine/ProxyManager.ts:27 | one line is kept exactly when it is not blank |
| Proxies.LoadProxies | server/engine/ProxyManager.ts:21-39 | a loaded list never holds an empty entry |
| Proxies.LoadProxiesModes | server/engine/ProxyManager.ts:21-39 | custom mode with a list file: the non-blank lines of the trimmed file, or `Proxy list file not found: <file>` when it does not exist; a service without a key fails with its message, with a key yields the one service URL ending in `&url=`; mode none, or custom without a file, yields no proxy |
| Proxies.AgentFor | server/engine/ProxyManager.ts:53-57 | the agent is built for the proxy given, an HTTPS agent exactly when it starts with `https://` |
| Proxies.ProxyManager.constructor | server/engine/ProxyManager.ts:16-19 | a valid manager holding the loaded list with its cursor at 0 |
| Proxies.ProxyManager.Open | server/engine/ProxyManager.ts:16-39 | fails exactly when loading fails, with the same message; otherwise a fresh valid manager holding the loaded list, cursor at 0 |
| Proxies.ProxyManager.GetNextProxy | server/engine/ProxyManager.ts:41-47 | no proxy and no move for an empty list; otherwise the entry under the cursor, the cursor stepping on and wrapping round; the list is unchanged |
| Proxies.ProxyManager.CreateAgent | server/engine/ProxyManager.ts:49-58 | takes the next proxy as `getNextProxy` does and returns its agent, none for no proxy or an empty one |
| Proxies.Step | server/engine/ProxyManager.ts:45 | the cursor stays inside the list |
| Proxies.Calls | server/engine/ProxyManager.ts:41-47 | `k` calls return `k` entries |
| Proxies.CallsAt | server/engine/ProxyManager.ts:41-47 | up to `n` calls: the `t`-th returns the entry `t` places after the cursor, counting round, and the cursor ends `k` places on |
| Proxies.RoundRobin | server/engine/ProxyManager.ts:41-47 | `n` calls on `n` entries return the list rotated to the cursor: every proxy exactly once, in cyclic order, and the cursor is back where it started |
| Worker.HttpError | server/engine/HTTPWorker.ts:38 | the message starts with `HTTP ` and ends with `: <statusText>` |
| Worker.HttpErrorDetermines | server/engine/HTTPWorker.ts:38 | the message names the response: two messages are equal only for the same status and status text |
| Worker.Outcome | server/engine/HTTPWorker.ts:36-40 | a rejected `fetch` gives its error; a response that is not ok gives `HTTP <status>: <statusText>`; an ok one gives what `text()` resolves or rejects with; success exactly when the fetch resolves, the response is ok and `text()` resolves |
| Worker.Route | server/engine/HTTPWorker.ts:17-34 | the cursor stays inside the list, and an agent is only ever built for a listed proxy |
| Worker.RouteCases | server/engine/HTTPWorker.ts:17-34 | no manager list: the job URL as it is; empty proxy: no change but one step; service proxy: the proxy followed by the encoded URL, one step; custom proxy: the URL as it is with the agent of the NEXT entry, two steps |
| Worker.WrittenAgents | server/engine/HTTPWorker.ts:17-34 | `k` fetches send at most `k` agents |
| Worker.WrittenPairRepeats | server/engine/HTTPWorker.ts:21-28 | with two custom proxies every fetch uses the same one, never the one under the starting cursor |
| Worker.WrittenPairSkips | server/engine/HTTPWorker.ts:21-28 | a pair of distinct custom proxies: the first is never used |
| Worker.IntendedRoute | server/engine/HTTPWorker.ts:21-30 | the checked proxy is the one used, and the cursor moves on exactly once |
| Worker.IntendedAgents | server/engine/HTTPWorker.ts:21-30 | `k` fetches send at most `k` agents |
| Worker.IntendedAgentsAreCalls | server/engine/HTTPWorker.ts:21-30 | routed as intended, custom proxies are used in the order `getNextProxy` hands them out |
| Worker.IntendedRotation | server/engine/HTTPWorker.ts:21-30 | routed as intended, `n` fetches over `n` custom proxies use each exactly once |
| Worker.HttpWorker.constructor | server/engine/HTTPWorker.ts:14 | keeps the manager given, or none |
| Worker.HttpWorker.Fetch | server/engine/HTTPWorker.ts:16-41 | sends the request `Route` describes and leaves the cursor where it says (the job URL as it is without a manager); the result is `Outcome` of what `fetch` gives for that request, rejections included |
| Scheduling.Interval | server/services/scheduler.ts:76-96 | positive, one of four intervals: an hour, six hours or a week for the three matching cron strings, a day for anything else (the `0 0 * * *` case and the default agree) |
| Scheduling.TaskKeyInjective | server/services/scheduler.ts:99 | `task_<projectId>_<now>` ids are equal only for the same project at the same millisecond |
| Scheduling.KeyShape | server/services/scheduler.ts:99 | the project part of an id ends at the first `_` after the prefix |
| Scheduling.NewTask | server/services/scheduler.ts:100-111 | the new task is active, never run, keeps its fields, and is due one interval after now, strictly later |
| Scheduling.AfterTick | server/services/scheduler.ts:76-96 | a tick never changes a task's id, project, cron string, active flag or watch flag |
| Scheduling.AfterTickCases | server/services/scheduler.ts:76-96 | a task that is not due is untouched; a run that throws leaves it unchanged and still due; a run that returns moves `nextRun` past the tick and sets `lastRun` to its end exactly when the project was found |
| Scheduling.DueIds | server/services/scheduler.ts:34-35 | exactly the keys whose tasks are active and due |
| Scheduling.ForProject | server/services/scheduler.ts:137 | exactly the scheduled tasks of the project, no more than given; order and repeats are stated by the two lemmas below |
| Scheduling.ForProjectAppend | server/services/scheduler.ts:137 | the project filter distributes over concatenation, so the kept tasks stay in insertion order, each as often as given |
| Scheduling.ForProjectOne | server/services/scheduler.ts:137 | one task is kept exactly when it belongs to the project |
| Scheduling.Scheduler.constructor | server/services/scheduler.ts:17-22 | an empty, well-formed table |
| Scheduling.Scheduler.ScheduleTask | server/services/scheduler.ts:98-116 | returns `task_<projectId>_<now>`, stores the new task under it (a repeated id is replaced in place, a new one appended) and keeps the table well formed |
| Scheduling.Scheduler.CancelTask | server/services/scheduler.ts:118-126 | true exactly when the id was stored; afterwards it is not, and nothing else changes |
| Scheduling.Scheduler.GetTask | server/services/scheduler.ts:128-130 | the scheduled task stored under the id, exactly when there is one, and its id is the key |
| Scheduling.Scheduler.AllTasks | server/services/scheduler.ts:132-134 | every stored task once, and nothing else; the i-th result is what is stored under the i-th inserted id |
| Scheduling.Scheduler.TasksForProject | server/services/scheduler.ts:136-138 | the project filter over all stored tasks in insertion order, so exactly the stored tasks of the project, each once, in insertion order |
| Scheduling.Scheduler.CheckScheduledTasks | server/services/scheduler.ts:31-44 | runs exactly the due tasks in insertion order and gives each the update `AfterTick` describes; the ids and their order do not change |
| Scheduling.TickStep | server/services/scheduler.ts:34-43 | one step of the loop changes only the scheduled task it visits, which it finds as it was at the start |
| Scheduling.TickedTable | server/services/scheduler.ts:34-43 | a whole tick keeps the keys, ticks every task exactly once and keeps the table well formed |
| Plugins.Find | server/engine/PluginManager.ts:242 | a listing found has the id asked for and is in the registry; none is found only when no listing has that id |
| Plugins.MockRegistry | server/engine/PluginManager.ts:96-233 | the built-in registry: six listings with their ids, texts, links, categories, tags, download counts and dates; three featured ids; five categories with their counts. The lemmas below state its consistency |
| Plugins.RegistryCategoriesCounted | server/engine/PluginManager.ts:97-233 | each category of the registry announces exactly as many listings as it holds |
| Plugins.RegistryCategories | server/engine/PluginManager.ts:97-223 | the categories of the six listings, in registry order |
| Plugins.CategoriesOf | server/engine/PluginManager.ts:97-223 | one category per listing, in order |
| Plugins.RegistryFeaturedListed | server/engine/PluginManager.ts:224 | every featured id is the id of a listed plugin |
| Plugins.RegistryIdsDistinct | server/engine/PluginManager.ts:99-223 | no two listings share an id, so lookup by id is unambiguous |
| Plugins.Installed | server/engine/PluginManager.ts:249-270 | the installed record copies the listing's id, texts, category, tags, download URL and count, homepage, repository, icon and screenshots, is enabled, has an empty config and no dependencies, and is installed and updated now |
| Plugins.Offered | server/engine/PluginManager.ts:356-377 | a search result is the installed record except that it is not enabled and keeps the listing's update date |
| Plugins.Search | server/engine/PluginManager.ts:340-354 | exactly the listings that pass the category filter and the case-insensitive text filter, no more than given; registry order is stated by the two lemmas below |
| Plugins.SearchAppend | server/engine/PluginManager.ts:340-354 | the two filters distribute over concatenation, so the results keep registry order and repeats |
| Plugins.SearchOne | server/engine/PluginManager.ts:340-354 | one listing is kept exactly when it passes both filters |
| Plugins.SearchAll | server/engine/PluginManager.ts:344-349 | an empty query and no category filter nothing out |
| Plugins.WithFlag | server/engine/PluginManager.ts:401-402 | exactly the plugins with the flag asked for; order and repeats are stated by the two lemmas below |
| Plugins.WithFlagAppend | server/engine/PluginManager.ts:401-402 | the flag filter distributes over concatenation, so the kept plugins stay in installation order, each as often as given |
| Plugins.WithFlagOne | server/engine/PluginManager.ts:401-402 | one plugin is kept exactly when its `enabled` flag is the one asked for |
| Plugins.FlagsPartition | server/engine/PluginManager.ts:401-402 | enabled and disabled plugins add up to all of them |
| Plugins.After | server/engine/PluginManager.ts:404-405 | exactly the plugins installed, or updated, after the given time; order and repeats are stated by the two lemmas below |
| Plugins.AfterAppend | server/engine/PluginManager.ts:404-405 | the date filter distributes over concatenation, so the kept plugins stay in installation order, each as often as given |
| Plugins.AfterOne | server/engine/PluginManager.ts:404-405 | one plugin is kept exactly when its installation, or update, date is strictly later than the cut-off |
| Plugins.CountOf | server/engine/PluginManager.ts:392-394 | a category has no more plugins than there are |
| Plugins.CategoriesPartition | server/engine/PluginManager.ts:392-394 | the five category counts add up to the number of plugins |
| Plugins.PluginManager.constructor | server/engine/PluginManager.ts:77-86 | nothing installed, a well-formed table, the mock registry |
| Plugins.PluginManager.InstallPlugin | server/engine/PluginManager.ts:240-277 | an id the registry does not list fails with `Plugin <id> not found in registry` and changes nothing; otherwise the installed record of its listing is returned and stored under the id, in place when already there |
| Plugins.PluginManager.UninstallPlugin | server/engine/PluginManager.ts:279-290 | an absent id fails with `Plugin <id> not found` and changes nothing; otherwise exactly that plugin is removed and true is returned |
| Plugins.PluginManager.SetEnabled | server/engine/PluginManager.ts:292-312 | an absent id fails and changes nothing; otherwise only that plugin's flag is set |
| Plugins.PluginManager.UpdatePlugin | server/engine/PluginManager.ts:326-338 | an absent id fails and changes nothing; otherwise only that plugin's `lastUpdated` becomes now and it is returned |
| Plugins.PluginManager.SearchPlugins | server/engine/PluginManager.ts:340-379 | the offered records of exactly the matching listings, in registry order, none enabled, configured or depending on anything |
| Plugins.PluginManager.InstalledPlugins | server/engine/PluginManager.ts:314-316 | every installed plugin once, and nothing else; the i-th result is the plugin stored under the i-th installed id |
| Plugins.PluginManager.GetPlugin | server/engine/PluginManager.ts:318-320 | the plugin installed under the id, exactly when there is one |
| Plugins.PluginManager.EnabledPlugins | server/engine/PluginManager.ts:322-324 | the flag filter over all installed plugins in installation order, so exactly the enabled ones, each once, in installation order |
| Plugins.PluginManager.PluginStats | server/engine/PluginManager.ts:381-408 | the total is the number installed and the enabled and disabled counts add up to it; the categories hold exactly those that occur, with their counts; the recent lists are the date filter over the installed plugins in installation order, so exactly the plugins installed, or updated, within the last seven days, each once, in installation order |
| Plugins.WithEnabled | server/engine/PluginManager.ts:298-309 | same ids; the plugin's flag is set; every other plugin is unchanged |
| Plugins.WithEnabledIdempotent | server/engine/PluginManager.ts:292-312 | enabling or disabling twice is the same as once; the last call wins |
| Plugins.CountCategories | server/engine/PluginManager.ts:390-394 | the loop builds the tally of the plugins' categories |
| Plugins.Tally | server/engine/PluginManager.ts:390-394 | the categories object the `forEach` builds, one increment per plugin; `TallyCounts` states what it holds |
| Plugins.TallyCounts | server/engine/PluginManager.ts:390-394 | the tally holds exactly the categories that occur, each with its number of plugins |
| Plugins.CountOfAppend | server/engine/PluginManager.ts:393 | one more plugin adds one to its own category and nothing to the others |
| Plugins.TableSize | server/engine/PluginManager.ts:400 | a well-formed table has as many ids as plugins |
| OrderedMaps.DistinctSize | server/engine/PluginManager.ts:77 | distinct keys are as many as the set they make up |
| OrderedMaps.KeyedSize | server/engine/PluginManager.ts:400 | the size of a map is the length of its key order |
| OrderedMaps.InsertedKeyed | server/engine/PluginManager.ts:272 | `map.set` keeps the key order matching the map: a new key goes last, a present one keeps its place |
| OrderedMaps.Without | server/services/scheduler.ts:122 | the keys other than the one removed, and no more than there were; their order is stated by the two lemmas below |
| OrderedMaps.WithoutAppend | server/services/scheduler.ts:122 | removal distributes over concatenation, so the remaining keys keep their order |
| OrderedMaps.WithoutOne | server/services/scheduler.ts:122 | a single key is removed exactly when it is the one deleted |
| OrderedMaps.WithoutAbsent | server/services/scheduler.ts:122 | removing an absent key changes nothing |
| OrderedMaps.WithoutDistinct | server/services/scheduler.ts:122 | removing a key keeps the keys distinct |
| OrderedMaps.DeletedKeyed | server/engine/PluginManager.ts:285 | `map.delete` keeps the key order matching the map |
| OrderedMaps.DeletedAbsent | server/engine/PluginManager.ts:285 | `map.delete` of an absent key changes nothing |
| OrderedMaps.Values | server/services/scheduler.ts:133 | `Array.from(map.values())`: one value per key, each the value under that key |
| OrderedMaps.ValuesOfKeyed | server/engine/PluginManager.ts:314-316 | when every value records its own key, the values in order are exactly the map's values, with distinct keys |
| HtmlPatterns.QuotedEnd | server/services/scraper.ts:160-184 | `([^"]+)"` ends at a quote after a non-empty run holding no quote |
| HtmlPatterns.QuotedEndUnique | server/services/scraper.ts:160-184 | that closing quote is the only one that can close the value: the first quote after the start |
| HtmlPatterns.LastIsLargest | server/services/scraper.ts:160-184 | a greedy run backs off to the largest position where the rest matches |
| HtmlPatterns.NextIsSmallest | server/services/scraper.ts:137-138 | a lazy run stops at the smallest position where the rest matches |
| HtmlPatterns.NextSpec | server/services/scraper.ts:137-138 | the search for the smallest position passes over none that qualifies, and finds none only when no position in range qualifies |
| HtmlPatterns.Value | server/services/scraper.ts:160-184 | a captured attribute value is non-empty and holds no quote |
| HtmlPatterns.AttrAfter | server/services/scraper.ts:172-184 | `[^>]+attr="…"` finds an attribute after a non-empty run with no `>` |
| HtmlPatterns.AttrAfterIsLast | server/services/scraper.ts:172-184 | the attribute found is the last one before the first `>` |
| HtmlPatterns.HrefEnd | server/services/scraper.ts:102 | a match of `href="([^"]+)"` (case matters) at a position has the literal and a closed value there, and ends just after the closing quote |
| HtmlPatterns.HrefEndExact | server/services/scraper.ts:102 | conversely, wherever the literal, a non-empty value without quotes and a quote stand, the pattern matches there and ends after that quote |
| HtmlPatterns.TagAttr | server/services/scraper.ts:172-184 | `<tag[^>]+attr="([^"]+)"`, with the tag in any case, captures an attribute reached without crossing a `>` |
| HtmlPatterns.TagAttrEnd | server/services/scraper.ts:172-184 | the pattern matches at a position exactly when the attribute is found there, and the match ends just after the closing quote of the captured value |
| HtmlPatterns.NameAfter | server/services/scraper.ts:160 | `[^>]+name="…"[^>]+content="…"` finds a name attribute, followed by a content attribute, after a run with no `>` |
| HtmlPatterns.NameAfterIsLast | server/services/scraper.ts:160 | the name found is the last one before the first `>` that a content attribute follows |
| HtmlPatterns.MetaNameAt | server/services/scraper.ts:160 | a meta match starts with `<meta` in any case and captures a name then a content |
| HtmlPatterns.MetaContentAt | server/services/scraper.ts:160 | the content capture of a meta match is a closed attribute value |
| HtmlPatterns.MetaEnd | server/services/scraper.ts:160 | the meta pattern matches at a position exactly when a name and a content attribute are found there, and the match ends just after the closing quote of the content value |
| HtmlPatterns.TitleAt | server/services/scraper.ts:132 | a title match starts with `<title` in any case; the capture starts just after the first `>` that follows, is non-empty, holds no `<` and is closed by `</title>` in any case |
| HtmlPatterns.TitleAtExact | server/services/scraper.ts:132 | conversely, wherever `<title`, a run without `>`, a `>`, a non-empty run without `<` and `</title>` stand, the pattern matches there with that capture |
| HtmlPatterns.TitleEnd | server/services/scraper.ts:132 | the title pattern matches exactly where a capture is found, and the match ends just past the `</title>` that closes it |
| HtmlPatterns.ElementEnd | server/services/scraper.ts:137-138 | a script or style match starts with the opening tag in any case, passes the first `>` after it, and ends with a closing tag in any case |
| HtmlPatterns.ElementEndSpec | server/services/scraper.ts:137-138 | the lazy run stops at the first closing tag after that `>`; there is no match when the opening tag has no `>` or no closing tag follows |
| HtmlPatterns.TagEnd | server/services/scraper.ts:139 | a tag match runs from a `<` to the first `>` after it, with no `>` between; a `<` with no match has no `>` anywhere after it |
| HtmlPatterns.SpaceEnd | server/services/scraper.ts:140 | a white-space match takes the whole run of white space |
| PageText.MatchersAdvance | server/services/scraper.ts:137-140 | every pattern of the `replace` chain matches only non-empty text, so the global replace moves forward |
| PageText.ReplaceAll | server/services/scraper.ts:137-140 | `replace` with the `g` flag: each match replaced, the text between kept; a text the pattern matches nowhere comes back unchanged |
| PageText.TagsReplaced | server/services/scraper.ts:139 | replacing every tag by a space leaves no `<` with a `>` after it |
| PageText.Visible | server/services/scraper.ts:137-139 | script and style elements removed and every other tag turned into a space: no `<` is left with a `>` after it; its value on untagged text and on one tag is stated by the lemmas below |
| PageText.ReplaceOne | server/services/scraper.ts:137-140 | a global replace with a single match replaces that match and keeps the text on either side |
| PageText.VisiblePlain | server/services/scraper.ts:137-139 | text with no `<` passes through the three replacements unchanged |
| PageText.TagSpacedOne | server/services/scraper.ts:139 | the tag pattern turns the one tag between untagged text into a single space |
| PageText.VisibleTag | server/services/scraper.ts:137-139 | between untagged text, a tag with no `<` or `>` inside becomes exactly one space |
| PageText.Collapse | server/services/scraper.ts:140 | every run of white space replaced by one space: white space is left only as single spaces; its value is stated by the lemmas below |
| PageText.CollapsedSplice | server/services/scraper.ts:140 | where white space is already single spaces, replacing each run by a space leaves the text as it was |
| PageText.CollapseFixed | server/services/scraper.ts:140 | collapsing text whose white space is single spaces changes nothing |
| PageText.CollapseRun | server/services/scraper.ts:140 | a whole run of white space between text without white space and collapsed text becomes exactly one space |
| PageText.TextContent | server/services/scraper.ts:136-141 | the visible text, collapsed and trimmed: white space only as single spaces, none at either end |
| PageText.TextContentPlain | server/services/scraper.ts:136-141 | for untagged text whose white space is single spaces, the text content is the text trimmed |
| PageText.Content | server/services/scraper.ts:136-153 | the content is at most 5000 characters, a prefix of the text content, and the whole of it when that is short enough |
| PageText.SpacesCollapse | server/services/scraper.ts:140 | replacing every run of white space by one space leaves single spaces only |
| PageText.ContentCollapsed | server/services/scraper.ts:136-153 | the content holds only single spaces and never starts with one |
| PageText.TitleText | server/services/scraper.ts:132 | no title exactly when no title element matches; a capture is non-empty and holds no `<` |
| PageText.Title | server/services/scraper.ts:132-133 | the trimmed capture, or `Untitled` when no title element matches; it never holds `<` |
| PageText.TitleCases | server/services/scraper.ts:132-133 | `Untitled` when no title element matches; otherwise the trimmed capture of the first that does, holding no `<`, empty exactly when the capture is all white space |
| Matching.First | server/services/scraper.ts:163-189 | `exec` from `lastIndex` reports a match at or after it |
| Matching.FirstSpec | server/services/scraper.ts:163-189 | the match reported is the leftmost: none starts before it, and none is reported only when none starts anywhere |
| Matching.MatchAllSpec | server/services/scraper.ts:163-189 | the global matches are the leftmost match and then the matches from where it ends |
| Matching.MatchAll | server/services/scraper.ts:163-189 | the matches the `g` flag reports: the leftmost, then those from where it ends (or one further after an empty match); `MatchAllSpec` characterises them |
| Matching.MatchAllOfUnique | server/services/scraper.ts:163-189 | the matcher alone decides what the global matches are |
| Matching.MatchAllOfHits | server/services/scraper.ts:163-189 | every reported match is a real match and starts no earlier than the one before ends |
| Matching.MatchAllEmpty | server/services/scraper.ts:163-189 | nothing is reported exactly when the pattern matches nowhere |
| Matching.FirstHit | server/services/scraper.ts:132 | `match` without the `g` flag reports a real match |
| Matching.FirstHitIsFirst | server/services/scraper.ts:132 | that match is the leftmost, and the first the global matches report |
| Matching.Texts | server/services/scraper.ts:137-140 | one text per match, each the text of its match |
| Matching.MatchAllWithin | server/services/scraper.ts:163-189 | every reported match lies within the text |
| Matching.ExecAll | server/services/scraper.ts:163-189 | the `exec` loop over a pattern with non-empty matches reports exactly the global matches |
| Matching.ExecCaptures | server/services/scraper.ts:163-189 | the `exec` loop keeps one capture per global match, in match order |
| Matching.MatchAllOrdered | server/services/scraper.ts:137-140 | the matches of a pattern with non-empty matches come in order and do not overlap |
| Discovery.HrefAdvances | server/services/scraper.ts:102 | the link pattern only matches non-empty text |
| Discovery.Hrefs | server/services/scraper.ts:102-106 | one capture per match of the link pattern, each non-empty and free of quotes |
| Discovery.HrefsAt | server/services/scraper.ts:102-106 | each capture is the quoted value of the `href` attribute where its match starts |
| Discovery.Judge | server/services/scraper.ts:107-115 | a link not starting with `http` or `/` is ignored; a link queued has the start URL's host, and is the link itself when it starts with `http`, or the link resolved against the start URL when it starts with `/` |
| Discovery.Follow | server/services/scraper.ts:105-117 | no more URLs queued than links read, all on the start URL's host |
| Discovery.FollowAbandons | server/services/scraper.ts:99-120 | a link whose URL constructor throws ends the page: the links after it are never read |
| Discovery.FollowAppend | server/services/scraper.ts:105-117 | up to a throw, each link is judged on its own |
| Discovery.Links | server/services/scraper.ts:98-121 | every URL queued from a page has the start URL's host |
| Discovery.PageLinks | server/services/scraper.ts:99-120 | the `try` block queues exactly the URLs `Links` describes |
| Discovery.PathHost | server/services/scraper.ts:113 | every URL reached over links, other than the start URL, has the start URL's host |
| Discovery.Walk | server/services/scraper.ts:90-122 | the state of the `while` loop of `discoverUrls` between two turns: the queue holds link paths from the start URL, the found URLs are reached in order of path length, the `visited` set and the fetched pages agree with them, and every link of a fetched page is found or still queued |
| Discovery.WalkDone | server/services/scraper.ts:90-122 | once the queue is empty, every URL a fetched page links to has been found |
| Discovery.DiscoverUrls | server/services/scraper.ts:85-125 | nothing for a negative depth; otherwise the start URL first, each URL once, each reached over a shortest path of links, of at most `depth` links, in breadth-first order; every URL within `depth` links of the start URL is among them, and so is every URL linked from a page fetched; the pages fetched are exactly the URLs found at a depth below the bound, in order |
| Discovery.Search | server/services/scraper.ts:90-122 | the loop invariant of `discoverUrls`: the walk's state as `Walk` describes it, every URL found by a shortest path, and every URL nearer than the head of the queue already found |
| Discovery.Turn | server/services/scraper.ts:91-121 | one turn of the loop keeps the invariant and shortens the work left: the head is dropped when visited or too deep, otherwise it is found and, above the bound, its page's links are queued one level deeper |
| Discovery.SkipTurn | server/services/scraper.ts:93 | dropping a visited or too-deep head keeps the breadth-first invariant and shortens the work left |
| Discovery.VisitTurn | server/services/scraper.ts:95-117 | finding the head and queueing its page's links keeps the breadth-first invariant and shortens the work left |
| Discovery.VisitRemaining | server/services/scraper.ts:95-117 | the loop terminates: links queued one level below the head leave fewer depths, or fewer entries at the head's depth, to go |
| Discovery.ReachedLevel | server/services/scraper.ts:90-122 | the level step of breadth-first search: when every URL one link nearer than the head of the queue is found, so is every URL as near as the head |
| Discovery.ReachedOne | server/services/scraper.ts:98-117 | a path as long as the head's depth ends at a found URL, because its last link leaves a fetched page and nothing that shallow is still queued |
| Discovery.ShortestVisit | server/services/scraper.ts:93-96 | a URL taken from the head of the queue when every nearer URL is found is reached by no shorter path |
| Discovery.BfsSkip | server/services/scraper.ts:93 | dropping the head of the queue keeps the breadth-first facts |
| Discovery.BfsVisit | server/services/scraper.ts:95-117 | finding the head of the queue keeps the breadth-first facts |
| Discovery.Complete | server/services/scraper.ts:90-122 | once every link of every page within the bound is found, every URL within `depth` links of the start URL is found |
| Discovery.SearchDone | server/services/scraper.ts:90-124 | when the queue is empty the walk has the whole result of `discoverUrls`: shortest paths, completeness within the depth, the link closure and the pages fetched |
| Scraper.CaptureAt | server/services/scraper.ts:172-184 | the capture of a match is a non-empty quoted attribute value inside the match |
| Scraper.AttrValues | server/services/scraper.ts:170-192 | the captures of the `<tag[^>]+attr="…"` pattern, one per match |
| Scraper.ValuesInDocumentOrder | server/services/scraper.ts:170-192 | each captured value is a quoted value of the attribute in the page, one per match, in document order, none overlapping the next, repeats kept |
| Scraper.ValuesQuoted | server/services/scraper.ts:170-192 | one value per match, each the non-empty quoted value of an attribute of the page |
| Scraper.ValuesApart | server/services/scraper.ts:170-192 | each value ends before the next one starts |
| Scraper.ExtractImages | server/services/scraper.ts:170-180 | the `src` captures of the `<img` matches, in order |
| Scraper.ExtractLinks | server/services/scraper.ts:182-192 | the `href` captures of the `<a` matches, in order |
| Scraper.MetaPairs | server/services/scraper.ts:158-168 | the (name, content) captures of the meta pattern, one per match |
| Scraper.MetaPairsNonEmpty | server/services/scraper.ts:160-165 | one (name, content) pair per match, neither of them empty |
| Scraper.Names | server/services/scraper.ts:164 | the names of the pairs, in order |
| Scraper.AssignKeys | server/services/scraper.ts:159-165 | a name has a property exactly when some pair has that name |
| Scraper.LastWins | server/services/scraper.ts:164 | a name repeated keeps the content of its last occurrence |
| Scraper.ExtractMetaTags | server/services/scraper.ts:158-168 | the object the `exec` loop fills in, one assignment per pair in match order |
| Scraper.Scraped | server/services/scraper.ts:127-156 | the result built from a page: the URL given, a title without `<`, at most 5000 characters of content |
| Scraper.ScrapeOf | server/services/scraper.ts:127-156 | no result exactly when the fetch throws, otherwise the result built from the page |
| Scraper.ScrapeUrl | server/services/scraper.ts:127-156 | fails exactly when the fetch throws; otherwise a result for that URL whose content is at most 5000 characters |
| Scraper.EffectiveDepth | server/services/scraper.ts:25 | a missing depth or 0 becomes 2, any other depth is kept |
| Scraper.Kept | server/services/scraper.ts:33-36 | no more results than URLs |
| Scraper.KeptAppend | server/services/scraper.ts:33-36 | one more URL adds its result, when it has one |
| Scraper.KeptFrom | server/services/scraper.ts:33-36 | every kept result is the result of one of the URLs |
| Scraper.KeptAll | server/services/scraper.ts:33-36 | when every URL has a result, one is kept per URL, in order |
| Scraper.ScrapesFrom | server/services/scraper.ts:127-156 | each collected result belongs to one of the URLs and is built from the page fetched for it |
| Scraper.ScrapesAll | server/services/scraper.ts:33-36 | when every page can be fetched, there is one result per URL, in order |
| Scraper.StoredCount | server/services/scraper.ts:39-47 | no more stored than results |
| Scraper.StoredAppend | server/services/scraper.ts:39-47 | one more result adds one exactly when it is stored |
| Scraper.ScrapeAll | server/services/scraper.ts:30-58 | keeps a result per URL scraped, in order; one progress update per URL, its processed and failed counts adding up to the URLs seen; processed is the number stored |
| Scraper.ScrapeWebsite | server/services/scraper.ts:17-58 | the URLs are those discovery finds from the start URL to the effective depth: each is reached along a shortest chain of links, every URL within the effective depth of the start URL and every link of a page within the depth are among them, and the pages fetched are the prefix within the depth; the result of every fetchable URL is collected, in order; progress is reported after each URL |
| ScrapeExport.Preview | server/services/scraper.ts:255-285 | `content.substring(0, 200)`: a prefix of the content, 200 characters long or the whole content when shorter |
| ScrapeExport.DoubleQuotes | server/services/scraper.ts:254-255 | doubling quotes never shortens a cell |
| ScrapeExport.DoubleQuotesNone | server/services/scraper.ts:254-255 | a cell with no quote is left as it is |
| ScrapeExport.CsvTable | server/services/scraper.ts:251-258 | one header row and one row per result |
| ScrapeExport.ConvertToCsv | server/services/scraper.ts:250-261 | the export as written: the header line, then one line per result, every cell quoted and the cells joined by commas, the title and the preview with their quotes doubled and the URL as it is; `CsvRoundTrip` and `CsvQuotedUrlUnreadable` say what it reads back as |
| ScrapeExport.ReadRecords | server/services/scraper.ts:259-260 | the reader of section 2 of RFC 4180 (quoted fields, records ended by `\n`) the export is read back with; a text it accepts holds at least one record and no empty one |
| ScrapeExport.ReadDoubled | server/services/scraper.ts:254-259 | a quoted cell with its quotes doubled reads back, as in section 2 of RFC 4180, as the original value |
| ScrapeExport.ReadLine | server/services/scraper.ts:259 | a line of escaped, quoted, comma-separated cells reads back as its values |
| ScrapeExport.ReadTable | server/services/scraper.ts:258-260 | lines of escaped cells joined by newlines read back as the rows |
| ScrapeExport.CsvTableEscaped | server/services/scraper.ts:251-256 | when no URL holds a quote, every cell the code writes is its field escaped |
| ScrapeExport.ConvertToCsvEscaped | server/services/scraper.ts:250-261 | the export with the URL escaped like the other cells |
| ScrapeExport.CsvEscapedRoundTrip | server/services/scraper.ts:250-261 | with every cell escaped, the export reads back as the header and each result's URL, title and preview, for every input |
| ScrapeExport.CsvEscapedAgrees | server/services/scraper.ts:250-261 | when no URL holds a quote, the export as written and the escaped one are the same text |
| ScrapeExport.CsvRoundTrip | server/services/scraper.ts:250-261 | when no URL holds a quote, the export as written reads back as the header and each result's URL, title and preview |
| ScrapeExport.CsvQuotedUrlUnreadable | server/services/scraper.ts:253-259 | a URL with a quote followed by an ordinary character makes the export as written unreadable as RFC 4180 CSV |
| ScrapeExport.RowUnreadable | server/services/scraper.ts:259 | a quoted field closed early by an undoubled quote is rejected |
| ScrapeExport.FeatureOf | server/services/scraper.ts:266-277 | each feature is an RFC 7946 section 3.2 Feature with a Point geometry, and its properties are the URL, the title and the preview |
| ScrapeExport.ConvertToGeoJson | server/services/scraper.ts:263-279 | a FeatureCollection holding one Feature per result, in order; `GeoJsonConforms` and `GeoJsonRoundTrip` say what it is and what it reads back as |
| ScrapeExport.GeoJsonConforms | server/services/scraper.ts:263-279 | the export is an RFC 7946 section 3.3 FeatureCollection |
| ScrapeExport.GeoJsonRoundTrip | server/services/scraper.ts:263-279 | reading the features back gives each result's URL, title and preview, in order |
| ScrapeExport.ReadUntilFirst | server/services/scraper.ts:281-299 | text that does not end before the first occurrence of a delimiter reads back up to it |
| ScrapeExport.Placemark | server/services/scraper.ts:282-290 | one Placemark: the title as its name, the preview as a CDATA description, the point `0,0,0`; `ReadItem` reads it back |
| ScrapeExport.ConvertToKml | server/services/scraper.ts:281-299 | the document head, the placemarks joined with nothing between them, the document tail; `KmlRoundTrip` says what it reads back as |
| ScrapeExport.ReadKml | server/services/scraper.ts:281-299 | the reader the document is read back with: the head and the tail taken off, then each placemark's name and description, in order |
| ScrapeExport.NoFirstChar | server/services/scraper.ts:284 | text without the first character of the delimiter holds no earlier occurrence of it |
| ScrapeExport.ReadItem | server/services/scraper.ts:282-290 | one placemark reads back as its name and its description |
| ScrapeExport.ReadAllItems | server/services/scraper.ts:282-290 | the joined placemarks read back as the name and description pairs, in order |
| ScrapeExport.Unframed | server/services/scraper.ts:292-298 | the document frame around the placemarks is taken off exactly |
| ScrapeExport.TitlePreviews | server/services/scraper.ts:282-290 | one title and preview pair per result |
| ScrapeExport.PlacemarksAreItems | server/services/scraper.ts:282-290 | the placemarks are the items of the title and preview pairs |
| ScrapeExport.KmlRoundTrip | server/services/scraper.ts:281-299 | when no title or preview closes its element early, the document reads back as each result's title and preview, in order |
| ScrapeExport.ScrapedTitleKmlSafe | server/services/scraper.ts:132-133 | a scraped title never holds `<`, so it never closes its `<name>` early |
| Delimited.LeftmostCaptured | ClippyV2_WithTests/server/plugins/meta-tag-extractor/script.ts:2 | the capture of the leftmost match is the first capture `match` reports |
| Delimited.InnerShape | ClippyV2_WebSocketQueue/server/plugins/example-plugin/script.ts:2 | the text a match captures lies between `open` and `close`, with no line break and no `close` inside |
| Discovery.SkipStep | server/services/scraper.ts:93 | dropping an entry already visited, or deeper than the bound, keeps the walk's invariant |
| Discovery.VisitStep | server/services/scraper.ts:95-117 | visiting a new entry, and queueing its page's links one level deeper when it is above the bound, keeps the walk's invariant |
| Records.Put | server/services/scraper.ts:164 | `o[k] = v` keeps every existing key in place, and appends `k` with `v` when it is new |
| Records.PutGet | server/services/scraper.ts:164 | after `o[k] = v`, reading `k` gives `v` and reading any other key gives what it gave before |
| Records.PutLength | server/services/scraper.ts:164 | an assignment adds an entry exactly when the key is new |
| Records.PutDistinct | server/services/scraper.ts:164 | an assignment keeps the keys distinct |
| Records.FromEntries | ClippyV2_WithTests/server/plugins/table-to-json/script.ts:5 | `Object.fromEntries` gives an object with distinct keys |
| Records.FromEntriesGet | ClippyV2_ProductionMVP/server/plugins/csv-cleaner/script.ts:5 | under `Object.fromEntries`, a repeated key keeps its last value, and a missing key reads `undefined` |
| Records.FromEntriesDistinct | ClippyV2_WithTests/server/plugins/table-to-json/script.ts:5 | with distinct keys, `Object.fromEntries` keeps every entry, in order |
| Text.Lower | ClippyV2_ProductionMVP/server/plugins/csv-cleaner/script.ts:3 | `toLowerCase` keeps the length and lowers each ASCII letter, leaving every other character alone |
| Text.RunEnd | server/services/scraper.ts:139-140 | the end of the longest run of characters of a class |
| Text.Trim | ClippyV2_ProductionMVP/server/plugins/csv-cleaner/script.ts:2-4 | `trim()` gives a substring with no white space at either end, empty exactly when the string is all white space; what it strips before and after is all white space |
| Text.IndexOf | server/engine/ProxyManager.ts:27 | the first occurrence of a character, or the length when there is none |
| Text.Split | server/engine/ProxyManager.ts:27 | `split` on a character gives at least one piece, none holding the separator |
| Text.JoinSplit | server/engine/ProxyManager.ts:27 | joining the pieces of a split with the separator gives back the string |
| Text.SplitJoin | server/engine/ProxyManager.ts:27 | splitting pieces joined with a separator they do not hold gives back the pieces |
| Text.NatToStringInjective | ClippyV2_WithTests/server/plugins/table-to-json/script.ts:5 | different numbers render differently |
| Text.IntToString | server/services/scheduler.ts:99 | a rendering is digits after an optional leading minus sign |
| Text.IntToStringInjective | server/services/scheduler.ts:99 | different integers render differently |

## Left out

- Characters are Dafny characters, and `toLowerCase` and the `i` flag fold ASCII letters only. JavaScript folds all of Unicode, so `PluginManager.searchPlugins`, `CsvCleaner`'s header keys and the case-insensitive patterns are exact only for ASCII text. `\s` and `trim` use JavaScript's full white-space set. `substring` counts characters, not UTF-16 code units.
- Effects are not modelled; they become parameters or are dropped:
  - file reads, `import()`, `fetch`, `response.text()`, URL resolution and hostnames are function parameters;
  - console logging, `EventEmitter` emits, `setInterval`/`clearInterval` (the scheduler's minute timer and `destroy`) and the plugin directory creation of `PluginManager` are left out.
- `Date.now()` and `new Date()` become one integer parameter per call. `scheduleTask` and `updateNextRun` read the clock separately, so in the source they can differ by a millisecond; the model uses one `now`.
- `path.join` and `path.resolve` are plain concatenation with `/`. The loader has no path-safety check on the plugin id, and none is added.
- PluginValidator.ValidatePluginInput: the table is a finite map. In the source, an id that names an `Object.prototype` member (such as `toString`) finds an inherited function and crashes at `safeParse`; the model treats it as an unlisted id and accepts.
- The json-summary and geojson-validator plugins, date-normalizer and the other plugins are not part of this model. Only their validator rules are.
- TableToJson: the script holds escaped backticks around the key template (`table-to-json/script.ts:5`). The model uses the evident intent, keys `col<i+1>`.
- The concrete inputs of `plugin-harness.ts` are proved only for the CSV cleaner and the example plugin. For the other plugins, their outcomes follow from the general properties but are not stated as lemmas.
- `scrapeWebsite`:
  - the storage calls other than `createScrapedData` (job status, totals, project status) are not modelled;
  - the outer `catch` that marks the job failed is not modelled;
  - `generateExportFiles`, the zip archive and the file writes are not part of this model. The three serialisers they call are.
- Scraper.ScrapeWebsite: the results are stated through `ScrapeOf`, the function `ScrapeUrl` is proved to compute, rather than by calling the method in the loop.
- The `exec` loops are modelled in two steps: `Matching.ExecAll` collects the matches, and a capture function is applied per match (`ExecCaptures`). The `lastIndex` of the source is the loop variable.
- Scraper.ExtractMetaTags: the object is an ordered entry list. JavaScript lists integer-like keys first in ascending order and rejects a `__proto__` key; the model does neither.
- CsvCleaner.RowRecord: the same holds for the object `Object.fromEntries` builds from a row. A header such as `2` would come first in JavaScript; the model keeps header order.
- Plugins.PluginManager.PluginStats: `categories` is a map from category to count, so the order in which the source's object received its keys is not kept.
- Plugins.Installed: copies every field of the listing but `rating` and `size`, which are floating point numbers. The same two are left out of `Plugins.Offered`.
- Scheduling.Scheduler.CheckScheduledTasks: one call is one atomic tick over every scheduled task as it stood when the tick began. In the source, `setInterval` does not wait for the asynchronous check. A tick whose scrapes outlast a minute overlaps the next tick, which runs a task again while its first run is still in progress, because `nextRun` moves only after the run ends. The `for…of` loop also walks the live Map across its `await`s, so a task scheduled or cancelled meanwhile is visited or skipped. The model captures neither.
- Scraper.ScrapeWebsite: one `web.fetch` serves both discovery and scraping, so a page fetched twice yields the same text both times. In the source these are two separate network requests whose answers can differ.
- Plugins.PluginManager.SetEnabled, Plugins.PluginManager.UpdatePlugin, Scheduling.Scheduler.CancelTask and Scheduling.Scheduler.CheckScheduledTasks: the source changes the stored object itself (`enabled`, `lastUpdated`, `isActive`, `lastRun`, `nextRun`), so a caller that already holds that object sees the change. The model stores plugins and tasks as values and replaces the stored one with an updated copy, so aliasing is not captured.
- PageText.Visible: its value is stated for text with no `<` (`VisiblePlain`) and for one plain tag (`VisibleTag`). No lemma states the removal of a whole `script` or `style` element; for those only the absence of any tag left (`NoTagLeft`) is proved.
- ScrapeExport.ReadRecords: the RFC 4180 reader handles LF record separators and quoted fields only, which is what the export writes.
- ScrapeExport.IsFeature: geometries are limited to Point or null, the only ones the export writes; coordinates are integers.
- ScrapeExport.KmlRoundTrip: it requires every title and preview not to close its element early. A preview containing `]]>` ends the CDATA section (XML 1.0 section 2.7), and titles are not XML-escaped (section 2.4). Scraped titles never contain `<` (`ScrapedTitleKmlSafe`), but previews can contain `]]>`.
- Discovery.DiscoverUrls: `Array.from(urls)` over the set `urls` equals the list of URLs taken from the queue, since both only grow on a first visit. The model keeps the list.
- Worker.HttpWorker.Fetch and ScrapeExport.ConvertToCsv follow the code as written. The corrected versions in the findings below stand beside them.

## Findings

| source | as written | input that shows it | evidently intended | confidence | as-written member | corrected member |
|---|---|---|---|---|---|---|
| server/engine/HTTPWorker.ts:21-28 | `fetch` checks the proxy `getNextProxy` returns, then calls `createAgent`, which takes the NEXT proxy. A custom proxy's agent is built for the entry after the one checked, and the cursor moves twice per fetch | custom proxies `[a, b]`, cursor 0: every fetch uses `b`, and `a` is never used | build the agent for the proxy just checked, moving the cursor once, so `n` fetches use each of `n` proxies once | high, not executed | Worker.WrittenPairSkips | Worker.IntendedRotation |
| server/services/scraper.ts:253-259 | `convertToCSV` doubles the quotes of the title and the preview but not of the URL, then quotes every cell | a result whose URL is `a"b` | escape the URL like the other cells, so that every export reads back as RFC 4180 CSV | medium, not executed | ScrapeExport.CsvQuotedUrlUnreadable | ScrapeExport.CsvEscapedRoundTrip |
