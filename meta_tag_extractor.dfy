/**
 * The meta-tag-extractor plugin `run(html)`: the title and the
 * `description` and `keywords` meta contents of a page, each the capture of
 * the first match of a lazy pattern with the `i` flag, or `undefined`.
 */
module MetaTagExtractor {
  import opened Wrappers
  import opened Delimited

  /** The object `run` returns; `None` stands for `undefined`. */
  datatype MetaTags = MetaTags(title: Option<string>, description: Option<string>, keywords: Option<string>)

  /** `/<title>(.*?)<\/title>/i`. */
  const TitleOpen := "<title>"
  const TitleClose := "</title>"
  /** `/<meta name="description" content="(.*?)"/i` and its keywords twin: the content runs up to the next `"`. */
  const DescriptionOpen := "<meta name=\"description\" content=\""
  const KeywordsOpen := "<meta name=\"keywords\" content=\""
  const Quote := "\""

  /**
   * `run(html)`: each field is the capture of the leftmost match of its
   * pattern, ignoring ASCII case, and `undefined` exactly when the pattern
   * matches nowhere.
   */
  function Run(html: string): (r: MetaTags)
    ensures IsFirstCapture(html, r.title, TitleOpen, TitleClose, true)
    ensures IsFirstCapture(html, r.description, DescriptionOpen, Quote, true)
    ensures IsFirstCapture(html, r.keywords, KeywordsOpen, Quote, true)
  {
    MetaTags(
      FirstCapture(html, TitleOpen, TitleClose, true),
      FirstCapture(html, DescriptionOpen, Quote, true),
      FirstCapture(html, KeywordsOpen, Quote, true))
  }

  /** Those three properties leave no choice: any result that has them is `run`'s. */
  lemma RunDetermined(html: string, r: MetaTags)
    requires IsFirstCapture(html, r.title, TitleOpen, TitleClose, true)
    requires IsFirstCapture(html, r.description, DescriptionOpen, Quote, true)
    requires IsFirstCapture(html, r.keywords, KeywordsOpen, Quote, true)
    ensures r == Run(html)
  {
    var q := Run(html);
    FirstCaptureUnique(html, r.title, q.title, TitleOpen, TitleClose, true);
    FirstCaptureUnique(html, r.description, q.description, DescriptionOpen, Quote, true);
    FirstCaptureUnique(html, r.keywords, q.keywords, KeywordsOpen, Quote, true);
  }
}
