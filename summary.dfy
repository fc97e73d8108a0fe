/**
 * `fetchArticleContent` with the network taken out: the page is an input,
 * `None` when fetching or reading it failed.
 */
module Summary {
  import opened Wrappers
  import opened LazyPattern

  /** `/<meta name="description" content="(.*?)"/i` */
  const MetaDescription := Pattern("<meta name=\"description\" content=\"", "\"")

  /** `/<p>(.*?)<\/p>/i` */
  const Paragraph := Pattern("<p>", "</p>")

  const ContentNotFound := "(content not found)"
  const FetchFailed := "(failed to fetch content)"

  /**
   * The summary of a page: the meta description when the page has one,
   * else the first paragraph, else the placeholder.
   */
  function Summarize(html: string): (r: string)
    ensures Matches(MetaDescription, html) ==>
      exists i: nat, k: nat :: IsFirstMatch(MetaDescription, html, i, k) && r == Capture(MetaDescription, html, i, k)
    ensures !Matches(MetaDescription, html) && Matches(Paragraph, html) ==>
      exists i: nat, k: nat :: IsFirstMatch(Paragraph, html, i, k) && r == Capture(Paragraph, html, i, k)
    ensures !Matches(MetaDescription, html) && !Matches(Paragraph, html) ==> r == ContentNotFound
  {
    match Find(MetaDescription, html)
    case Some(description) => description
    case None =>
      match Find(Paragraph, html)
      case Some(text) => text
      case None => ContentNotFound
  }

  /** What `fetchArticleContent` resolves to, given the outcome of fetching the page. */
  function ArticleContent(page: Option<string>): (r: string)
    ensures page.None? ==> r == FetchFailed
    ensures page.Some? ==> r == Summarize(page.value)
  {
    match page
    case None => FetchFailed
    case Some(html) => Summarize(html)
  }

  /** Only `"` itself matches the closing literal of the meta pattern. */
  lemma QuoteAt(s: string, m: nat)
    ensures LiteralAt(s, m, MetaDescription.close) <==> m < |s| && s[m] == '"'
  {
    if m < |s| {
      assert s[m..m + 1] == [s[m]];
    }
  }

  /**
   * When a page has a meta description, the summary is its first one (the
   * first clause of `Summarize`, whatever paragraphs come before it), and it
   * holds neither a `"` nor a line terminator.
   */
  lemma MetaDescriptionShape(html: string)
    requires Matches(MetaDescription, html)
    ensures '"' !in Summarize(html)
    ensures NoLineTerminator(Summarize(html))
  {
    FoundCaptureShape(MetaDescription, html);
    var r := Summarize(html);
    forall m: nat | m < |r|
      ensures r[m] != '"'
    {
      QuoteAt(r, m);
    }
  }

  /**
   * A prefix `<meta name="description" content="` whose text reaches a line
   * terminator before any `"` yields no match at that position.
   */
  lemma LineBreakBeforeQuote(html: string, i: nat, t: nat)
    requires LiteralAt(html, i, MetaDescription.open)
    requires BodyStart(MetaDescription, i) + t < |html|
    requires IsLineTerminator(html[BodyStart(MetaDescription, i) + t])
    requires '"' !in html[BodyStart(MetaDescription, i)..BodyStart(MetaDescription, i) + t]
    ensures forall k: nat :: !MatchAt(MetaDescription, html, i, k)
  {
    var j := BodyStart(MetaDescription, i);
    forall m: nat | m <= t
      ensures !CloseAt(MetaDescription, html, j, m)
    {
      QuoteAt(html, j + m);
      if m < t {
        assert html[j + m] == html[j..j + t][m];
      }
    }
    LineBreakBlocksMatch(MetaDescription, html, i, t);
  }

  /**
   * Without a meta description, a page with a paragraph is summarised by the
   * text of its first paragraph (second clause of `Summarize`), which holds
   * no line terminator and no `</p>` in any letter case.
   */
  lemma ParagraphShape(html: string)
    requires !Matches(MetaDescription, html) && Matches(Paragraph, html)
    ensures NoLineTerminator(Summarize(html))
    ensures forall m: nat :: !LiteralAt(Summarize(html), m, Paragraph.close)
  {
    assert Find(MetaDescription, html).None?;
    FoundCaptureShape(Paragraph, html);
  }
}
