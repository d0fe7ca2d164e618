/**
 One analysis run: resolve the keyword, title and description, then run the
 title, description, word count, density, image, link and heading checks in
 the order the console report prints them. A run that the script aborts on
 a missing field, an unbound title, no paragraph, a zero word count, a
 missing `alt` or a missing `href` yields the corresponding `Error` instead.
 */
module Engine {
  import opened Wrappers
  import opened Text
  import opened Outcomes
  import opened Resolve
  import opened TitleChecks
  import opened WordChecks
  import opened ImageChecks
  import opened LinkChecks
  import opened HeadingChecks

  /** What the Markdown conversion and the HTML parse extract from one document. */
  datatype Document = Document(
    frontMatter: FrontMatter,
    h1s: seq<string>,         // text of each `h1`, in order
    paragraphs: seq<string>,  // text of each `p`, in order
    textNodes: seq<string>,   // every text node of the HTML, in order
    images: seq<Image>,
    links: seq<Link>,
    outline: Outline)

  datatype Report = Report(
    keyword: string,
    title: TitleFindings,
    description: DescriptionFindings,
    wordCount: nat,
    wordBand: WordBand,
    density: DensityFindings,
    images: ImageFindings,
    links: LinkFindings,
    headings: HeadingFindings)

  /** The keyword, title and description resolve and there is a first paragraph. */
  predicate ResolvesInputs(doc: Document, mode: Mode)
  {
    && FocusKeyword(mode, doc.frontMatter).Success?
    && ResolveTitle(mode, doc.frontMatter, doc.h1s).Success?
    && |doc.paragraphs| > 0
    && ResolveDescription(mode, doc.frontMatter, doc.paragraphs[0]).Success?
  }

  /** Every lookup succeeds and none of the six `Error` conditions is present. */
  predicate Completes(doc: Document, mode: Mode)
  {
    && ResolvesInputs(doc, mode)
    && WordCount(doc.paragraphs) > 0
    && AllAltsPresent(doc.images)
    && AllHrefsPresent(doc.links)
  }

  function Analyze(doc: Document, domain: string, mode: Mode): (r: Result<Report, Error>)
    ensures r.Success? <==> Completes(doc, mode)
    // the first failing step decides the error, in the script's order
    ensures FocusKeyword(mode, doc.frontMatter).Failure? ==>
              r == Failure(FocusKeyword(mode, doc.frontMatter).error)
    ensures (FocusKeyword(mode, doc.frontMatter).Success?
             && ResolveTitle(mode, doc.frontMatter, doc.h1s).Failure?) ==>
              r == Failure(ResolveTitle(mode, doc.frontMatter, doc.h1s).error)
    ensures (FocusKeyword(mode, doc.frontMatter).Success?
             && ResolveTitle(mode, doc.frontMatter, doc.h1s).Success?
             && |doc.paragraphs| == 0) ==>
              r == Failure(NoParagraph)
    ensures (FocusKeyword(mode, doc.frontMatter).Success?
             && ResolveTitle(mode, doc.frontMatter, doc.h1s).Success?
             && |doc.paragraphs| > 0
             && ResolveDescription(mode, doc.frontMatter, doc.paragraphs[0]).Failure?) ==>
              r == Failure(ResolveDescription(mode, doc.frontMatter, doc.paragraphs[0]).error)
    ensures (ResolvesInputs(doc, mode) && WordCount(doc.paragraphs) == 0) ==>
              r == Failure(ZeroWordCount)
    ensures (ResolvesInputs(doc, mode) && WordCount(doc.paragraphs) > 0
             && !AllAltsPresent(doc.images)) ==>
              r == Failure(MissingAlt)
    ensures (ResolvesInputs(doc, mode) && WordCount(doc.paragraphs) > 0
             && AllAltsPresent(doc.images) && !AllHrefsPresent(doc.links)) ==>
              r == Failure(MissingHref)
    // what a completed report says about the document
    ensures r.Success? ==>
              var keyword := FocusKeyword(mode, doc.frontMatter).value;
              var description := ResolveDescription(mode, doc.frontMatter, doc.paragraphs[0]).value;
              && r.value.keyword == keyword
              && r.value.title == AnalyzeTitle(ResolveTitle(mode, doc.frontMatter, doc.h1s).value, keyword)
              && r.value.description == AnalyzeDescription(description, keyword)
              && r.value.wordCount == TotalWordEnds(doc.paragraphs)
              && r.value.wordBand == WordCountBand(r.value.wordCount)
              && r.value.density == AnalyzeDensity(WordCount(doc.paragraphs), doc.textNodes, keyword)
              && r.value.images == AnalyzeImages(doc.images, keyword)
              && r.value.links == AnalyzeLinks(doc.links, domain)
              && r.value.headings == AnalyzeHeadings(doc.outline, Mentions(keyword))
              && (r.value.title.placement == KeywordInTitle <==> ContainsFolded(r.value.title.title, keyword))
              && r.value.links.internal == NoInternal
              && r.value.headings.total == HeadingCount(doc.outline)
  {
    var keyword :- FocusKeyword(mode, doc.frontMatter);
    var title :- ResolveTitle(mode, doc.frontMatter, doc.h1s);
    if |doc.paragraphs| == 0 then Failure(NoParagraph)
    else
      var description :- ResolveDescription(mode, doc.frontMatter, doc.paragraphs[0]);
      var words := WordCount(doc.paragraphs);
      if words == 0 then Failure(ZeroWordCount)
      else if !AllAltsPresent(doc.images) then Failure(MissingAlt)
      else if !AllHrefsPresent(doc.links) then Failure(MissingHref)
      else
        WordCountCountsWords(doc.paragraphs);
        InternalLinksNeverReported(doc.links, domain);
        Success(Report(
          keyword,
          AnalyzeTitle(title, keyword),
          AnalyzeDescription(description, keyword),
          words,
          WordCountBand(words),
          AnalyzeDensity(words, doc.textNodes, keyword),
          AnalyzeImages(doc.images, keyword),
          AnalyzeLinks(doc.links, domain),
          AnalyzeHeadings(doc.outline, Mentions(keyword))))
  }
}
