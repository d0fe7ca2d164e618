/**
 Resolution of the three inputs every check depends on: the focus keyword,
 the title and the meta description, from the run mode, the document's
 front matter and its first `h1` and `p`.
 */
module Resolve {
  import opened Wrappers
  import opened Text
  import opened Outcomes

  /** Front matter as the Markdown `meta` extension exposes it: field name to its lines. */
  type FrontMatter = map<string, seq<string>>

  /** The two sub-commands and their options. */
  datatype Mode =
    | WithFrontMatter(keywordField: string, descriptionField: Option<string>)
    | WithoutFrontMatter(keyword: string, title: Option<string>, description: Option<string>)

  /** Meta descriptions default to this many leading characters of the first paragraph. */
  const DescriptionWidth: nat := 160

  /** `front_matter[name][0]`: the first line of a field; a missing field stops the run. */
  function FirstLine(fm: FrontMatter, name: string): (r: Result<string, Error>)
    ensures r.Success? <==> name in fm && |fm[name]| > 0
    ensures r.Success? ==> r.value == fm[name][0]
    ensures r.Failure? ==> r.error == MissingField(name)
  {
    if name in fm && |fm[name]| > 0 then Success(fm[name][0]) else Failure(MissingField(name))
  }

  /**
   The focus keyword: the first comma-separated item of the keyword field
   (looked up lower-cased), or the keyword given on the command line.
   */
  function FocusKeyword(mode: Mode, fm: FrontMatter): (r: Result<string, Error>)
    ensures mode.WithoutFrontMatter? ==> r == Success(mode.keyword)
    ensures mode.WithFrontMatter? ==>
              var field := Lower(mode.keywordField);
              && (r.Success? <==> field in fm && |fm[field]| > 0)
              && (r.Failure? ==> r.error == MissingField(field))
              && (r.Success? ==>
                    && r.value <= fm[field][0]
                    && ',' !in r.value
                    && (|r.value| < |fm[field][0]| ==> fm[field][0][|r.value|] == ','))
  {
    match mode
    case WithFrontMatter(keywordField, _) =>
      var keywords :- FirstLine(fm, Lower(keywordField));
      Success(FirstCommaField(keywords))
    case WithoutFrontMatter(keyword, _, _) =>
      Success(keyword)
  }

  /**
   The title: the front-matter `title` field; otherwise a non-empty `--title`
   option; otherwise the text of the first `h1`. With none of these the
   script's `title` is unbound, which this model reports as an error.
   */
  function ResolveTitle(mode: Mode, fm: FrontMatter, h1s: seq<string>): (r: Result<string, Error>)
    ensures mode.WithFrontMatter? ==>
              (r.Success? <==> "title" in fm && |fm["title"]| > 0)
              && (r.Success? ==> r.value == fm["title"][0])
              && (r.Failure? ==> r.error == MissingField("title"))
    ensures mode.WithoutFrontMatter? ==>
              var usable := mode.title.Some? && mode.title.value != "";
              && (r.Failure? <==> !usable && |h1s| == 0)
              && (r.Failure? ==> r.error == UnboundTitle)
              && (usable ==> r == Success(mode.title.value))
              && (!usable && |h1s| > 0 ==> r == Success(h1s[0]))
  {
    match mode
    case WithFrontMatter(_, _) =>
      FirstLine(fm, "title")
    case WithoutFrontMatter(_, title, _) =>
      if title.Some? && title.value != "" then Success(title.value)
      else if |h1s| > 0 then Success(h1s[0])
      else Failure(UnboundTitle)
  }

  /** `p[0:160]`: the first paragraph cut to the description width. */
  function DefaultDescription(firstParagraph: string): (r: string)
    ensures r <= firstParagraph
    ensures |r| == if |firstParagraph| < DescriptionWidth then |firstParagraph| else DescriptionWidth
  {
    if |firstParagraph| <= DescriptionWidth then firstParagraph
    else firstParagraph[..DescriptionWidth]
  }

  /**
   The meta description: with front matter and a non-empty description field
   name, that field (looked up lower-cased); without front matter and with a
   `--desc` option (even an empty one), the option; otherwise the first 160
   characters of the first paragraph.
   */
  function ResolveDescription(mode: Mode, fm: FrontMatter, firstParagraph: string): (r: Result<string, Error>)
    ensures mode.WithFrontMatter? && mode.descriptionField.Some? && mode.descriptionField.value != "" ==>
              var field := Lower(mode.descriptionField.value);
              && (r.Success? <==> field in fm && |fm[field]| > 0)
              && (r.Success? ==> r.value == fm[field][0])
              && (r.Failure? ==> r.error == MissingField(field))
    ensures mode.WithoutFrontMatter? && mode.description.Some? ==>
              r == Success(mode.description.value)
    ensures (mode.WithFrontMatter? && (mode.descriptionField.None? || mode.descriptionField.value == ""))
            || (mode.WithoutFrontMatter? && mode.description.None?) ==>
              && r.Success?
              && r.value <= firstParagraph
              && |r.value| == if |firstParagraph| < DescriptionWidth then |firstParagraph| else DescriptionWidth
  {
    match mode
    case WithFrontMatter(_, descriptionField) =>
      if descriptionField.Some? && descriptionField.value != "" then
        FirstLine(fm, Lower(descriptionField.value))
      else
        Success(DefaultDescription(firstParagraph))
    case WithoutFrontMatter(_, _, description) =>
      if description.Some? then Success(description.value)
      else Success(DefaultDescription(firstParagraph))
  }
}
