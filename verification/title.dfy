/**
 The title checks (length band and keyword placement) and the meta
 description keyword check.
 */
module TitleChecks {
  import opened Wrappers
  import opened Text
  import opened Outcomes

  /** Search results typically show 50 to 60 characters of a title. */
  const TitleMaxLength: nat := 60

  datatype Placement =
    | KeywordInTitle      // "The focus keyword is in the title."
    | KeywordAtBeginning  // "... in the title and placed at the beginning."
    | KeywordNotInTitle   // "The keyword does not appear in the title."

  datatype TitleFindings = TitleFindings(title: string, length: nat, lengthSeverity: Severity, placement: Placement)

  function TitleLengthSeverity(title: string): (s: Severity)
    ensures s == Ok <==> |title| <= TitleMaxLength
    ensures s == Fail <==> |title| > TitleMaxLength
  {
    if |title| <= TitleMaxLength then Ok else Fail
  }

  /** `match.span()[1]`: the end offset of a search result (0 when there is none). */
  function MatchEnd(m: Option<nat>, pat: string): nat
  {
    match m
    case Some(start) => start + |pat|
    case None => 0
  }

  /** The guard of the "placed at the beginning" branch: a match ending in the first half. */
  predicate EndsInFirstHalf(title: string, keyword: string)
  {
    var m := FindFolded(title, keyword);
    m.Some? && 2 * MatchEnd(m, keyword) <= |title|
  }

  /**
   Keyword placement, with the script's branch order: any match selects the
   first branch, so the "at the beginning" branch, whose guard also needs a
   match, is never taken.
   */
  function TitlePlacement(title: string, keyword: string): (p: Placement)
    ensures p == KeywordInTitle <==> ContainsFolded(title, keyword)
    ensures p == KeywordNotInTitle <==> !ContainsFolded(title, keyword)
    ensures p != KeywordAtBeginning
  {
    var m := FindFolded(title, keyword);
    if m.Some? then KeywordInTitle
    else if m.Some? && 2 * MatchEnd(m, keyword) <= |title| then KeywordAtBeginning
    else KeywordNotInTitle
  }

  /**
   The "at the beginning" guard is satisfiable, so its message is lost only
   to the branch order: "SEO basics" with keyword "seo" matches in its first half
   and is still reported as merely in the title.
   */
  lemma BeginningGuardSatisfiable()
    ensures EndsInFirstHalf("SEO basics", "seo")
    ensures TitlePlacement("SEO basics", "seo") == KeywordInTitle
  {
    var t, k := "SEO basics", "seo";
    assert Lower(t)[0..3] == Lower(k);
    assert MatchesAt(Lower(t), Lower(k), 0);
  }

  function PlacementSeverity(p: Placement): Severity
  {
    match p
    case KeywordInTitle => Ok
    case KeywordAtBeginning => Ok
    case KeywordNotInTitle => Fail
  }

  function AnalyzeTitle(title: string, keyword: string): (f: TitleFindings)
    ensures f.title == title && f.length == |title|
    ensures f.lengthSeverity == TitleLengthSeverity(title)
    ensures f.placement == TitlePlacement(title, keyword)
    ensures f.lengthSeverity == Fail <==> |title| > TitleMaxLength
    ensures f.placement != KeywordAtBeginning
    ensures f.lengthSeverity == Ok <==> |title| <= TitleMaxLength
    ensures PlacementSeverity(f.placement) == Ok <==> ContainsFolded(title, keyword)
    ensures PlacementSeverity(f.placement) == Fail <==> !ContainsFolded(title, keyword)
  {
    TitleFindings(title, |title|, TitleLengthSeverity(title), TitlePlacement(title, keyword))
  }

  // ---------------------------------------------------------------------------
  // Meta description

  datatype DescriptionPlacement =
    | KeywordInDescription     // printed green
    | KeywordNotInDescription  // printed without colour

  datatype DescriptionFindings = DescriptionFindings(description: string, placement: DescriptionPlacement)

  function DescriptionSeverity(p: DescriptionPlacement): Severity
  {
    match p
    case KeywordInDescription => Ok
    case KeywordNotInDescription => Neutral
  }

  /** Only keyword presence is judged; the description's length is computed but never checked. */
  function AnalyzeDescription(description: string, keyword: string): (f: DescriptionFindings)
    ensures f.description == description
    ensures f.placement == KeywordInDescription <==> ContainsFolded(description, keyword)
    ensures DescriptionSeverity(f.placement) == Neutral <==> !ContainsFolded(description, keyword)
  {
    var placement := if ContainsFolded(description, keyword) then KeywordInDescription else KeywordNotInDescription;
    DescriptionFindings(description, placement)
  }
}
