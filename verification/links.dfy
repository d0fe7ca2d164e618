/**
 Links: internal when the `href` contains the domain, external otherwise,
 with verdicts on the total, internal and external counts.
 */
module LinkChecks {
  import opened Wrappers
  import opened Text
  import opened Outcomes
  import opened Partitions

  /** An `a` element: its `href` attribute (possibly absent) and its text. */
  datatype Link = Link(href: Option<string>, anchor: string)

  /** Every link has an `href`; the script's search fails on a missing one. */
  predicate AllHrefsPresent(links: seq<Link>)
  {
    forall k :: 0 <= k < |links| ==> links[k].href.Some?
  }

  predicate IsInternal(link: Link, domain: string)
  {
    link.href.Some? && ContainsFolded(link.href.value, domain)
  }

  function HrefMentionsDomain(domain: string): Link -> bool
  {
    link => IsInternal(link, domain)
  }

  /** The state of the script's link loop: its counters and lists. */
  datatype LinkTally = LinkTally(
    linkCount: nat,
    internalLinkCount: nat,
    internalLinks: seq<Link>,
    externalLinkCount: nat,
    externalLinks: seq<Link>)

  /**
   The link loop, one link at a time: every link bumps `link_count`, an
   external one bumps `external_link_count`, and nothing ever bumps
   `internal_link_count`, which stays at its initial zero.
   */
  function ScanLinks(links: seq<Link>, domain: string): (t: LinkTally)
    requires AllHrefsPresent(links)
    ensures t.linkCount == |links| == |t.internalLinks| + |t.externalLinks|
    ensures t.internalLinkCount == 0
    ensures t.externalLinkCount == |t.externalLinks|
    ensures t.internalLinks == Partition(links, HrefMentionsDomain(domain)).matching
    ensures t.externalLinks == Partition(links, HrefMentionsDomain(domain)).others
    decreases |links|
  {
    if |links| == 0 then LinkTally(0, 0, [], 0, [])
    else
      var t := ScanLinks(links[..|links| - 1], domain);
      var link := links[|links| - 1];
      if IsInternal(link, domain) then
        t.(linkCount := t.linkCount + 1, internalLinks := t.internalLinks + [link])
      else
        t.(linkCount := t.linkCount + 1,
           externalLinks := t.externalLinks + [link],
           externalLinkCount := t.externalLinkCount + 1)
  }

  datatype TotalVerdict =
    | LinksFound  // "N links were found in your content."
    | NoLinks     // "SEO best practices recommend 3 links and there are none ..."

  datatype InternalVerdict =
    | InternalFound  // "N internal links exist in your content."
    | NoInternal     // "There are no internal links."

  datatype ExternalVerdict =
    | NoExternal      // "There are no external links."
    | FewExternal     // one or two, printed yellow
    | EnoughExternal  // three or more, printed green

  function TotalSeverity(v: TotalVerdict): Severity
  {
    if v == LinksFound then Ok else Warning
  }

  function InternalSeverity(v: InternalVerdict): Severity
  {
    if v == InternalFound then Ok else Warning
  }

  function ExternalSeverity(v: ExternalVerdict): Severity
  {
    if v == EnoughExternal then Ok else Warning
  }

  /** Sites are advised to link out at least this many times. */
  const RecommendedLinks: nat := 3

  function ExternalVerdictOf(count: nat): (v: ExternalVerdict)
    ensures v == NoExternal <==> count == 0
    ensures v == FewExternal <==> 1 <= count < RecommendedLinks
    ensures v == EnoughExternal <==> count >= RecommendedLinks
  {
    if count < 1 then NoExternal
    else if count >= 1 && count <= 2 then FewExternal
    else EnoughExternal
  }

  datatype LinkFindings = LinkFindings(
    tally: LinkTally,
    total: TotalVerdict,
    internal: InternalVerdict,
    listsInternal: bool,
    external: ExternalVerdict,
    listsExternal: bool)

  /** The verdicts are read off the loop's counters, as the script reads them. */
  function AnalyzeLinks(links: seq<Link>, domain: string): (f: LinkFindings)
    requires AllHrefsPresent(links)
    ensures f.tally == ScanLinks(links, domain)
    ensures f.tally.linkCount == |links|
    ensures f.internal == NoInternal && !f.listsInternal
    ensures TotalSeverity(f.total) == Ok <==> |links| > 0
    ensures InternalSeverity(f.internal) == Warning
    ensures ExternalSeverity(f.external) == Ok <==> |f.tally.externalLinks| >= RecommendedLinks
    ensures f.total == NoLinks <==> |links| == 0
    ensures f.external == EnoughExternal <==> |f.tally.externalLinks| >= RecommendedLinks
    ensures f.external == NoExternal <==> |f.tally.externalLinks| == 0
    ensures f.listsExternal <==> |f.tally.externalLinks| > 0
  {
    var t := ScanLinks(links, domain);
    LinkFindings(
      t,
      if t.linkCount > 0 then LinksFound else NoLinks,
      if t.internalLinkCount < 1 then NoInternal else InternalFound,
      t.internalLinkCount > 0,
      ExternalVerdictOf(t.externalLinkCount),
      t.externalLinkCount > 0)
  }

  /**
   Because `internal_link_count` is never incremented, every document gets
   "There are no internal links." and its internal links are never listed,
   even when links containing the domain are present.
   */
  lemma InternalLinksNeverReported(links: seq<Link>, domain: string)
    requires AllHrefsPresent(links)
    ensures AnalyzeLinks(links, domain).internal == NoInternal
    ensures !AnalyzeLinks(links, domain).listsInternal
    ensures |AnalyzeLinks(links, domain).tally.internalLinks|
            == |links| - AnalyzeLinks(links, domain).tally.externalLinkCount
  {
  }

  lemma SiteHostIsInternal()
    ensures IsInternal(Link(Some("https://example.com/a"), "a"), "example.com")
  {
    var h := Lower("https://example.com/a");
    var p := Lower("example.com");
    assert h == "https://example.com/a" && p == "example.com";
    assert h[8..19] == p;
    assert MatchesAt(h, p, 8);
    ContainsFoldedOccurs("https://example.com/a", "example.com");
  }

  lemma OtherHostIsExternal()
    ensures !IsInternal(Link(Some("https://other.com/b"), "b"), "example.com")
  {
    var h := Lower("https://other.com/b");
    var p := Lower("example.com");
    assert h == "https://other.com/b" && p == "example.com";
    forall j | 0 <= j <= 8
      ensures !MatchesAt(h, p, j)
    {
      assert h[j] != 'e';
    }
    ContainsFoldedOccurs("https://other.com/b", "example.com");
  }

  /**
   A concrete instance: one link into the site and one out of it. The
   internal list holds the first link, yet the verdict says there are none.
   */
  lemma InternalLinkIgnored()
    ensures var f := AnalyzeLinks([Link(Some("https://example.com/a"), "a"),
                                   Link(Some("https://other.com/b"), "b")], "example.com");
            && f.tally.internalLinks == [Link(Some("https://example.com/a"), "a")]
            && f.internal == NoInternal
            && f.external == FewExternal
  {
    var inside := Link(Some("https://example.com/a"), "a");
    var outside := Link(Some("https://other.com/b"), "b");
    var d := "example.com";
    SiteHostIsInternal();
    OtherHostIsExternal();
    var links := [inside, outside];
    assert links[..1] == [inside];
    assert links[..1][..0] == [];
    var t := ScanLinks(links, d);
    assert t.internalLinks == [inside];
    assert t.externalLinkCount == 1;
  }
}
