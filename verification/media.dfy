/** Images: keyword in the `alt` text, and the zero-image failure. */
module ImageChecks {
  import opened Wrappers
  import opened Text
  import opened Outcomes
  import opened Partitions

  /** An `img` element: its `alt` attribute (possibly absent) and its `src`. */
  datatype Image = Image(alt: Option<string>, source: string)

  /** Every image has an `alt` attribute; the script's search fails on a missing one. */
  predicate AllAltsPresent(images: seq<Image>)
  {
    forall k :: 0 <= k < |images| ==> images[k].alt.Some?
  }

  predicate AltMentions(image: Image, keyword: string)
  {
    image.alt.Some? && ContainsFolded(image.alt.value, keyword)
  }

  function AltMentionsKeyword(keyword: string): Image -> bool
  {
    image => AltMentions(image, keyword)
  }

  datatype ImageVerdict =
    | ImagesFound  // "N image(s) were found in your content."
    | NoImages     // "There are no identifiable images."

  function ImageSeverity(v: ImageVerdict): Severity
  {
    match v
    case ImagesFound => Ok
    case NoImages => Fail
  }

  datatype ImageFindings = ImageFindings(
    count: nat, withKeyword: seq<Image>, withoutKeyword: seq<Image>, verdict: ImageVerdict)
  {
    /** The two sub-sections printed, each only when its list is non-empty. */
    predicate ListsWithKeyword() { verdict == ImagesFound && |withKeyword| > 0 }
    predicate ListsWithoutKeyword() { verdict == ImagesFound && |withoutKeyword| > 0 }
  }

  function AnalyzeImages(images: seq<Image>, keyword: string): (f: ImageFindings)
    requires AllAltsPresent(images)
    ensures f.count == |images|
    ensures |f.withKeyword| + |f.withoutKeyword| == f.count
    ensures forall k :: 0 <= k < |f.withKeyword| ==>
              f.withKeyword[k].alt.Some? && ContainsFolded(f.withKeyword[k].alt.value, keyword)
    ensures forall k :: 0 <= k < |f.withoutKeyword| ==>
              f.withoutKeyword[k].alt.Some? && !ContainsFolded(f.withoutKeyword[k].alt.value, keyword)
    ensures multiset(f.withKeyword) + multiset(f.withoutKeyword) == multiset(images)
    ensures f.withKeyword == Partition(images, AltMentionsKeyword(keyword)).matching
    ensures f.withoutKeyword == Partition(images, AltMentionsKeyword(keyword)).others
    ensures f.verdict == NoImages <==> |images| == 0
    ensures ImageSeverity(f.verdict) == Fail <==> |images| == 0
  {
    var bins := Partition(images, AltMentionsKeyword(keyword));
    PartitionPermutes(images, AltMentionsKeyword(keyword));
    forall k | 0 <= k < |bins.others|
      ensures bins.others[k].alt.Some?
    {
      PartitionMembership(images, AltMentionsKeyword(keyword), bins.others[k]);
    }
    var verdict := if |images| >= 1 then ImagesFound else NoImages;
    ImageFindings(|images|, bins.matching, bins.others, verdict)
  }

  /**
   The "with keyword" sub-section is printed iff some image's `alt` mentions
   the keyword, and the "without" one iff some image's `alt` does not.
   */
  lemma ImageListsPrinted(images: seq<Image>, keyword: string)
    requires AllAltsPresent(images)
    ensures AnalyzeImages(images, keyword).ListsWithKeyword() <==>
              exists k :: 0 <= k < |images| && AltMentions(images[k], keyword)
    ensures AnalyzeImages(images, keyword).ListsWithoutKeyword() <==>
              exists k :: 0 <= k < |images| && !AltMentions(images[k], keyword)
  {
    var f := AnalyzeImages(images, keyword);
    var inside := AltMentionsKeyword(keyword);
    if f.ListsWithKeyword() {
      PartitionMembership(images, inside, f.withKeyword[0]);
      var k :| 0 <= k < |images| && images[k] == f.withKeyword[0];
      assert AltMentions(images[k], keyword);
    }
    if exists k :: 0 <= k < |images| && AltMentions(images[k], keyword) {
      var k :| 0 <= k < |images| && AltMentions(images[k], keyword);
      PartitionMembership(images, inside, images[k]);
    }
    if f.ListsWithoutKeyword() {
      PartitionMembership(images, inside, f.withoutKeyword[0]);
      var k :| 0 <= k < |images| && images[k] == f.withoutKeyword[0];
      assert !AltMentions(images[k], keyword);
    }
    if exists k :: 0 <= k < |images| && !AltMentions(images[k], keyword) {
      var k :| 0 <= k < |images| && !AltMentions(images[k], keyword);
      PartitionMembership(images, inside, images[k]);
    }
  }
}
