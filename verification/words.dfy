/**
 Word count over the paragraphs, its three bands, and the keyword target,
 density and "add N more" guidance derived from it.
 */
module WordChecks {
  import opened Wrappers
  import opened Text
  import opened Outcomes
  import opened Partitions

  // ---------------------------------------------------------------------------
  // Word count

  /** `word_count += len(p.split())` over the paragraphs, in order. */
  function WordCount(paragraphs: seq<string>): nat
    decreases |paragraphs|
  {
    if |paragraphs| == 0 then 0
    else WordCount(paragraphs[..|paragraphs| - 1]) + |Split(paragraphs[|paragraphs| - 1])|
  }

  /** Reference total: word ends summed over the paragraphs, independent of `Split`. */
  function TotalWordEnds(paragraphs: seq<string>): nat
  {
    if |paragraphs| == 0 then 0 else WordEnds(paragraphs[0]) + TotalWordEnds(paragraphs[1..])
  }

  lemma {:induction false} WordCountConcat(xs: seq<string>, ys: seq<string>)
    ensures WordCount(xs + ys) == WordCount(xs) + WordCount(ys)
    decreases |ys|
  {
    if |ys| == 0 {
      assert xs + ys == xs;
    } else {
      assert (xs + ys)[..|xs + ys| - 1] == xs + ys[..|ys| - 1];
      WordCountConcat(xs, ys[..|ys| - 1]);
    }
  }

  /** The word count is the number of whitespace-delimited tokens across all paragraphs. */
  lemma {:induction false} WordCountCountsWords(paragraphs: seq<string>)
    ensures WordCount(paragraphs) == TotalWordEnds(paragraphs)
    decreases |paragraphs|
  {
    if |paragraphs| > 0 {
      assert paragraphs == [paragraphs[0]] + paragraphs[1..];
      WordCountConcat([paragraphs[0]], paragraphs[1..]);
      assert [paragraphs[0]][..0] == [];
      SplitCountsWords(paragraphs[0]);
      WordCountCountsWords(paragraphs[1..]);
    }
  }

  /** The three bands: below 300, 300 to 500 inclusive, above 500. */
  datatype WordBand = BelowMinimum | GoodStart | GainsTraction

  const MinimumWords: nat := 300
  const TractionWords: nat := 500

  function WordCountBand(count: nat): (b: WordBand)
    ensures b == BelowMinimum <==> count < MinimumWords
    ensures b == GoodStart <==> MinimumWords <= count <= TractionWords
    ensures b == GainsTraction <==> count > TractionWords
    ensures WordBandSeverity(b) == Fail <==> count < MinimumWords
  {
    if count < MinimumWords then BelowMinimum
    else if count >= MinimumWords && count <= TractionWords then GoodStart
    else GainsTraction
  }

  function WordBandSeverity(b: WordBand): Severity
  {
    match b
    case BelowMinimum => Fail
    case GoodStart => Ok
    case GainsTraction => Ok
  }

  function BandRank(b: WordBand): nat
  {
    match b
    case BelowMinimum => 0
    case GoodStart => 1
    case GainsTraction => 2
  }

  /** More words never move the content into a lower band. */
  lemma WordCountBandMonotone(m: nat, n: nat)
    requires m <= n
    ensures BandRank(WordCountBand(m)) <= BandRank(WordCountBand(n))
  {
  }

  // ---------------------------------------------------------------------------
  // Keyword target, density and guidance

  /**
   `n / d` rounded to the nearest integer, ties to the even neighbour, as
   Python's `round` does.
   */
  function RoundHalfEven(n: nat, d: nat): nat
    requires d > 0
  {
    var q, rem := n / d, n % d;
    if 2 * rem > d || (2 * rem == d && q % 2 == 1) then q + 1 else q
  }

  /**
   `RoundHalfEven(n, d)` is an integer nearest to `n / d`, and the even one
   when `n / d` lies halfway between two integers.
   */
  lemma RoundHalfEvenNearest(n: nat, d: nat)
    requires d > 0
    ensures var r := RoundHalfEven(n, d);
            && 2 * n <= d * (2 * r + 1)
            && d * (2 * r - 1) <= 2 * n
            && (2 * n == d * (2 * r + 1) || d * (2 * r - 1) == 2 * n ==> r % 2 == 0)
  {
    var q, rem := n / d, n % d;
    var dq := d * q;
    assert 2 * n == 2 * dq + 2 * rem;
    assert d * (2 * q + 1) == 2 * dq + d;
    assert d * (2 * q - 1) == 2 * dq - d;
    assert d * (2 * (q + 1) + 1) == 2 * dq + 3 * d;
    assert d * (2 * (q + 1) - 1) == 2 * dq + d;
  }

  /** Target uses of the keyword: one per hundred words, rounded. */
  function KeywordTarget(wordCount: nat): (t: nat)
    ensures 200 * t <= 2 * wordCount + 100
    ensures 2 * wordCount <= 200 * t + 100
    ensures 2 * wordCount == 100 * (2 * t + 1) || 100 * (2 * t - 1) == 2 * wordCount ==> t % 2 == 0
  {
    RoundHalfEvenNearest(wordCount, 100);
    RoundHalfEven(wordCount, 100)
  }

  /** The number of text nodes of the document that contain the keyword. */
  function KeywordCount(textNodes: seq<string>, keyword: string): (c: nat)
    ensures c <= |textNodes|
    ensures c == |Partition(textNodes, Mentions(keyword)).matching|
  {
    |Partition(textNodes, Mentions(keyword)).matching|
  }

  /** Keyword density in percent: `count / words` rounded to four decimals, times 100. */
  function Density(count: nat, wordCount: nat): (d: real)
    requires wordCount > 0
    ensures d >= 0.0
    ensures (d - 0.005) * wordCount as real <= 100.0 * count as real <= (d + 0.005) * wordCount as real
    // a whole number of hundredths, the even one on an exact tie
    ensures (100.0 * d).Floor as real == 100.0 * d
    ensures var k := (100.0 * d).Floor;
            (2 * (10000 * count) == wordCount * (2 * k + 1) || wordCount * (2 * k - 1) == 2 * (10000 * count))
            ==> k % 2 == 0
  {
    var k := RoundHalfEven(10000 * count, wordCount);
    RoundHalfEvenNearest(10000 * count, wordCount);
    DensityWithinHalfStep(count, wordCount, k);
    Hundredths(k);
    k as real / 100.0
  }

  /** `k / 100` scaled back by 100 is the whole number `k` again. */
  lemma Hundredths(k: nat)
    ensures 100.0 * (k as real / 100.0) == k as real
    ensures (100.0 * (k as real / 100.0)).Floor == k
  {
  }

  /** A half-step bound on the rounded ratio carries over to the percentage it stands for. */
  lemma DensityWithinHalfStep(count: nat, wordCount: nat, k: nat)
    requires 2 * (10000 * count) <= wordCount * (2 * k + 1)
    requires wordCount * (2 * k - 1) <= 2 * (10000 * count)
    ensures (k as real / 100.0 - 0.005) * wordCount as real <= 100.0 * count as real
    ensures 100.0 * count as real <= (k as real / 100.0 + 0.005) * wordCount as real
  {
    var w, c, kr := wordCount as real, count as real, k as real;
    assert (wordCount * (2 * k + 1)) as real == w * (2.0 * kr + 1.0);
    assert (wordCount * (2 * k - 1)) as real == w * (2.0 * kr - 1.0);
    assert (k as real / 100.0 + 0.005) * w == w * (2.0 * kr + 1.0) / 200.0;
    assert (k as real / 100.0 - 0.005) * w == w * (2.0 * kr - 1.0) / 200.0;
  }

  datatype DensityBand =
    | TooSparse    // below 0.75, printed red
    | Approaching  // from 0.75 up to 1, printed yellow
    | OnTarget     // 1 and above, printed without colour

  function DensityBandOf(density: real): (b: DensityBand)
    ensures b == TooSparse <==> density < 0.75
    ensures b == Approaching <==> 0.75 <= density < 1.0
    ensures b == OnTarget <==> density >= 1.0
    ensures DensitySeverity(b) == Fail <==> density < 0.75
    ensures DensitySeverity(b) == Warning <==> 0.75 <= density < 1.0
  {
    if density < 0.75 then TooSparse
    else if density >= 0.75 && density < 1.0 then Approaching
    else OnTarget
  }

  function DensitySeverity(b: DensityBand): Severity
  {
    match b
    case TooSparse => Fail
    case Approaching => Warning
    case OnTarget => Neutral
  }

  lemma MulCancel(a: nat, b: nat, c: nat)
    requires a > 0 && a * b >= a * c
    ensures b >= c
  {
  }

  /** In terms of the exact ratio: one use per hundred words is always on target. */
  lemma DensityOnTargetAtOnePercent(count: nat, wordCount: nat)
    requires wordCount > 0
    ensures 100 * count >= wordCount ==> DensityBandOf(Density(count, wordCount)) == OnTarget
  {
    if 100 * count < wordCount {
      return;
    }
    var k := RoundHalfEven(10000 * count, wordCount);
    RoundHalfEvenNearest(10000 * count, wordCount);
    assert wordCount * (2 * k + 1) >= wordCount * 200;
    MulCancel(wordCount, 2 * k + 1, 200);
  }

  /**
   Rounding can lift a ratio into the next band: 747 uses in 100000 words is
   0.747%, yet the density rounds to 0.75 and is reported yellow, not red.
   */
  lemma DensityRoundsIntoNextBand()
    ensures 100.0 * 747.0 / 100000.0 < 0.75
    ensures Density(747, 100000) == 0.75
    ensures DensityBandOf(Density(747, 100000)) == Approaching
  {
    assert 7470000 / 100000 == 74 && 7470000 % 100000 == 70000;
    assert RoundHalfEven(10000 * 747, 100000) == 75;
  }

  /**
   An exact tie: 149 uses in 20000 words is 0.745%, which the exact half-even
   rounding takes down to the even 0.74, in the red band.
   */
  lemma DensityExactTie()
    ensures 100.0 * 149.0 / 20000.0 == 0.745
    ensures Density(149, 20000) == 0.74
    ensures DensityBandOf(Density(149, 20000)) == TooSparse
  {
    assert 1490000 / 20000 == 74 && 1490000 % 20000 == 10000;
    assert RoundHalfEven(10000 * 149, 20000) == 74;
  }

  /** A keyword that never appears always leaves the density too sparse. */
  lemma DensityTooSparseWithoutUses(wordCount: nat)
    requires wordCount > 0
    ensures DensityBandOf(Density(0, wordCount)) == TooSparse
  {
    assert RoundHalfEven(0, wordCount) == 0;
  }

  /**
   `difference = count - target`; when it is negative the script asks for
   `-difference` more uses.
   */
  function Guidance(count: nat, target: nat): (more: Option<nat>)
    ensures more.Some? <==> count - target < 0
    ensures more.Some? ==> more.value > 0 && count + more.value == target
  {
    var difference := count - target;
    if difference < 0 then Some(-difference) else None
  }

  datatype DensityFindings = DensityFindings(
    target: nat, count: nat, density: real, band: DensityBand, difference: int, addMore: Option<nat>)

  function AnalyzeDensity(wordCount: nat, textNodes: seq<string>, keyword: string): (f: DensityFindings)
    requires wordCount > 0
    ensures f.target == KeywordTarget(wordCount)
    ensures f.count == KeywordCount(textNodes, keyword)
    ensures f.density == Density(f.count, wordCount)
    ensures f.count <= |textNodes|
    ensures f.difference == f.count - f.target
    ensures f.addMore.Some? <==> f.count < f.target
    ensures f.addMore.Some? ==> f.count + f.addMore.value == f.target
    ensures f.band == TooSparse <==> f.density < 0.75
    ensures f.band == OnTarget <==> f.density >= 1.0
    ensures 100 * f.count >= wordCount ==> f.band == OnTarget
  {
    var target := KeywordTarget(wordCount);
    var count := KeywordCount(textNodes, keyword);
    var density := Density(count, wordCount);
    DensityOnTargetAtOnePercent(count, wordCount);
    DensityFindings(target, count, density, DensityBandOf(density), count - target, Guidance(count, target))
  }

  /**
   With at most 50 words the target rounds to zero, so a keyword that never
   appears gets no "add more" advice even though its density band fails.
   */
  lemma NoGuidanceWhileTooSparse(wordCount: nat, textNodes: seq<string>, keyword: string)
    requires 0 < wordCount <= 50
    requires KeywordCount(textNodes, keyword) == 0
    ensures AnalyzeDensity(wordCount, textNodes, keyword).band == TooSparse
    ensures AnalyzeDensity(wordCount, textNodes, keyword).addMore == None
  {
    DensityTooSparseWithoutUses(wordCount);
    RoundHalfEvenNearest(wordCount, 100);
  }
}
