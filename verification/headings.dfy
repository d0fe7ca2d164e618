/**
 Sub-headings `h2` to `h6`: one routine, run once per level, splits that
 level's heading texts by a matcher (the keyword's) and keeps the running heading count that
 decides whether the "Content Structure" section is printed.
 */
module HeadingChecks {
  import opened Partitions

  type Level = l: int | 2 <= l <= 6 witness 2

  /** Heading texts of a document for the levels 2 to 6 (index 0 is `h2`), each in document order. */
  type Outline = levels: seq<seq<string>> | |levels| == 5 witness [[], [], [], [], []]

  function AtLevel(o: Outline, l: Level): seq<string>
  {
    o[l - 2]
  }

  /** The number of headings of levels `from` to 6. */
  function CountFrom(o: Outline, from: Level): nat
    decreases 6 - from
  {
    |AtLevel(o, from)| + if from == 6 then 0 else CountFrom(o, from + 1)
  }

  /** The number of sub-headings over all five levels. */
  function HeadingCount(o: Outline): nat
  {
    CountFrom(o, 2)
  }

  /** Some level from `from` on has a heading iff the count from `from` is positive. */
  lemma {:induction false} CountFromPositive(o: Outline, from: Level)
    ensures CountFrom(o, from) > 0 <==> exists l: Level :: from <= l && |AtLevel(o, l)| > 0
    decreases 6 - from
  {
    if from < 6 {
      CountFromPositive(o, from + 1);
      if CountFrom(o, from + 1) > 0 {
        var l: Level :| from + 1 <= l && |AtLevel(o, l)| > 0;
      }
    }
  }

  /**
   One per-level loop: each heading is appended to the with- or
   without-keyword list and `other_headings_count` grows by one either way.
   */
  function ScanLevel(texts: seq<string>, matches: string -> bool, count: nat): (r: (Bins<string>, nat))
    ensures r.0 == Partition(texts, matches)
    ensures r.1 == count + |texts|
    decreases |texts|
  {
    if |texts| == 0 then (Bins([], []), count)
    else
      var (b, n) := ScanLevel(texts[..|texts| - 1], matches, count);
      var text := texts[|texts| - 1];
      if matches(text) then (Bins(b.matching + [text], b.others), n + 1)
      else (Bins(b.matching, b.others + [text]), n + 1)
  }

  /** Reference result: one partition per level from `from` to 6, in level order. */
  function LevelPartitions(o: Outline, matches: string -> bool, from: Level): (r: seq<Bins<string>>)
    ensures |r| == 7 - from
    decreases 6 - from
  {
    [Partition(AtLevel(o, from), matches)]
    + if from == 6 then [] else LevelPartitions(o, matches, from + 1)
  }

  /** Entry `l - from` of the reference result is the partition of level `l`. */
  lemma {:induction false} LevelPartitionAt(o: Outline, matches: string -> bool, from: Level, l: Level)
    requires from <= l
    ensures LevelPartitions(o, matches, from)[l - from] == Partition(AtLevel(o, l), matches)
    decreases l - from
  {
    if from < l {
      LevelPartitionAt(o, matches, from + 1, l);
      assert LevelPartitions(o, matches, from)[1..] == LevelPartitions(o, matches, from + 1);
    }
  }

  lemma LevelPartitionsAt(o: Outline, matches: string -> bool)
    ensures forall l: Level :: LevelPartitions(o, matches, 2)[l - 2] == Partition(AtLevel(o, l), matches)
  {
    forall l: Level
      ensures LevelPartitions(o, matches, 2)[l - 2] == Partition(AtLevel(o, l), matches)
    {
      LevelPartitionAt(o, matches, 2, l);
    }
  }

  /** The per-level loops for levels `from` to 6, in order, threading the running count. */
  function ScanFrom(o: Outline, matches: string -> bool, from: Level, count: nat): (r: (seq<Bins<string>>, nat))
    ensures r.0 == LevelPartitions(o, matches, from)
    ensures r.1 == count + CountFrom(o, from)
    decreases 6 - from
  {
    var here := ScanLevel(AtLevel(o, from), matches, count);
    if from == 6 then ([here.0], here.1)
    else
      var rest := ScanFrom(o, matches, from + 1, here.1);
      ([here.0] + rest.0, rest.1)
  }

  /** A printed sub-section: "Hn Heading(s) with Keyword" or "... without Keyword", with its texts. */
  datatype HeadingBlock = HeadingBlock(level: Level, withKeyword: bool, texts: seq<string>)

  /** The sub-sections of one level: only for a level with headings, and only non-empty lists. */
  function LevelBlocks(l: Level, count: nat, b: Bins<string>): seq<HeadingBlock>
  {
    if count > 0 then
      (if |b.matching| > 0 then [HeadingBlock(l, true, b.matching)] else [])
      + (if |b.others| > 0 then [HeadingBlock(l, false, b.others)] else [])
    else []
  }

  /** The sub-sections of levels `from` to 6, in level order, from that levels' partitions. */
  function BlocksOf(o: Outline, parts: seq<Bins<string>>, from: Level): seq<HeadingBlock>
    requires |parts| == 7 - from
    decreases 6 - from
  {
    LevelBlocks(from, |AtLevel(o, from)|, parts[0])
    + if from == 6 then [] else BlocksOf(o, parts[1..], from + 1)
  }

  /** Texts over a list of sub-sections. */
  function ListedCount(blocks: seq<HeadingBlock>): nat
  {
    if |blocks| == 0 then 0 else |blocks[0].texts| + ListedCount(blocks[1..])
  }

  lemma {:induction false} ListedCountConcat(xs: seq<HeadingBlock>, ys: seq<HeadingBlock>)
    ensures ListedCount(xs + ys) == ListedCount(xs) + ListedCount(ys)
    decreases |xs|
  {
    if |xs| == 0 {
      assert xs + ys == ys;
    } else {
      assert (xs + ys)[1..] == xs[1..] + ys;
      ListedCountConcat(xs[1..], ys);
    }
  }

  /** The two sub-sections of a level hold as many texts as the level has headings. */
  lemma LevelBlocksTextCount(l: Level, b: Bins<string>)
    ensures ListedCount(LevelBlocks(l, |b.matching| + |b.others|, b)) == |b.matching| + |b.others|
  {
    var m := if |b.matching| > 0 then [HeadingBlock(l, true, b.matching)] else [];
    var x := if |b.others| > 0 then [HeadingBlock(l, false, b.others)] else [];
    ListedCountConcat(m, x);
  }

  /** The sub-sections of levels `from` to 6 hold as many texts as those levels have headings. */
  lemma {:induction false} PrintedTextCount(o: Outline, matches: string -> bool, from: Level)
    ensures ListedCount(BlocksOf(o, LevelPartitions(o, matches, from), from)) == CountFrom(o, from)
    decreases 6 - from
  {
    var parts := LevelPartitions(o, matches, from);
    assert parts[0] == Partition(AtLevel(o, from), matches);
    var here := LevelBlocks(from, |AtLevel(o, from)|, parts[0]);
    LevelBlocksTextCount(from, parts[0]);
    assert ListedCount(here) == |AtLevel(o, from)|;
    if from < 6 {
      assert parts[1..] == LevelPartitions(o, matches, from + 1);
      PrintedTextCount(o, matches, from + 1);
      ListedCountConcat(here, BlocksOf(o, parts[1..], from + 1));
    } else {
      assert BlocksOf(o, parts, from) == here;
    }
  }

  /** A sub-section lists at least one text, and its texts match iff it is a "with" list. */
  predicate BlockFaithful(matches: string -> bool, block: HeadingBlock)
  {
    && |block.texts| > 0
    && forall k :: 0 <= k < |block.texts| ==>
         matches(block.texts[k]) == block.withKeyword
  }

  /** Both lists of a level's partition, as sub-sections, are faithful when non-empty. */
  lemma PartitionBlocksFaithful(o: Outline, matches: string -> bool, l: Level)
    ensures var b := Partition(AtLevel(o, l), matches);
            && (|b.matching| > 0 ==> BlockFaithful(matches, HeadingBlock(l, true, b.matching)))
            && (|b.others| > 0 ==> BlockFaithful(matches, HeadingBlock(l, false, b.others)))
  {
  }

  lemma LevelBlocksFaithful(o: Outline, matches: string -> bool, l: Level)
    ensures forall i :: 0 <= i < |LevelBlocks(l, |AtLevel(o, l)|, Partition(AtLevel(o, l), matches))| ==>
              BlockFaithful(matches, LevelBlocks(l, |AtLevel(o, l)|, Partition(AtLevel(o, l), matches))[i])
  {
    var b := Partition(AtLevel(o, l), matches);
    PartitionBlocksFaithful(o, matches, l);
    var m := if |b.matching| > 0 then [HeadingBlock(l, true, b.matching)] else [];
    var x := if |b.others| > 0 then [HeadingBlock(l, false, b.others)] else [];
    assert |AtLevel(o, l)| > 0 ==> LevelBlocks(l, |AtLevel(o, l)|, b) == m + x;
    assert forall i :: 0 <= i < |m + x| ==> BlockFaithful(matches, (m + x)[i]);
  }

  /** Each printed sub-section is non-empty and agrees with its title. */
  lemma {:induction false} BlocksAreFaithful(o: Outline, matches: string -> bool, from: Level)
    ensures forall i :: 0 <= i < |BlocksOf(o, LevelPartitions(o, matches, from), from)| ==>
              BlockFaithful(matches, BlocksOf(o, LevelPartitions(o, matches, from), from)[i])
    decreases 6 - from
  {
    var parts := LevelPartitions(o, matches, from);
    assert parts[0] == Partition(AtLevel(o, from), matches);
    var here := LevelBlocks(from, |AtLevel(o, from)|, parts[0]);
    LevelBlocksFaithful(o, matches, from);
    if from < 6 {
      assert parts[1..] == LevelPartitions(o, matches, from + 1);
      BlocksAreFaithful(o, matches, from + 1);
      var rest := BlocksOf(o, LevelPartitions(o, matches, from + 1), from + 1);
      assert BlocksOf(o, parts, from) == here + rest;
      forall i | |here| <= i < |here + rest|
        ensures BlockFaithful(matches, (here + rest)[i])
      {
        var k := i - |here|;
        assert BlockFaithful(matches, rest[k]);
        assert (here + rest)[i] == rest[k];
      }
    } else {
      assert BlocksOf(o, parts, from) == here;
    }
  }

  /** A sub-section lists exactly its level's "with" or "without" list, as its title says. */
  predicate BlockOfLevel(o: Outline, matches: string -> bool, block: HeadingBlock)
  {
    block.texts == if block.withKeyword then Partition(AtLevel(o, block.level), matches).matching
                   else Partition(AtLevel(o, block.level), matches).others
  }

  /** Print order: ascending level, and within a level "with Keyword" before "without Keyword". */
  predicate PrintedBefore(a: HeadingBlock, b: HeadingBlock)
  {
    a.level < b.level || (a.level == b.level && a.withKeyword && !b.withKeyword)
  }

  /** The sub-sections of one level list its lists, as their titles say. */
  lemma LevelBlocksShape(o: Outline, matches: string -> bool, l: Level)
    ensures var bs := LevelBlocks(l, |AtLevel(o, l)|, Partition(AtLevel(o, l), matches));
            forall i :: 0 <= i < |bs| ==> bs[i].level == l && BlockOfLevel(o, matches, bs[i])
  {
  }

  /** The sub-sections of one level belong to it and come "with" first. */
  lemma LevelBlocksOrder(l: Level, count: nat, b: Bins<string>)
    ensures forall i :: 0 <= i < |LevelBlocks(l, count, b)| ==> LevelBlocks(l, count, b)[i].level == l
    ensures forall i, j :: 0 <= i < j < |LevelBlocks(l, count, b)| ==>
              PrintedBefore(LevelBlocks(l, count, b)[i], LevelBlocks(l, count, b)[j])
  {
  }

  /** The sub-sections printed for levels `from` to 6. */
  function Printed(o: Outline, matches: string -> bool, from: Level): seq<HeadingBlock>
  {
    BlocksOf(o, LevelPartitions(o, matches, from), from)
  }

  /** Printing levels `from` to 6 is printing level `from`, then the levels above it. */
  lemma PrintedSplits(o: Outline, matches: string -> bool, from: Level)
    requires from < 6
    ensures Printed(o, matches, from)
            == LevelBlocks(from, |AtLevel(o, from)|, Partition(AtLevel(o, from), matches))
               + Printed(o, matches, from + 1)
  {
    var parts := LevelPartitions(o, matches, from);
    assert parts[0] == Partition(AtLevel(o, from), matches);
    assert parts[1..] == LevelPartitions(o, matches, from + 1);
  }

  lemma PrintedLast(o: Outline, matches: string -> bool)
    ensures Printed(o, matches, 6) == LevelBlocks(6, |AtLevel(o, 6)|, Partition(AtLevel(o, 6), matches))
  {
    assert LevelPartitions(o, matches, 6)[0] == Partition(AtLevel(o, 6), matches);
  }

  /** Every block of `blocks` has a level of at least `from` and lists the list its title names. */
  predicate AllFromLevels(o: Outline, matches: string -> bool, from: int, blocks: seq<HeadingBlock>)
  {
    forall i :: 0 <= i < |blocks| ==> from <= blocks[i].level && BlockOfLevel(o, matches, blocks[i])
  }

  lemma AllFromLevelsConcat(o: Outline, matches: string -> bool, from: int, xs: seq<HeadingBlock>, ys: seq<HeadingBlock>)
    requires AllFromLevels(o, matches, from, xs) && AllFromLevels(o, matches, from + 1, ys)
    ensures AllFromLevels(o, matches, from, xs + ys)
  {
    var all := xs + ys;
    forall i | 0 <= i < |all|
      ensures from <= all[i].level && BlockOfLevel(o, matches, all[i])
    {
      if i < |xs| {
        assert all[i] == xs[i];
      } else {
        assert all[i] == ys[i - |xs|];
      }
    }
  }

  /** Each printed sub-section of levels `from` to 6 lists exactly the list its title names. */
  lemma {:induction false} PrintedFromLevels(o: Outline, matches: string -> bool, from: Level)
    ensures AllFromLevels(o, matches, from, Printed(o, matches, from))
    decreases 6 - from
  {
    var here := LevelBlocks(from, |AtLevel(o, from)|, Partition(AtLevel(o, from), matches));
    LevelBlocksShape(o, matches, from);
    assert AllFromLevels(o, matches, from, here);
    if from < 6 {
      PrintedSplits(o, matches, from);
      PrintedFromLevels(o, matches, from + 1);
      AllFromLevelsConcat(o, matches, from, here, Printed(o, matches, from + 1));
    } else {
      PrintedLast(o, matches);
    }
  }

  /** Every sub-section printed for levels `from` to 6 has a level of at least `from`. */
  lemma {:induction false} PrintedLevelsFrom(o: Outline, matches: string -> bool, from: Level)
    ensures forall i :: 0 <= i < |Printed(o, matches, from)| ==> from <= Printed(o, matches, from)[i].level
    decreases 6 - from
  {
    var here := LevelBlocks(from, |AtLevel(o, from)|, Partition(AtLevel(o, from), matches));
    LevelBlocksOrder(from, |AtLevel(o, from)|, Partition(AtLevel(o, from), matches));
    if from < 6 {
      PrintedSplits(o, matches, from);
      PrintedLevelsFrom(o, matches, from + 1);
      var rest := Printed(o, matches, from + 1);
      var all: seq<HeadingBlock> := here + rest;
      forall i | |here| <= i < |all|
        ensures from <= all[i].level
      {
        assert all[i] == rest[i - |here|];
      }
    } else {
      PrintedLast(o, matches);
    }
  }

  /** Blocks in print order, followed by blocks of higher levels in print order, stay in print order. */
  lemma InOrderConcat(xs: seq<HeadingBlock>, ys: seq<HeadingBlock>, l: int)
    requires forall i :: 0 <= i < |xs| ==> xs[i].level == l
    requires forall i, j :: 0 <= i < j < |xs| ==> PrintedBefore(xs[i], xs[j])
    requires forall i :: 0 <= i < |ys| ==> l < ys[i].level
    requires forall i, j :: 0 <= i < j < |ys| ==> PrintedBefore(ys[i], ys[j])
    ensures forall i, j :: 0 <= i < j < |xs + ys| ==> PrintedBefore((xs + ys)[i], (xs + ys)[j])
  {
    var all := xs + ys;
    forall i, j | 0 <= i < j < |all|
      ensures PrintedBefore(all[i], all[j])
    {
      if j < |xs| {
        assert all[i] == xs[i] && all[j] == xs[j];
      } else if i < |xs| {
        assert all[i] == xs[i] && all[j] == ys[j - |xs|];
      } else {
        assert all[i] == ys[i - |xs|] && all[j] == ys[j - |xs|];
      }
    }
  }

  /** The printed sub-sections appear in print order. */
  lemma {:induction false} PrintedInOrder(o: Outline, matches: string -> bool, from: Level)
    ensures forall i, j :: 0 <= i < j < |Printed(o, matches, from)| ==>
              PrintedBefore(Printed(o, matches, from)[i], Printed(o, matches, from)[j])
    decreases 6 - from
  {
    var b := Partition(AtLevel(o, from), matches);
    var here := LevelBlocks(from, |AtLevel(o, from)|, b);
    LevelBlocksOrder(from, |AtLevel(o, from)|, b);
    if from < 6 {
      PrintedSplits(o, matches, from);
      PrintedInOrder(o, matches, from + 1);
      PrintedLevelsFrom(o, matches, from + 1);
      InOrderConcat(here, Printed(o, matches, from + 1), from);
    } else {
      PrintedLast(o, matches);
    }
  }

  /** Level `l`'s non-empty "with" and "without" lists both appear among `blocks`. */
  predicate ListsPrinted(o: Outline, matches: string -> bool, l: Level, blocks: seq<HeadingBlock>)
  {
    && (|Partition(AtLevel(o, l), matches).matching| > 0 ==>
          HeadingBlock(l, true, Partition(AtLevel(o, l), matches).matching) in blocks)
    && (|Partition(AtLevel(o, l), matches).others| > 0 ==>
          HeadingBlock(l, false, Partition(AtLevel(o, l), matches).others) in blocks)
  }

  lemma ListsPrintedExtend(o: Outline, matches: string -> bool, l: Level, xs: seq<HeadingBlock>, ys: seq<HeadingBlock>)
    requires ListsPrinted(o, matches, l, ys)
    ensures ListsPrinted(o, matches, l, xs + ys)
  {
  }

  lemma ListsPrintedHere(o: Outline, matches: string -> bool, l: Level, ys: seq<HeadingBlock>)
    ensures ListsPrinted(o, matches, l, LevelBlocks(l, |AtLevel(o, l)|, Partition(AtLevel(o, l), matches)) + ys)
  {
  }

  /** Every level's non-empty lists are printed. */
  lemma {:induction false} PrintedComplete(o: Outline, matches: string -> bool, from: Level)
    ensures forall l: Level :: from <= l ==> ListsPrinted(o, matches, l, Printed(o, matches, from))
    decreases 6 - from
  {
    var here := LevelBlocks(from, |AtLevel(o, from)|, Partition(AtLevel(o, from), matches));
    if from < 6 {
      PrintedSplits(o, matches, from);
      PrintedComplete(o, matches, from + 1);
      var rest := Printed(o, matches, from + 1);
      ListsPrintedHere(o, matches, from, rest);
      forall l: Level | from < l
        ensures ListsPrinted(o, matches, l, here + rest)
      {
        ListsPrintedExtend(o, matches, l, here, rest);
      }
    } else {
      PrintedLast(o, matches);
      ListsPrintedHere(o, matches, from, []);
      assert here + [] == here;
    }
  }

  /** Everything the printed sub-sections of all five levels are promised to satisfy. */
  lemma PrintedFacts(o: Outline, matches: string -> bool)
    ensures ListedCount(Printed(o, matches, 2)) == HeadingCount(o)
    ensures forall i :: 0 <= i < |Printed(o, matches, 2)| ==> BlockFaithful(matches, Printed(o, matches, 2)[i])
    ensures AllFromLevels(o, matches, 2, Printed(o, matches, 2))
    ensures forall i, j :: 0 <= i < j < |Printed(o, matches, 2)| ==>
              PrintedBefore(Printed(o, matches, 2)[i], Printed(o, matches, 2)[j])
    ensures forall l: Level :: ListsPrinted(o, matches, l, Printed(o, matches, 2))
  {
    PrintedComplete(o, matches, 2);
    PrintedTextCount(o, matches, 2);
    BlocksAreFaithful(o, matches, 2);
    PrintedFromLevels(o, matches, 2);
    PrintedInOrder(o, matches, 2);
  }

  datatype HeadingFindings = HeadingFindings(
    total: nat, showsSection: bool, levels: seq<Bins<string>>, blocks: seq<HeadingBlock>)

  /**
   The heading analysis for a matcher (the report passes the keyword's
   `Mentions`): the running count, whether the section prints, the per-level
   partitions and the printed sub-sections.
   */
  function AnalyzeHeadings(o: Outline, matches: string -> bool): (f: HeadingFindings)
    ensures f.total == HeadingCount(o)
    ensures f.showsSection <==> exists l: Level :: |AtLevel(o, l)| > 0
    ensures |f.levels| == 5
    ensures forall l: Level :: f.levels[l - 2] == Partition(AtLevel(o, l), matches)
    ensures ListedCount(f.blocks) == f.total
    ensures forall i :: 0 <= i < |f.blocks| ==> BlockFaithful(matches, f.blocks[i])
    ensures forall i :: 0 <= i < |f.blocks| ==> BlockOfLevel(o, matches, f.blocks[i])
    ensures forall i, j :: 0 <= i < j < |f.blocks| ==> PrintedBefore(f.blocks[i], f.blocks[j])
    ensures forall l: Level :: ListsPrinted(o, matches, l, f.blocks)
  {
    var scan := ScanFrom(o, matches, 2, 0);
    LevelPartitionsAt(o, matches);
    CountFromPositive(o, 2);
    PrintedFacts(o, matches);
    HeadingFindings(scan.1, scan.1 > 0, scan.0, Printed(o, matches, 2))
  }
}
