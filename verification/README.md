# On-page SEO checker — Dafny model

`onpageseo.py` reviews the on-page SEO of one Markdown document. It converts
the document to HTML and then checks these things in order:

- the title: its length, and whether it contains the focus keyword;
- the meta description: whether it contains the keyword;
- the word count of the paragraphs;
- the keyword's target count and density;
- the images, split by whether their `alt` text contains the keyword;
- the links, split into internal and external by whether their `href` contains the site's domain;
- the sub-headings `h2`–`h6`, split by whether they contain the keyword.

It prints one section per check, with a verdict colour for each line.

This project models that decision logic as pure Dafny functions over what has
already been extracted from the document. The extracted parts are the
front-matter fields, the `h1` texts, the paragraph texts, the HTML text nodes,
the images, the links and the heading texts per level. Each function returns
verdict datatypes and the partitioned lists in place of printed lines.

- A `Severity` stands for each coloured line: `Ok` is green, `Warning` yellow, `Fail` red, and `Neutral` uncoloured.
- The two sub-commands (`fm` and `no_fm`) and their options become a `Mode` value.
- A run that the script aborts for one of these reasons returns an `Error` instead:
  - a missing front-matter field;
  - an unbound title;
  - no paragraph;
  - a zero word count;
  - an image without `alt`;
  - a link without `href`.
- Matching the keyword or the domain is one shared predicate, `Text.ContainsFolded`. It is a case-insensitive literal substring search, with case folded on ASCII letters.

Modules, in dependency order:

- `Wrappers`: `Option` and `Result`.
- `Outcomes`: severities and errors.
- `Text`: case folding, leftmost search, Python's `str.split()`, and the first comma field.
- `Separator`: the section divider lines.
- `Partitions`: an order-preserving split of a sequence by a predicate.
- `Resolve`: the keyword, title and description.
- `TitleChecks`: the title and meta description checks.
- `WordChecks`: the word count, target and density.
- `ImageChecks`, `LinkChecks`, `HeadingChecks`: the three partition checks.
- `Engine`: one whole run.

Modelling notes, read against the script's own text:

- The meta description's length is computed (onpageseo.py:145), and the guidance text at line 157 speaks of 50 - 160 characters. Nothing checks that length, so the model judges only keyword presence.
- An image without `alt` or a link without `href` makes the script crash in `re.search` (onpageseo.py:227-229, 261-262). The model returns `MissingAlt` / `MissingHref`.
- The comment at line 104 and the branch at lines 113-114 aim at a "placed at the beginning" verdict. The guard at line 111 already takes every match, so that branch is never reached, and the model never reports it.
- Line 281 prints how many internal links exist, but `internal_link_count` (line 255) is never incremented. The internal-link verdict is therefore always "no internal links", and the internal list is never printed.
- An empty `--title ""` falls through to the first `h1`, while an empty `--desc ""` is used as the description. The title test at line 94 uses Python's truthiness. The description test at line 140 is `args.desc is not None`, so an empty string is kept.

## Model

| member | source | states |
|---|---|---|
| Separator.SeparatorLength | onpageseo.py:16-20 | For a non-empty fill string and width n, the divider has exactly n characters. It starts with a newline when n ≥ 1, and position i ≥ 1 holds fill character (i−1) mod the fill length. |
| Separator.SeparatorPrefix | onpageseo.py:16-20 | A narrower divider over the same fill string is a prefix of a wider one. |
| Separator.DividedHeading | onpageseo.py:23-34 | A section or sub-section heading is a newline, the heading, a newline, then 79 fill characters ('=' for sections, '*' for sub-sections): 81 characters more than the heading. |
| Text.FindFromLeftmost | onpageseo.py:109-110 | The search result is the leftmost position at or after the start where the pattern occurs. None means it occurs nowhere from there. |
| Text.FindFoldedLeftmost | onpageseo.py:109-110 | A case-insensitive search returns the leftmost occurrence in the lower-cased text, or None when there is none. |
| Text.ContainsFoldedOccurs | onpageseo.py:109-111 | The match test succeeds iff the lower-cased pattern occurs somewhere in the lower-cased text. |
| Text.ContainsFoldedIgnoresCase | onpageseo.py:109-110 | Lower-casing the text or the pattern never changes whether they match. |
| Text.ContainsFoldedInConcat | onpageseo.py:109-110 | A match in either part of a concatenation is a match in the whole. |
| Text.ContainsFoldedReflexive | onpageseo.py:109-111 | A text matches itself, and an empty keyword matches every text, as an empty pattern does in `re.search`. An empty keyword arises when the front-matter keyword field starts with a comma. |
| Text.LowerIdempotent | onpageseo.py:84 | Lower-casing a field name twice is the same as lower-casing it once. |
| Text.Split | onpageseo.py:165 | Every token of `str.split()` is non-empty and contains no whitespace. |
| Text.SplitCountsWords | onpageseo.py:165 | The number of tokens equals the number of word ends: positions holding a non-space followed by a space or the end. |
| Text.SplitKeepsNonSpace | onpageseo.py:165 | Concatenating the tokens gives back the text with all whitespace removed. No character is lost or invented. |
| Text.FirstCommaField | onpageseo.py:85-86 | `split(',')[0]` is a prefix of the field and contains no comma. If it is shorter than the field, it is followed by a comma. |
| Partitions.Partition | onpageseo.py:226-233 | The two lists together are as long as the input. Every kept element satisfies the predicate and every other element does not. |
| Partitions.PartitionPermutes | onpageseo.py:226-233 | The two lists together are a permutation of the input. |
| Partitions.PartitionConcat | onpageseo.py:226-233 | Partitioning a concatenation concatenates the partitions, so the input order is kept in both lists. |
| Partitions.PartitionMembership | onpageseo.py:226-233 | An element is in the first list iff it is in the input and satisfies the predicate. It is in the second list iff it is in the input and does not satisfy it. |
| Partitions.PartitionAllInside | onpageseo.py:226-233 | When every element satisfies the predicate, the first list is the whole input and the second is empty. |
| Resolve.FirstLine | onpageseo.py:93 | A field's first line exists iff the field is present with at least one line. Otherwise the run fails with `MissingField` naming the field. |
| Resolve.FocusKeyword | onpageseo.py:83-89 | Without front matter the keyword is the one given. With front matter it is a comma-free prefix of the first line of the lower-cased keyword field, ending at its first comma. A missing field fails with that field's name. |
| Resolve.ResolveTitle | onpageseo.py:91-100 | With front matter the title is the `title` field, or the run fails with MissingField. Without it, the title is a non-empty override, else the first `h1`. It fails with UnboundTitle iff neither exists. |
| Resolve.DefaultDescription | onpageseo.py:136-143 | `p[0:160]` is a prefix of the paragraph of length min(160, its length). |
| Resolve.ResolveDescription | onpageseo.py:136-143 | A named description field gives that field's first line, or fails on a missing field. A `--desc` option, even an empty one, is used as given. Otherwise the description is the 160-character prefix of the first paragraph. |
| TitleChecks.TitleLengthSeverity | onpageseo.py:120-125 | The length verdict is Ok iff the title has at most 60 characters, and Fail iff it has more. |
| TitleChecks.TitlePlacement | onpageseo.py:104-116 | The placement is "in the title" iff the keyword matches, and "does not appear" iff it does not. "At the beginning" is never returned. |
| TitleChecks.BeginningGuardSatisfiable | onpageseo.py:111-114 | The "at the beginning" guard does hold for "SEO basics" with keyword "seo". The title is still reported only as "in the title", so that message is lost to the branch order. |
| TitleChecks.AnalyzeTitle | onpageseo.py:103-126 | The title findings keep the title and its length. The length verdict is Ok iff the length is ≤ 60 and Fail iff it is more. The placement is the one `TitlePlacement` gives, so it is never "at the beginning". Its verdict is Ok iff the keyword matches and Fail iff it does not. |
| TitleChecks.AnalyzeDescription | onpageseo.py:145-152 | The description is "found" iff the keyword matches it. Its verdict is uncoloured (Neutral) iff the keyword is absent, and green otherwise. |
| WordChecks.WordCountConcat | onpageseo.py:161-165 | The word count of two runs of paragraphs is the sum of their word counts. |
| WordChecks.WordCountCountsWords | onpageseo.py:161-165 | The accumulated `len(x.split())` over the paragraphs equals the total number of word ends in them. |
| WordChecks.WordCountBand | onpageseo.py:168-181 | The band is "below minimum" iff the count is < 300, "good start" iff it is in 300..500, and "gains traction" iff it is > 500. The three bands cover every count and do not overlap. The line is red iff the count is < 300. |
| WordChecks.WordCountBandMonotone | onpageseo.py:168-181 | A larger word count never gets a lower band. |
| WordChecks.RoundHalfEvenNearest | onpageseo.py:187 | The rounded quotient is within half a unit of n/d, and an exact tie goes to the even neighbour (Python's `round`). |
| WordChecks.KeywordTarget | onpageseo.py:187 | The target is within one half of 1% of the word count. An exact tie goes to the even neighbour, so 50 words give a target of 0, as Python's `round` does. |
| WordChecks.KeywordCount | onpageseo.py:188-189 | The keyword count is the number of text nodes the keyword matches, so it never exceeds the number of text nodes. |
| WordChecks.Density | onpageseo.py:190 | The density d is a non-negative whole number of hundredths within 0.005 of the exact percentage: (d − 0.005)·words ≤ 100·count ≤ (d + 0.005)·words. On an exact tie it is the even number of hundredths. This fixes d uniquely, so a ratio just below 0.75% or 1% can round up into the next band. |
| WordChecks.DensityExactTie | onpageseo.py:190-199 | 149 uses in 20000 words is an exact tie at 0.745%. The model's density rounds it to the even 0.74, which is red. |
| WordChecks.DensityBandOf | onpageseo.py:196-201 | The density band is Fail (red) iff the density is < 0.75, Warning (yellow) iff it is in [0.75, 1), and uncoloured iff it is ≥ 1. |
| WordChecks.DensityRoundsIntoNextBand | onpageseo.py:190-199 | 747 uses in 100000 words is an exact ratio of 0.747%, below 0.75, yet the rounded density is 0.75 and falls in the yellow band. |
| WordChecks.DensityOnTargetAtOnePercent | onpageseo.py:190-201 | When the keyword is used in at least 1% of the words, the density is in the top band. |
| WordChecks.DensityTooSparseWithoutUses | onpageseo.py:190-196 | With no keyword uses the density is in the failing band. |
| WordChecks.Guidance | onpageseo.py:191-212 | The "add N more" guidance appears iff count − target < 0. N is then positive, and count + N equals the target. |
| WordChecks.AnalyzeDensity | onpageseo.py:187-214 | The target is the rounded 1% of the word count. The count is the number of text nodes the keyword matches, so it is bounded by the text nodes. The density is the rounded percentage of that count. The difference is count − target. Guidance appears iff count < target and exactly fills the gap. The band agrees with the density thresholds and is the top band at ≥ 1% use. |
| WordChecks.NoGuidanceWhileTooSparse | onpageseo.py:187-214 | For up to 50 words the target rounds to 0. A document with no keyword uses is then in the failing density band, yet it gets no "add the keyword" guidance. |
| ImageChecks.AnalyzeImages | onpageseo.py:221-249 | The with-keyword and without-keyword lists are the order-preserving partition of the images by keyword in `alt`, and a permutation of them. Their lengths sum to the image count. Every "with" alt matches and no "without" alt does. The verdict is "no images", printed red, iff there are none. |
| ImageChecks.ImageListsPrinted | onpageseo.py:236-247 | The "with keyword" sub-section is printed iff some image's `alt` mentions the keyword. The "without" sub-section is printed iff some image's `alt` does not. |
| LinkChecks.ScanLinks | onpageseo.py:253-267 | The link count is the number of links and equals the sum of both list lengths. The lists are the order-preserving partition by domain in `href`. The external count equals the external list's length. The internal count stays 0. |
| LinkChecks.ExternalVerdictOf | onpageseo.py:288-295 | The external verdict is "none" iff the count is 0, "few" iff it is 1 or 2, and "enough" iff it is ≥ 3. |
| LinkChecks.AnalyzeLinks | onpageseo.py:269-298 | The tally is the scan of the links by domain. The total verdict is "none", printed yellow, iff there are no links. The internal verdict is always "none", printed yellow, and the internal list is never printed. The external verdict follows the external list's length, and is green iff that list holds at least 3 links. The external list is printed iff it is non-empty. |
| LinkChecks.InternalLinksNeverReported | onpageseo.py:255-285 | For every input the internal verdict is "no internal links" and the internal list is never printed, even when internal links were collected. |
| LinkChecks.SiteHostIsInternal | onpageseo.py:262-264 | A link to the site's own host is classified internal. |
| LinkChecks.OtherHostIsExternal | onpageseo.py:262-267 | A link to another host is classified external. |
| LinkChecks.InternalLinkIgnored | onpageseo.py:253-298 | One internal and one external link give: internal verdict "none", the internal link collected but unprinted, and external verdict "few". |
| HeadingChecks.CountFromPositive | onpageseo.py:380 | The heading count is positive iff some level has a heading. |
| HeadingChecks.ScanLevel | onpageseo.py:330-338 | One level's loop yields that level's order-preserving partition by keyword, and the running count grows by the number of headings of the level. |
| HeadingChecks.LevelPartitionAt | onpageseo.py:319-378 | Entry l of the per-level results is the partition of level l's headings. |
| HeadingChecks.ScanFrom | onpageseo.py:303-378 | The five level loops, run in order, give the per-level partitions. The running count ends at the total number of headings. |
| HeadingChecks.PrintedTextCount | onpageseo.py:383-431 | Over all levels, the printed with/without sub-sections hold exactly as many texts as there are headings. |
| HeadingChecks.BlocksAreFaithful | onpageseo.py:383-431 | Every printed sub-section is non-empty. Its texts match the keyword iff it is a "with Keyword" sub-section. |
| HeadingChecks.PrintedFromLevels | onpageseo.py:383-431 | Each printed sub-section lists exactly its own level's "with" or "without" list, as its title says. |
| HeadingChecks.PrintedInOrder | onpageseo.py:383-431 | Sub-sections are printed in ascending level, and within a level "with Keyword" comes before "without Keyword". No list is printed twice. |
| HeadingChecks.PrintedComplete | onpageseo.py:383-431 | Every non-empty "with" or "without" list of every level is printed as a sub-section. |
| HeadingChecks.AnalyzeHeadings | onpageseo.py:303-431 | The total is the number of headings, and the section is shown iff some level has a heading. Each level's lists are its partition by the matcher. The printed sub-sections are exactly the non-empty lists of every level, each once, each under its own level and title, in ascending level with "with" before "without". Each is non-empty and agrees with its title, and together they hold as many texts as there are headings. |
| Engine.Analyze | onpageseo.py:83-431 | A run completes iff every lookup succeeds and none of the six `Error` conditions is present. Each failing step (keyword, title, paragraph, description, word count, `alt`, `href`) gives its own error, provided every earlier step succeeded, in the script's order. A completed report holds the resolved keyword. Each findings record is the result of its analyzer on the resolved inputs, with the heading matcher being the keyword's. The word count is the number of counted words. |

## Left out

- Argument parsing (onpageseo.py:38-71) and reading the file (onpageseo.py:77-78): the sub-command and its options are the `Mode` parameter, and the file is not read.
- Markdown conversion and HTML extraction with `find_all` / `get_text` (onpageseo.py:76-81 and the `find_all` calls): these are foreign libraries. Their results are the fields of `Engine.Document`, and the text-node list stands for `post(text=...)`.
- ANSI colours, `print`, the echo of `--title` (line 96) and the fixed "SEO Behind This Section" texts: presentation only, replaced by verdict datatypes and `Severity`.
- Text.ContainsFolded: `re.search` uses the keyword and the domain unescaped as regular expressions. The model treats them as literal text, so a pattern with regex metacharacters behaves differently. A keyword or domain that is not a valid regular expression, such as `C++` or one with an unbalanced `(`, makes the script raise `re.error` (onpageseo.py:109, 262). The model completes such a run.
- Text.LowerChar: `re.IGNORECASE` folds Unicode case, and `str.lower()` on the keyword and description field names (onpageseo.py:84, 139) lower-cases non-ASCII letters too. The model folds only ASCII letters in all three uses.
- WordChecks.KeywordTarget: the script computes `int(round(word_count * .01, 0))` in floating point. The model uses exact round-half-even of word_count/100, so binary rounding noise in the product is not modelled.
- WordChecks.Density: the density is `round(count / word_count, 4) * 100` in floating point. The model uses the exact half-even rounding to four places, scaled to a percentage, so float representation error is not modelled. This can flip the band at a tie: the script rounds the stored binary64 quotient, which for 149/20000 lies just above 0.00745, so it prints 0.75 (yellow), where the model gives 0.74 (red).
- Separator.SeparatorLength: requires a non-empty fill string, because an empty one divides by zero in the script (onpageseo.py:17), and the script only ever passes "=" or "*". The width is a natural number, so Python's negative slice bounds are not modelled; the script only ever passes 80.
- Output printed before a crash is not modelled. For example, the title section is printed before the missing-paragraph `IndexError`. A failing run yields only its `Error`.
- Running with no sub-command leaves `args.front_matter` as `None` and crashes on `args.focus_keyword`. It is not modelled, because `Mode` has only the two sub-commands.
