/**
 Text primitives shared by every analyzer: ASCII case folding, the
 case-insensitive literal search used for every keyword and domain match,
 Python's argument-less `str.split()` and the first comma-separated field.
 */
module Text {
  import opened Wrappers

  /** ASCII lower-casing of one character; every other character is kept. */
  function LowerChar(c: char): char
  {
    if 'A' <= c <= 'Z' then (c as int + 32) as char else c
  }

  function Lower(s: string): (r: string)
    ensures |r| == |s|
    ensures forall i :: 0 <= i < |s| ==> r[i] == LowerChar(s[i])
  {
    seq(|s|, i requires 0 <= i < |s| => LowerChar(s[i]))
  }

  lemma LowerIdempotent(s: string)
    ensures Lower(Lower(s)) == Lower(s)
  {
  }

  /** `pat` occurs in `text` starting at index `i`. */
  predicate MatchesAt(text: string, pat: string, i: int)
  {
    0 <= i && i + |pat| <= |text| && text[i..i + |pat|] == pat
  }

  /** Leftmost occurrence of `pat` in `text` at or after `start`. */
  function FindFrom(text: string, pat: string, start: nat): Option<nat>
    decreases |text| - start
  {
    if start + |pat| > |text| then None
    else if text[start..start + |pat|] == pat then Some(start)
    else FindFrom(text, pat, start + 1)
  }

  /** `FindFrom` returns the first match at or after `start`, and `None` only when there is none. */
  lemma {:induction false} FindFromLeftmost(text: string, pat: string, start: nat)
    ensures var r := FindFrom(text, pat, start);
            && (r.Some? ==> start <= r.value && MatchesAt(text, pat, r.value))
            && (r.Some? ==> forall j :: start <= j < r.value ==> !MatchesAt(text, pat, j))
            && (r.None? ==> forall j :: start <= j ==> !MatchesAt(text, pat, j))
    decreases |text| - start
  {
    if start + |pat| <= |text| && text[start..start + |pat|] != pat {
      FindFromLeftmost(text, pat, start + 1);
    }
  }

  /** Ghost statement of a case-insensitive occurrence, independent of any search order. */
  ghost predicate OccursFolded(text: string, pat: string)
  {
    exists i :: MatchesAt(Lower(text), Lower(pat), i)
  }

  /**
   Start of the leftmost case-insensitive occurrence of `pat` in `text`: the
   literal reading of `re.search(pat, text, flags=re.IGNORECASE)`.
   */
  function FindFolded(text: string, pat: string): Option<nat>
  {
    FindFrom(Lower(text), Lower(pat), 0)
  }

  lemma FindFoldedLeftmost(text: string, pat: string)
    ensures var r := FindFolded(text, pat);
            && (r.Some? <==> OccursFolded(text, pat))
            && (r.Some? ==> r.value + |pat| <= |text|)
            && (r.Some? ==> MatchesAt(Lower(text), Lower(pat), r.value))
            && (r.Some? ==> forall j :: 0 <= j < r.value ==> !MatchesAt(Lower(text), Lower(pat), j))
  {
    FindFromLeftmost(Lower(text), Lower(pat), 0);
  }

  /** The single matching predicate every analyzer uses. */
  predicate ContainsFolded(text: string, pat: string)
  {
    FindFolded(text, pat).Some?
  }

  /** A text contains a pattern iff the pattern occurs in it, ignoring ASCII case. */
  lemma ContainsFoldedOccurs(text: string, pat: string)
    ensures ContainsFolded(text, pat) <==> OccursFolded(text, pat)
  {
    FindFoldedLeftmost(text, pat);
  }

  /** The matcher handed to each partition: "this text contains `pat`". */
  function Mentions(pat: string): string -> bool
  {
    text => ContainsFolded(text, pat)
  }

  /** Matching ignores the ASCII case of both the text and the pattern. */
  lemma ContainsFoldedIgnoresCase(text: string, pat: string)
    ensures ContainsFolded(Lower(text), pat) == ContainsFolded(text, pat)
    ensures ContainsFolded(text, Lower(pat)) == ContainsFolded(text, pat)
  {
    LowerIdempotent(text);
    LowerIdempotent(pat);
    ContainsFoldedOccurs(text, pat);
    ContainsFoldedOccurs(Lower(text), pat);
    ContainsFoldedOccurs(text, Lower(pat));
  }

  /** A text contains itself, and the empty pattern matches everything (as an empty regex does). */
  lemma ContainsFoldedReflexive(text: string)
    ensures ContainsFolded(text, text)
    ensures ContainsFolded(text, "")
  {
    assert MatchesAt(Lower(text), Lower(text), 0);
    assert MatchesAt(Lower(text), Lower(""), 0);
    ContainsFoldedOccurs(text, text);
    ContainsFoldedOccurs(text, "");
  }

  lemma MatchesAtConcatLeft(x: string, y: string, pat: string, i: int)
    requires MatchesAt(x, pat, i)
    ensures MatchesAt(x + y, pat, i)
  {
    assert (x + y)[i..i + |pat|] == x[i..i + |pat|];
  }

  lemma MatchesAtConcatRight(x: string, y: string, pat: string, i: int)
    requires MatchesAt(y, pat, i)
    ensures MatchesAt(x + y, pat, |x| + i)
  {
    assert (x + y)[|x| + i..|x| + i + |pat|] == y[i..i + |pat|];
  }

  /** Occurrence in a part implies occurrence in the whole. */
  lemma ContainsFoldedInConcat(a: string, b: string, pat: string)
    ensures ContainsFolded(a, pat) ==> ContainsFolded(a + b, pat)
    ensures ContainsFolded(b, pat) ==> ContainsFolded(a + b, pat)
  {
    var p := Lower(pat);
    assert Lower(a + b) == Lower(a) + Lower(b);
    ContainsFoldedOccurs(a, pat);
    ContainsFoldedOccurs(b, pat);
    ContainsFoldedOccurs(a + b, pat);
    if ContainsFolded(a, pat) {
      var i :| MatchesAt(Lower(a), p, i);
      MatchesAtConcatLeft(Lower(a), Lower(b), p, i);
    }
    if ContainsFolded(b, pat) {
      var i :| MatchesAt(Lower(b), p, i);
      MatchesAtConcatRight(Lower(a), Lower(b), p, i);
    }
  }

  // ---------------------------------------------------------------------------
  // Python's str.split() with no separator

  /** The characters Python's `str.isspace` accepts (and `str.split()` splits on). */
  predicate IsSpace(c: char)
  {
    var n := c as int;
    n == 0x20 || 0x09 <= n <= 0x0D || 0x1C <= n <= 0x1F || n == 0x85 || n == 0xA0
    || n == 0x1680 || 0x2000 <= n <= 0x200A || n == 0x2028 || n == 0x2029
    || n == 0x202F || n == 0x205F || n == 0x3000
  }

  predicate NoSpace(w: string)
  {
    forall k :: 0 <= k < |w| ==> !IsSpace(w[k])
  }

  /** The longest prefix of `s` without whitespace. */
  function TakeWord(s: string): (w: string)
    ensures w <= s
    ensures NoSpace(w)
    ensures |w| < |s| ==> IsSpace(s[|w|])
    ensures |s| > 0 && !IsSpace(s[0]) ==> |w| > 0
  {
    if |s| == 0 || IsSpace(s[0]) then [] else [s[0]] + TakeWord(s[1..])
  }

  /** `s.split()`: the maximal runs of non-whitespace characters, in order. */
  function Split(s: string): (ws: seq<string>)
    ensures forall k :: 0 <= k < |ws| ==> |ws[k]| > 0 && NoSpace(ws[k])
    decreases |s|
  {
    if |s| == 0 then []
    else if IsSpace(s[0]) then Split(s[1..])
    else
      var w := TakeWord(s);
      [w] + Split(s[|w|..])
  }

  /** A word ends at `i`: a non-space character followed by a space or the end of the text. */
  predicate EndsWordAt(s: string, i: int)
  {
    0 <= i < |s| && !IsSpace(s[i]) && (i + 1 == |s| || IsSpace(s[i + 1]))
  }

  /** Reference count of words, scanning one character at a time. */
  function WordEnds(s: string): nat
  {
    if |s| == 0 then 0 else (if EndsWordAt(s, 0) then 1 else 0) + WordEnds(s[1..])
  }

  lemma {:induction false} WordEndsAfterWord(s: string)
    requires |s| > 0 && !IsSpace(s[0])
    ensures WordEnds(s) == 1 + WordEnds(s[|TakeWord(s)|..])
    decreases |s|
  {
    if |s| == 1 || IsSpace(s[1]) {
      assert |TakeWord(s)| == 1;
    } else {
      assert TakeWord(s) == [s[0]] + TakeWord(s[1..]);
      WordEndsAfterWord(s[1..]);
      assert s[1..][|TakeWord(s[1..])|..] == s[|TakeWord(s)|..];
    }
  }

  /** The number of tokens `split()` yields equals the number of word ends. */
  lemma {:induction false} SplitCountsWords(s: string)
    ensures |Split(s)| == WordEnds(s)
    decreases |s|
  {
    if |s| == 0 {
    } else if IsSpace(s[0]) {
      SplitCountsWords(s[1..]);
    } else {
      WordEndsAfterWord(s);
      SplitCountsWords(s[|TakeWord(s)|..]);
    }
  }

  /** The non-whitespace characters of `s`, in order. */
  function DropSpaces(s: string): (r: string)
    ensures NoSpace(r)
  {
    if |s| == 0 then [] else (if IsSpace(s[0]) then [] else [s[0]]) + DropSpaces(s[1..])
  }

  function Concat(ws: seq<string>): string
  {
    if |ws| == 0 then [] else ws[0] + Concat(ws[1..])
  }

  lemma {:induction false} DropSpacesOfWord(w: string, rest: string)
    requires NoSpace(w)
    ensures DropSpaces(w + rest) == w + DropSpaces(rest)
    decreases |w|
  {
    if |w| > 0 {
      assert (w + rest)[1..] == w[1..] + rest;
      DropSpacesOfWord(w[1..], rest);
    } else {
      assert w + rest == rest;
    }
  }

  /** `split()` loses only whitespace: its tokens, joined, are the text's non-space characters. */
  lemma {:induction false} SplitKeepsNonSpace(s: string)
    ensures Concat(Split(s)) == DropSpaces(s)
    decreases |s|
  {
    if |s| == 0 {
    } else if IsSpace(s[0]) {
      SplitKeepsNonSpace(s[1..]);
    } else {
      var w := TakeWord(s);
      assert s == w + s[|w|..];
      SplitKeepsNonSpace(s[|w|..]);
      DropSpacesOfWord(w, s[|w|..]);
      assert ([w] + Split(s[|w|..]))[1..] == Split(s[|w|..]);
    }
  }

  // ---------------------------------------------------------------------------
  // str.split(',')[0]

  /** `s.split(',')[0]`: everything before the first comma, or all of `s`. */
  function FirstCommaField(s: string): (r: string)
    ensures r <= s
    ensures ',' !in r
    ensures |r| < |s| ==> s[|r|] == ','
  {
    if |s| == 0 || s[0] == ',' then [] else [s[0]] + FirstCommaField(s[1..])
  }
}
