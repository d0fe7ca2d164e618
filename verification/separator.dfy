/**
 Section dividers for the console report: a newline followed by a pattern
 repeated and cut to an exact width.
 */
module Separator {

  /** Width of every section and sub-section divider. */
  const DividerWidth: nat := 80

  /** `s * k` in Python. */
  function Repeat(s: string, k: nat): (r: string)
    ensures |r| == |s| * k
  {
    if k == 0 then [] else s + Repeat(s, k - 1)
  }

  lemma {:induction false} RepeatAt(s: string, k: nat, a: nat, b: nat)
    requires b < |s| && a < k
    ensures a * |s| + b < |Repeat(s, k)|
    ensures Repeat(s, k)[a * |s| + b] == s[b]
    decreases a
  {
    assert |s| * k == |s| * (k - 1) + |s|;
    if a > 0 {
      RepeatAt(s, k - 1, a - 1, b);
      assert a * |s| + b == (a - 1) * |s| + b + |s|;
    }
  }

  /** Multiplying by the same factor keeps the order. */
  lemma {:induction false} MulMonotone(k: nat, a: nat, m: nat)
    requires k <= a
    ensures k * m <= a * m && m * k <= m * a
    decreases m
  {
    if m > 0 {
      MulMonotone(k, a, m - 1);
      assert k * m == k * (m - 1) + k;
      assert a * m == a * (m - 1) + a;
    }
  }

  /** Every character of `s * k` is the pattern read cyclically. */
  lemma RepeatCyclic(s: string, k: nat, x: nat)
    requires |s| > 0 && x < |s| * k
    ensures x < |Repeat(s, k)| && Repeat(s, k)[x] == s[x % |s|]
  {
    var a, b := x / |s|, x % |s|;
    assert x == a * |s| + b;
    assert a * |s| <= x;
    if k <= a {
      MulMonotone(k, a, |s|);
      assert false;
    }
    RepeatAt(s, k, a, b);
  }

  lemma RepeatCoversWidth(m: nat, n: nat)
    requires m > 0
    ensures m * (n / m + 1) > n
  {
    assert n == m * (n / m) + n % m;
  }

  /**
   `separator_length(s, n)`: a newline, then `s` repeated `n / |s| + 1` times,
   cut to the first `n` characters. An empty `s` divides by zero in the script.
   */
  function SeparatorLength(s: string, n: nat): (r: string)
    requires |s| > 0
    ensures |r| == n
    ensures n >= 1 ==> r[0] == '\n'
    ensures forall i :: 1 <= i < n ==> r[i] == s[(i - 1) % |s|]
  {
    var repeats := n / |s| + 1;
    var full := "\n" + Repeat(s, repeats);
    RepeatCoversWidth(|s|, n);
    forall i | 1 <= i < n
      ensures full[i] == s[(i - 1) % |s|]
    {
      RepeatCyclic(s, repeats, i - 1);
    }
    full[..n]
  }

  /** A shorter separator is a prefix of a longer one over the same pattern. */
  lemma SeparatorPrefix(s: string, m: nat, n: nat)
    requires |s| > 0 && m <= n
    ensures SeparatorLength(s, m) <= SeparatorLength(s, n)
  {
  }

  /**
   The shared layout of `section_heading` (fill `=`) and `sub_section_heading`
   (fill `*`): a newline, the heading, then an 80-wide divider line.
   */
  function DividedHeading(heading: string, fill: char): (r: string)
    ensures |r| == |heading| + 1 + DividerWidth
    ensures r[0] == '\n' && r[1..|heading| + 1] == heading && r[|heading| + 1] == '\n'
    ensures forall i :: |heading| + 2 <= i < |r| ==> r[i] == fill
  {
    "\n" + heading + SeparatorLength([fill], DividerWidth)
  }
}
