/**
 The order-preserving two-way split behind every "with keyword / without
 keyword" and "internal / external" list of the report: each item is
 appended, in input order, to one of two lists.
 */
module Partitions {

  /** Items that satisfy the test, and the others. */
  datatype Bins<T> = Bins(matching: seq<T>, others: seq<T>)

  /** Items appended one at a time, as the script's `for` loops do with `list.append`. */
  function Partition<T>(xs: seq<T>, inside: T -> bool): (b: Bins<T>)
    ensures |b.matching| + |b.others| == |xs|
    ensures forall k :: 0 <= k < |b.matching| ==> inside(b.matching[k])
    ensures forall k :: 0 <= k < |b.others| ==> !inside(b.others[k])
    decreases |xs|
  {
    if |xs| == 0 then Bins([], [])
    else
      var front := xs[..|xs| - 1];
      var x := xs[|xs| - 1];
      var b := Partition(front, inside);
      if inside(x) then Bins(b.matching + [x], b.others)
      else Bins(b.matching, b.others + [x])
  }

  /** Nothing is lost or duplicated: the two lists together are a permutation of the input. */
  lemma {:induction false} PartitionPermutes<T>(xs: seq<T>, inside: T -> bool)
    ensures multiset(Partition(xs, inside).matching) + multiset(Partition(xs, inside).others) == multiset(xs)
    decreases |xs|
  {
    if |xs| > 0 {
      var front := xs[..|xs| - 1];
      assert xs == front + [xs[|xs| - 1]];
      PartitionPermutes(front, inside);
    }
  }

  /**
   Order is preserved: partitioning a concatenation concatenates the
   partitions, so every item keeps its relative position within its list.
   */
  lemma {:induction false} PartitionConcat<T>(xs: seq<T>, ys: seq<T>, inside: T -> bool)
    ensures Partition(xs + ys, inside).matching
            == Partition(xs, inside).matching + Partition(ys, inside).matching
    ensures Partition(xs + ys, inside).others
            == Partition(xs, inside).others + Partition(ys, inside).others
    decreases |ys|
  {
    if |ys| == 0 {
      assert xs + ys == xs;
    } else {
      var ys' := ys[..|ys| - 1];
      assert (xs + ys)[..|xs + ys| - 1] == xs + ys';
      assert (xs + ys)[|xs + ys| - 1] == ys[|ys| - 1];
      PartitionConcat(xs, ys', inside);
    }
  }

  /** An item lands in exactly one list: the matching one iff it passes the test. */
  lemma PartitionMembership<T>(xs: seq<T>, inside: T -> bool, x: T)
    ensures x in Partition(xs, inside).matching <==> x in xs && inside(x)
    ensures x in Partition(xs, inside).others <==> x in xs && !inside(x)
  {
    var b := Partition(xs, inside);
    PartitionPermutes(xs, inside);
    assert x in b.matching <==> x in multiset(b.matching);
    assert x in b.others <==> x in multiset(b.others);
    assert x in xs <==> x in multiset(xs);
  }

  /** When every item passes the test, the matching list is the input itself. */
  lemma {:induction false} PartitionAllInside<T>(xs: seq<T>, inside: T -> bool)
    requires forall k :: 0 <= k < |xs| ==> inside(xs[k])
    ensures Partition(xs, inside).matching == xs
    ensures Partition(xs, inside).others == []
    decreases |xs|
  {
    if |xs| > 0 {
      PartitionAllInside(xs[..|xs| - 1], inside);
    }
  }
}
