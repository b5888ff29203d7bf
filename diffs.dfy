/**
 * In-place delta encoding of integer slices (common/diffs.go), used to store
 * sorted k-mer positions compactly.
 */
module Diffs {
  import opened Seqs

  /** The delta encoding of `s`: its first element, then each element minus
      its predecessor. Empty and one-element sequences are their own encoding. */
  function Diffs(s: seq<int>): (d: seq<int>)
    ensures |d| == |s|
    ensures |s| <= 1 ==> d == s
  {
    seq(|s|, k requires 0 <= k < |s| => if k == 0 then s[0] else s[k] - s[k - 1])
  }

  /** The running prefix sums of `s`: element k is the sum of s[0..k]. */
  function PrefixSums(s: seq<int>): (p: seq<int>)
    ensures |p| == |s|
    ensures |s| <= 1 ==> p == s
  {
    var p := seq(|s|, k requires 0 <= k < |s| => Sum(s[..k + 1]));
    if |s| == 1 then SumSnoc(s, 0); p else p
  }

  /** Replaces every element after the first by its difference from its
      predecessor. The loop runs from the last index down, so each
      subtraction reads a predecessor that has not been rewritten yet. */
  method ToDiffs(a: array<int>)
    modifies a
    ensures a[..] == Diffs(old(a[..]))
  {
    var last := a.Length - 1;
    if last == -1 {
      return;
    }
    var i := 0;
    while i < last
      invariant 0 <= i <= last
      invariant forall k :: 0 <= k <= last - i ==> a[k] == old(a[k])
      invariant forall k :: last - i < k <= last ==> a[k] == old(a[k]) - old(a[k - 1])
    {
      a[last - i] := a[last - i] - a[last - i - 1];
      i := i + 1;
    }
  }

  lemma SumSnoc(s: seq<int>, i: nat)
    requires i < |s|
    ensures Sum(s[..i + 1]) == Sum(s[..i]) + s[i]
  {
    assert s[..i + 1][..i] == s[..i];
  }

  /** Replaces the slice by its running prefix sums, front to back. */
  method FromDiffs(a: array<int>)
    modifies a
    ensures a[..] == PrefixSums(old(a[..]))
  {
    if a.Length == 0 {
      return;
    }
    ghost var s := a[..];
    var i := 0;
    SumSnoc(s, 0);
    while i < a.Length - 1
      invariant 0 <= i <= a.Length - 1
      invariant forall k :: 0 <= k <= i ==> a[k] == Sum(s[..k + 1])
      invariant forall k :: i < k < a.Length ==> a[k] == s[k]
    {
      SumSnoc(s, i + 1);
      a[i + 1] := a[i + 1] + a[i];
      i := i + 1;
    }
  }

  lemma {:induction false} SumOfDiffsPrefix(s: seq<int>, k: nat)
    requires k < |s|
    ensures Sum(Diffs(s)[..k + 1]) == s[k]
  {
    SumSnoc(Diffs(s), k);
    if k > 0 {
      SumOfDiffsPrefix(s, k - 1);
    }
  }

  /** Decoding an encoding gives the original back. */
  lemma FromDiffsOfToDiffs(s: seq<int>)
    ensures PrefixSums(Diffs(s)) == s
  {
    forall k | 0 <= k < |s| ensures PrefixSums(Diffs(s))[k] == s[k] {
      SumOfDiffsPrefix(s, k);
    }
  }

  /** Encoding a decoding gives the original back. */
  lemma ToDiffsOfFromDiffs(s: seq<int>)
    ensures Diffs(PrefixSums(s)) == s
  {
    forall k | 0 <= k < |s| ensures Diffs(PrefixSums(s))[k] == s[k] {
      SumSnoc(s, k);
    }
  }

  /** The squares 1..25 encode to the odd numbers 1..9, and back. */
  lemma SquaresExample()
    ensures Diffs([1, 4, 9, 16, 25]) == [1, 3, 5, 7, 9]
    ensures PrefixSums([1, 3, 5, 7, 9]) == [1, 4, 9, 16, 25]
  {
    assert Diffs([1, 4, 9, 16, 25]) == [1, 3, 5, 7, 9];
    FromDiffsOfToDiffs([1, 4, 9, 16, 25]);
  }
}
