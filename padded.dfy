/**
 * Coverage vectors added element by element, the shorter one counting as
 * zero-padded: the common meaning of coveragesum's add, coverage_plot2's
 * accumulation and coverage.py's mysum.
 */
module Padded {
  import opened Seqs

  /** Element `i` of `a`, 0 past its end. */
  function At(a: seq<int>, i: nat): int {
    if i < |a| then a[i] else 0
  }

  /** The longest length among `vs` (0 when there are none). */
  function MaxLen(vs: seq<seq<int>>): nat {
    if vs == [] then 0 else Max(MaxLen(vs[..|vs| - 1]), |vs[|vs| - 1]|)
  }

  /** The sum over `vs` of their element `i`, each padded with zeros. */
  function Total(vs: seq<seq<int>>, i: nat): int {
    if vs == [] then 0 else Total(vs[..|vs| - 1], i) + At(vs[|vs| - 1], i)
  }

  /** `r` is the padded element-wise sum of `a` and `b`. */
  predicate IsPadSum(r: seq<int>, a: seq<int>, b: seq<int>) {
    |r| == Max(|a|, |b|) && forall i :: 0 <= i < |r| ==> r[i] == At(a, i) + At(b, i)
  }

  /** `acc` holds the padded total of `vs`: as long as the longest, and
      element `i` is the sum of the elements `i`. */
  predicate IsTotal(acc: seq<int>, vs: seq<seq<int>>) {
    |acc| == MaxLen(vs) && forall i :: 0 <= i < |acc| ==> acc[i] == Total(vs, i)
  }

  lemma AtPastEnd(acc: seq<int>, vs: seq<seq<int>>, i: nat)
    requires IsTotal(acc, vs) && i >= |acc|
    ensures Total(vs, i) == 0
  {
    MaxLenBound(vs);
    TotalPastEnd(vs, i);
  }

  lemma {:induction false} MaxLenBound(vs: seq<seq<int>>)
    ensures forall k :: 0 <= k < |vs| ==> |vs[k]| <= MaxLen(vs)
  {
    if vs != [] {
      MaxLenBound(vs[..|vs| - 1]);
    }
  }

  lemma {:induction false} TotalPastEnd(vs: seq<seq<int>>, i: nat)
    requires i >= MaxLen(vs)
    ensures Total(vs, i) == 0
  {
    if vs != [] {
      TotalPastEnd(vs[..|vs| - 1], i);
    }
  }

  /** A vector on its own is its own padded total. */
  lemma TotalSingle(v: seq<int>)
    ensures IsTotal(v, [v])
  {
    var vs := [v];
    assert vs[..0] == [];
    forall i | 0 <= i < |v| ensures v[i] == Total(vs, i) {
    }
  }

  /** Adding one more vector to a padded total gives the padded total of
      all of them. */
  lemma TotalSnoc(acc: seq<int>, vs: seq<seq<int>>, v: seq<int>, r: seq<int>)
    requires IsTotal(acc, vs) && IsPadSum(r, acc, v)
    ensures IsTotal(r, vs + [v])
  {
    var ws := vs + [v];
    assert ws[..|vs|] == vs;
    forall i | 0 <= i < |r| ensures r[i] == Total(ws, i) {
      if i >= |acc| {
        AtPastEnd(acc, vs, i);
      }
    }
  }
}
