/** Matching species names of the VSP2 panel against Kraken result names by
  * shared 4-grams: an index from each 4-gram to the names holding it, with
  * too common 4-grams dropped, then a search per query and a final
  * edit-distance filter. Reading the JSON files and the global alignment are
  * outside this model: the names are given, and the alignment score is a
  * function parameter. */
module Vsp2Str {
  import opened Seqs
  import Strs
  import Common

  const GramLen: nat := 4

  // ---------------------------------------------------------------------
  // Loading names

  /** Lower-cases every name in place. */
  method LowerAll(keys: array<string>)
    modifies keys
    ensures forall i :: 0 <= i < keys.Length ==> keys[i] == Strs.ToLower(old(keys[i]))
  {
    for i := 0 to keys.Length
      invariant forall j :: 0 <= j < i ==> keys[j] == Strs.ToLower(old(keys[j]))
      invariant forall j :: i <= j < keys.Length ==> keys[j] == old(keys[j])
    {
      keys[i] := Strs.ToLower(keys[i]);
    }
  }

  // ---------------------------------------------------------------------
  // Substrings

  /** The length-n substring of s at i. */
  function Gram(s: string, i: int, n: nat): (g: string)
    requires 0 <= i <= |s| - n
    ensures |g| == n && g <= s[i..]
  {
    s[i..i + n]
  }

  /** All length-n substrings of s. */
  ghost function Grams(s: string, n: nat): set<string>
  {
    set i | 0 <= i <= |s| - n :: Gram(s, i, n)
  }

  /** Collects the length-n substrings of s; none when s is shorter. */
  method Substrs(s: string, n: nat) returns (ss: set<string>)
    ensures ss == Grams(s, n)
  {
    ss := {};
    var i := 0;
    while i < |s| - n + 1
      invariant 0 <= i && (|s| >= n ==> i <= |s| - n + 1)
      invariant ss == set j | 0 <= j < i && j <= |s| - n :: Gram(s, j, n)
    {
      ss := ss + {Gram(s, i, n)};
      i := i + 1;
    }
  }

  // ---------------------------------------------------------------------
  // The index

  /** The indices of the names holding `g`, ascending. */
  ghost function Posting(names: seq<string>, g: string): seq<int>
  {
    if names == [] then []
    else Posting(names[..|names| - 1], g) + (if g in Grams(names[|names| - 1], GramLen) then [|names| - 1] else [])
  }

  predicate StrictlyIncreasing(s: seq<int>)
  {
    forall i, j :: 0 <= i < j < |s| ==> s[i] < s[j]
  }

  /** A posting list is strictly increasing and holds exactly the names
    * that contain the 4-gram. */
  lemma {:induction false} PostingSpec(names: seq<string>, g: string)
    ensures StrictlyIncreasing(Posting(names, g))
    ensures forall i :: i in Posting(names, g) <==> 0 <= i < |names| && g in Grams(names[i], GramLen)
  {
    if names != [] {
      var pre := names[..|names| - 1];
      PostingSpec(pre, g);
      var p := Posting(pre, g);
      var here := g in Grams(names[|pre|], GramLen);
      assert Posting(names, g) == p + (if here then [|pre|] else []);
      IncreasingSnoc(p, |pre|);
      forall i ensures i in Posting(names, g) <==> 0 <= i < |names| && g in Grams(names[i], GramLen) {
        if 0 <= i < |pre| {
          assert names[i] == pre[i];
        }
      }
    }
  }

  /** A posting list of earlier names stays increasing with `n` appended. */
  lemma IncreasingSnoc(p: seq<int>, n: int)
    requires StrictlyIncreasing(p) && forall i :: i in p ==> i < n
    ensures StrictlyIncreasing(p + [n])
  {
    assert forall k :: 0 <= k < |p| ==> p[k] in p;
  }

  /** idx maps each 4-gram of the names before `done` to its posting list. */
  ghost predicate IndexedUpTo(idx: map<string, seq<int>>, names: seq<string>, done: nat)
    requires done <= |names|
  {
    forall g :: (g in idx <==> Posting(names[..done], g) != []) &&
                (g in idx ==> idx[g] == Posting(names[..done], g))
  }

  /** Appends name i to the lists of its 4-grams. */
  method AddName(idx0: map<string, seq<int>>, names: seq<string>, i: nat) returns (idx: map<string, seq<int>>)
    requires i < |names| && IndexedUpTo(idx0, names, i)
    ensures IndexedUpTo(idx, names, i + 1)
  {
    var grams := Substrs(names[i], GramLen);
    var gs := Common.SetToSeq(grams);
    idx := idx0;
    assert names[..i + 1][..i] == names[..i];
    for j := 0 to |gs|
      invariant forall g :: g in gs[..j] ==> g in idx && idx[g] == Posting(names[..i], g) + [i]
      invariant forall g :: g !in gs[..j] ==> (g in idx <==> g in idx0) && (g in idx ==> idx[g] == idx0[g])
    {
      var g := gs[j];
      assert gs[..j + 1] == gs[..j] + [g];
      assert forall k :: 0 <= k < j ==> gs[..j][k] != g;
      assert g !in gs[..j];
      idx := idx[g := (if g in idx then idx[g] else []) + [i]];
    }
    assert gs[..|gs|] == gs;
    assert forall g :: g in gs <==> g in grams;
    forall g ensures (g in idx <==> Posting(names[..i + 1], g) != []) &&
                     (g in idx ==> idx[g] == Posting(names[..i + 1], g)) {
      assert Posting(names[..i + 1], g) ==
        Posting(names[..i], g) + (if g in Grams(names[i], GramLen) then [i] else []);
    }
  }

  /** The index of all names. */
  method BuildIndex(names: seq<string>) returns (idx: map<string, seq<int>>)
    ensures IndexedUpTo(idx, names, |names|)
  {
    idx := map[];
    for i := 0 to |names|
      invariant IndexedUpTo(idx, names, i)
    {
      idx := AddName(idx, names, i);
    }
  }

  /** The integer nearest to the square root of n: r - 1/2 <= sqrt(n) < r + 1/2. */
  function RoundSqrt(n: nat): (r: nat)
    ensures r == 0 || (2 * r - 1) * (2 * r - 1) <= 4 * n
    ensures 4 * n < (2 * r + 1) * (2 * r + 1)
  {
    RoundSqrtFrom(n, 0)
  }

  /** Counts r up from a value not past the answer. */
  function RoundSqrtFrom(n: nat, r: nat): (s: nat)
    requires r == 0 || (2 * r - 1) * (2 * r - 1) <= 4 * n
    ensures s == 0 || (2 * s - 1) * (2 * s - 1) <= 4 * n
    ensures 4 * n < (2 * s + 1) * (2 * s + 1)
    decreases 4 * n + 1 - r
  {
    if 4 * n < (2 * r + 1) * (2 * r + 1) then r
    else
      assert r <= (2 * r + 1) * (2 * r + 1) <= 4 * n;
      RoundSqrtFrom(n, r + 1)
  }

  /** Keeps exactly the entries whose lists have at most mx indices. */
  method FilterIndex(idx: map<string, seq<int>>, mx: int) returns (idx2: map<string, seq<int>>)
    ensures forall g :: g in idx2 <==> g in idx && |idx[g]| <= mx
    ensures forall g :: g in idx2 ==> idx2[g] == idx[g]
  {
    idx2 := map[];
    var keys := Common.SetToSeq(idx.Keys);
    for j := 0 to |keys|
      invariant forall g :: g in idx2 <==> g in Elems(keys[..j]) && |idx[g]| <= mx
      invariant forall g :: g in idx2 ==> idx2[g] == idx[g]
    {
      var g := keys[j];
      assert keys[..j + 1] == keys[..j] + [g];
      if |idx[g]| <= mx {
        idx2 := idx2[g := idx[g]];
      }
    }
    assert keys[..|keys|] == keys;
  }

  // ---------------------------------------------------------------------
  // Searching

  /** Name i is on the list of one of the 4-grams of s. */
  ghost predicate Hit(idx: map<string, seq<int>>, s: string, i: int)
  {
    exists g :: g in Grams(s, GramLen) && g in idx && i in idx[g]
  }

  /** The indices on the lists of the query's 4-grams. */
  method SearchIndex(idx: map<string, seq<int>>, s: string) returns (found: set<int>)
    ensures forall i :: i in found <==> Hit(idx, s, i)
  {
    var grams := Substrs(s, GramLen);
    var gs := Common.SetToSeq(grams);
    found := {};
    for j := 0 to |gs|
      invariant forall i :: i in found <==> exists g :: g in gs[..j] && g in idx && i in idx[g]
    {
      var g := gs[j];
      assert gs[..j + 1] == gs[..j] + [g];
      var list := if g in idx then idx[g] else [];
      for k := 0 to |list|
        invariant forall i :: i in found <==> (exists g' :: g' in gs[..j] && g' in idx && i in idx[g']) || i in list[..k]
      {
        assert list[..k + 1] == list[..k] + [list[k]];
        found := found + {list[k]};
      }
      assert list[..|list|] == list;
    }
    assert gs[..|gs|] == gs;
    assert forall g :: g in gs <==> g in grams;
  }

  /** With the index built from the names and filtered at mx, a name is hit
    * exactly when it shares with the query a 4-gram held by at most mx names. */
  lemma HitSpec(names: seq<string>, idx: map<string, seq<int>>, mx: int, s: string, i: int)
    requires forall g :: g in idx <==> Posting(names, g) != [] && |Posting(names, g)| <= mx
    requires forall g :: g in idx ==> idx[g] == Posting(names, g)
    ensures Hit(idx, s, i) <==>
      0 <= i < |names| && exists g :: g in Grams(s, GramLen) && g in Grams(names[i], GramLen) && |Posting(names, g)| <= mx
  {
    if Hit(idx, s, i) {
      var g :| g in Grams(s, GramLen) && g in idx && i in idx[g];
      PostingSpec(names, g);
    }
    if 0 <= i < |names| && exists g :: g in Grams(s, GramLen) && g in Grams(names[i], GramLen) && |Posting(names, g)| <= mx {
      var g :| g in Grams(s, GramLen) && g in Grams(names[i], GramLen) && |Posting(names, g)| <= mx;
      PostingSpec(names, g);
      assert i in Posting(names, g);
    }
  }

  // ---------------------------------------------------------------------
  // The report

  /** A query and the panel names close enough to it. */
  datatype Report = Report(query: string, names: seq<string>)

  /** The alignment score clears the bar: above minus a fifth of the longer
    * length. */
  predicate Close(q: string, s: string, score: (string, string) -> real)
  {
    score(q, s) > -(Max(|q|, |s|) as real) / 5.0
  }

  /** The panel names, among `found`, close to q. */
  method CloseNames(vsp2: seq<string>, found: set<int>, q: string, score: (string, string) -> real)
    returns (names: seq<string>)
    requires forall i :: i in found ==> 0 <= i < |vsp2|
    ensures forall x :: x in names <==> exists i :: i in found && vsp2[i] == x && Close(q, x, score)
  {
    var ids := Common.SetToSeq(found);
    assert forall k :: 0 <= k < |ids| ==> ids[k] in found;
    names := [];
    for j := 0 to |ids|
      invariant forall x :: x in names <==> exists k :: 0 <= k < j && vsp2[ids[k]] == x && Close(q, x, score)
    {
      var s := vsp2[ids[j]];
      if Close(q, s, score) {
        names := names + [s];
      }
    }
    forall x ensures (exists k :: 0 <= k < |ids| && vsp2[ids[k]] == x && Close(q, x, score)) <==>
                     (exists i :: i in found && vsp2[i] == x && Close(q, x, score)) {
      if exists i :: i in found && vsp2[i] == x && Close(q, x, score) {
        var i :| i in found && vsp2[i] == x && Close(q, x, score);
        assert i in ids;
      }
    }
  }

  /** Name i shares with q a 4-gram held by at most mx names. */
  ghost predicate Shares(names: seq<string>, q: string, i: int, mx: int)
  {
    0 <= i < |names| &&
    exists g :: g in Grams(q, GramLen) && g in Grams(names[i], GramLen) && |Posting(names, g)| <= mx
  }

  /** Builds the index over the panel names, drops the 4-grams held by more
    * than round(sqrt(#names)) of them, and reports, in query order, each
    * query with at least one close hit, with all its close hits. */
  method Run(vsp2: seq<string>, queries: seq<string>, score: (string, string) -> real)
    returns (reports: seq<Report>)
    ensures forall r :: r in reports ==> r.query in queries && r.names != []
    ensures forall r, x :: r in reports ==> (x in r.names <==>
      exists i :: Shares(vsp2, r.query, i, RoundSqrt(|vsp2|)) && vsp2[i] == x && Close(r.query, x, score))
    ensures forall q :: q in queries && (exists i :: Shares(vsp2, q, i, RoundSqrt(|vsp2|)) && Close(q, vsp2[i], score)) ==>
      exists r :: r in reports && r.query == q
  {
    var idx := BuildIndex(vsp2);
    var mx := RoundSqrt(|vsp2|);
    assert vsp2[..|vsp2|] == vsp2;
    idx := FilterIndex(idx, mx);
    reports := [];
    for j := 0 to |queries|
      invariant forall r :: r in reports ==> r.query in queries && r.names != []
      invariant forall r, x :: r in reports ==> (x in r.names <==>
        exists i :: Shares(vsp2, r.query, i, mx) && vsp2[i] == x && Close(r.query, x, score))
      invariant forall k :: 0 <= k < j && (exists i :: Shares(vsp2, queries[k], i, mx) && Close(queries[k], vsp2[i], score)) ==>
        exists r :: r in reports && r.query == queries[k]
    {
      var q := queries[j];
      var found := SearchIndex(idx, q);
      forall i ensures i in found <==> Shares(vsp2, q, i, mx) {
        HitSpec(vsp2, idx, mx, q, i);
      }
      var names := CloseNames(vsp2, found, q, score);
      if |names| > 0 {
        reports := reports + [Report(q, names)];
      } else {
        forall i | Shares(vsp2, q, i, mx) ensures !Close(q, vsp2[i], score) {
          assert vsp2[i] !in names;
        }
      }
    }
  }
}
