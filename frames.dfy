/**
 * A dense table in the manner of a pandas DataFrame: row labels, column
 * labels and one sequence of cells per row. Column and row selection by a
 * list of positions covers reindexing, boolean masks and sorting.
 */
module Frames {
  import opened Seqs

  datatype Frame<T> = Frame(index: seq<string>, columns: seq<string>, data: seq<seq<T>>)

  /** One row of cells per row label, one cell per column label. */
  predicate Valid<T>(f: Frame<T>) {
    |f.data| == |f.index| && forall i :: 0 <= i < |f.data| ==> |f.data[i]| == |f.columns|
  }

  // ---------------------------------------------------------------------
  // Positions and permutations

  function Range(n: nat): (r: seq<nat>)
    ensures |r| == n && forall i :: 0 <= i < n ==> r[i] == i
  {
    seq(n, i => i)
  }

  /** `perm` lists each of 0 .. n-1 once, in some order. */
  predicate IsPermutation(perm: seq<nat>, n: nat) {
    multiset(perm) == multiset(Range(n))
  }

  lemma {:induction false} DistinctMultiplicity<T>(s: seq<T>, x: T)
    requires NoDuplicates(s)
    ensures multiset(s)[x] <= 1
  {
    if s != [] {
      var init := s[..|s| - 1];
      assert s == init + [s[|s| - 1]];
      DistinctMultiplicity(init, x);
      if x == s[|s| - 1] {
        assert x !in init;
      }
    }
  }

  lemma RepeatedMultiplicity<T>(s: seq<T>, a: nat, b: nat)
    requires a < b < |s| && s[a] == s[b]
    ensures multiset(s)[s[a]] >= 2
  {
    assert s == s[..b] + [s[b]] + s[b + 1..];
    assert s[..b][a] == s[a];
  }

  /** A permutation of 0 .. n-1 has n distinct elements below n. */
  lemma PermutationFacts(perm: seq<nat>, n: nat)
    requires IsPermutation(perm, n)
    ensures |perm| == n && NoDuplicates(perm)
    ensures forall j :: 0 <= j < |perm| ==> perm[j] < n
  {
    assert |perm| == |multiset(perm)| == |multiset(Range(n))| == n;
    forall j | 0 <= j < |perm| ensures perm[j] < n {
      assert perm[j] in multiset(perm);
      assert perm[j] in Range(n);
    }
    forall a, b | 0 <= a < b < |perm| ensures perm[a] != perm[b] {
      if perm[a] == perm[b] {
        RepeatedMultiplicity(perm, a, b);
        DistinctMultiplicity(Range(n), perm[a]);
        assert false;
      }
    }
  }

  /** A permutation of 0 .. n-1 lists every position below n. */
  lemma PermutationHits(perm: seq<nat>, n: nat, j: nat)
    requires IsPermutation(perm, n) && j < n
    ensures j in perm
  {
    assert Range(n)[j] == j;
    assert j in multiset(Range(n));
    assert j in multiset(perm);
  }

  /** The positions where `keep` holds, ascending (a boolean mask). */
  function Where(keep: seq<bool>): (ks: seq<nat>)
    ensures forall c :: 0 <= c < |ks| ==> ks[c] < |keep| && keep[ks[c]]
    ensures forall c, d :: 0 <= c < d < |ks| ==> ks[c] < ks[d]
    ensures forall j :: 0 <= j < |keep| && keep[j] ==> j in ks
  {
    if keep == [] then []
    else Where(keep[..|keep| - 1]) + (if keep[|keep| - 1] then [|keep| - 1] else [])
  }

  /** A mask that keeps everything keeps every position, in order. */
  lemma {:induction false} WhereAll(keep: seq<bool>)
    requires forall j :: 0 <= j < |keep| ==> keep[j]
    ensures |Where(keep)| == |keep| && forall c :: 0 <= c < |keep| ==> Where(keep)[c] == c
  {
    if keep != [] {
      WhereAll(keep[..|keep| - 1]);
    }
  }

  // ---------------------------------------------------------------------
  // Selection

  /** The columns at positions `cols`, in that order (DataFrame.reindex with
      existing labels, or .loc with a boolean mask). */
  function SelectColumns<T>(f: Frame<T>, cols: seq<nat>): (r: Frame<T>)
    requires Valid(f) && forall c :: 0 <= c < |cols| ==> cols[c] < |f.columns|
    ensures Valid(r) && r.index == f.index && |r.columns| == |cols|
    ensures forall c :: 0 <= c < |cols| ==> r.columns[c] == f.columns[cols[c]]
    ensures forall i, c :: 0 <= i < |f.data| && 0 <= c < |cols| ==> r.data[i][c] == f.data[i][cols[c]]
  {
    Frame(f.index, seq(|cols|, c requires 0 <= c < |cols| => f.columns[cols[c]]),
      seq(|f.data|, i requires 0 <= i < |f.data| =>
        seq(|cols|, c requires 0 <= c < |cols| => f.data[i][cols[c]])))
  }

  /** The rows at positions `rows`, in that order. */
  function SelectRows<T>(f: Frame<T>, rows: seq<nat>): (r: Frame<T>)
    requires Valid(f) && forall c :: 0 <= c < |rows| ==> rows[c] < |f.index|
    ensures Valid(r) && r.columns == f.columns && |r.index| == |rows|
    ensures forall c :: 0 <= c < |rows| ==> r.index[c] == f.index[rows[c]] && r.data[c] == f.data[rows[c]]
  {
    Frame(seq(|rows|, c requires 0 <= c < |rows| => f.index[rows[c]]), f.columns,
      seq(|rows|, c requires 0 <= c < |rows| => f.data[rows[c]]))
  }

  /** Label order on row positions; positions past the rows come last. */
  predicate ByLabel<T>(f: Frame<T>, a: nat, b: nat) {
    if a < |f.index| && b < |f.index| then StrLe(f.index[a], f.index[b]) else b >= |f.index|
  }

  /** The row positions of `f` ordered by label (sort_index). */
  function RowsByLabel<T>(f: Frame<T>): seq<nat> {
    Sort(Range(|f.index|), (a: nat, b: nat) => ByLabel(f, a, b))
  }

  /** RowsByLabel is a permutation of the rows that puts the labels in order. */
  lemma RowsByLabelSpec<T>(f: Frame<T>)
    ensures var p := RowsByLabel(f);
      IsPermutation(p, |f.index|) &&
      forall c, d :: 0 <= c < d < |p| ==> p[c] < |f.index| && p[d] < |f.index| && StrLe(f.index[p[c]], f.index[p[d]])
  {
    var le := (a: nat, b: nat) => ByLabel(f, a, b);
    StrLeTotalPreorder();
    forall a: nat, b: nat, c: nat | le(a, b) && le(b, c) ensures le(a, c) {
      if c < |f.index| {
        assert StrLe(f.index[a], f.index[b]) && StrLe(f.index[b], f.index[c]);
      }
    }
    SortSorted(Range(|f.index|), le);
    var p := RowsByLabel(f);
    PermutationFacts(p, |f.index|);
    forall c, d | 0 <= c < d < |p| ensures StrLe(f.index[p[c]], f.index[p[d]]) {
      assert le(p[c], p[d]);
    }
  }

  // ---------------------------------------------------------------------
  // Sums

  /** The cells of column `j`, top to bottom. */
  function Column(f: Frame<real>, j: nat): (col: seq<real>)
    requires Valid(f) && j < |f.columns|
    ensures |col| == |f.data| && forall i :: 0 <= i < |f.data| ==> col[i] == f.data[i][j]
  {
    seq(|f.data|, i requires 0 <= i < |f.data| => f.data[i][j])
  }

  /** df.sum(axis=0)[j]; 0 for a position that is not a column. */
  function ColumnSum(f: Frame<real>, j: nat): real {
    if Valid(f) && j < |f.columns| then RSum(Column(f, j)) else 0.0
  }

  /** A column keeps its sum when it is selected. */
  lemma SelectedColumnSum(f: Frame<real>, cols: seq<nat>, c: nat)
    requires Valid(f) && forall k :: 0 <= k < |cols| ==> cols[k] < |f.columns|
    requires c < |cols|
    ensures ColumnSum(SelectColumns(f, cols), c) == ColumnSum(f, cols[c])
  {
    assert Column(SelectColumns(f, cols), c) == Column(f, cols[c]);
  }

  /** Non-increasing column sum, as an order on positions. */
  predicate BySumDescending(f: Frame<real>, a: nat, b: nat) {
    ColumnSum(f, a) >= ColumnSum(f, b)
  }

  lemma BySumDescendingPreorder(f: Frame<real>)
    ensures TotalPreorder((a: nat, b: nat) => BySumDescending(f, a, b))
  {
  }

  /** The column positions of `f` ordered by non-increasing column sum. */
  function ColumnsBySum(f: Frame<real>): seq<nat> {
    Sort(Range(|f.columns|), (a: nat, b: nat) => BySumDescending(f, a, b))
  }

  /** ColumnsBySum is a permutation of the columns whose sums do not increase. */
  lemma ColumnsBySumSpec(f: Frame<real>)
    ensures IsPermutation(ColumnsBySum(f), |f.columns|)
    ensures var p := ColumnsBySum(f);
      forall j, k :: 0 <= j < k < |p| ==> ColumnSum(f, p[j]) >= ColumnSum(f, p[k])
  {
    var le := (a: nat, b: nat) => BySumDescending(f, a, b);
    BySumDescendingPreorder(f);
    SortSorted(Range(|f.columns|), le);
  }
}
