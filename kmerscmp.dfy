/** Comparing the k-mer files written by the extraction step: k-mers seen at
  * least MinCount times over all files are kept, and for each of them a row
  * records in which files it occurs. Globbing, reading and the JSON output
  * are outside this model: each file is given by its path and its encoded
  * contents, and the result is the names and the table. */
module KmersCmp {
  import Strs
  import Diffs
  import Kmers
  import Common
  import Seqs

  const MinCount: int := 6

  // ---------------------------------------------------------------------
  // Reading a file

  /** Decodes a file's delta-encoded positions. */
  method ReadFile(encoded: seq<int>) returns (a: seq<int>)
    ensures a == Diffs.PrefixSums(encoded)
  {
    var arr := new int[|encoded|](i requires 0 <= i < |encoded| => encoded[i]);
    assert arr[..] == encoded;
    Diffs.FromDiffs(arr);
    a := arr[..];
  }

  /** Reading back what the extraction step wrote gives its positions. */
  lemma ReadsBackExtraction(files: seq<seq<Kmers.Read>>)
    ensures Diffs.PrefixSums(Diffs.Diffs(Kmers.Repeated(Kmers.AllHashes(files), Kmers.Size)))
         == Kmers.Repeated(Kmers.AllHashes(files), Kmers.Size)
  {
    Diffs.FromDiffsOfToDiffs(Kmers.Repeated(Kmers.AllHashes(files), Kmers.Size));
  }

  // ---------------------------------------------------------------------
  // Counting

  /** The number of times k occurs in s. */
  function Occ(s: seq<int>, k: int): nat
  {
    if s == [] then 0 else Occ(s[..|s| - 1], k) + (if s[|s| - 1] == k then 1 else 0)
  }

  lemma {:induction false} OccMember(s: seq<int>, k: int)
    ensures Occ(s, k) >= 1 <==> k in s
  {
    if s != [] {
      OccMember(s[..|s| - 1], k);
      assert s == s[..|s| - 1] + [s[|s| - 1]];
    }
  }

  /** All files' positions, in order. */
  function Flat(files: seq<seq<int>>): seq<int>
  {
    if files == [] then [] else Flat(files[..|files| - 1]) + files[|files| - 1]
  }

  lemma FlatSnoc(files: seq<seq<int>>, f: nat)
    requires f < |files|
    ensures Flat(files[..f + 1]) == Flat(files[..f]) + files[f]
  {
    assert files[..f + 1][..f] == files[..f];
  }

  /** A position is in the concatenation iff it is in some file. */
  lemma {:induction false} FlatMember(files: seq<seq<int>>, k: int)
    ensures k in Flat(files) <==> exists f :: 0 <= f < |files| && k in files[f]
  {
    if files != [] {
      var pre := files[..|files| - 1];
      FlatMember(pre, k);
      if exists f :: 0 <= f < |files| && k in files[f] {
        var f :| 0 <= f < |files| && k in files[f];
        if f < |pre| { assert pre[f] == files[f]; }
      }
      if exists f :: 0 <= f < |pre| && k in pre[f] {
        var f :| 0 <= f < |pre| && k in pre[f];
        assert files[f] == pre[f];
      }
    }
  }

  predicate InRange(s: seq<int>)
  {
    forall j :: 0 <= j < |s| ==> 0 <= s[j] < Kmers.Size
  }

  /** b1 marks the positions seen at least once, and cnt holds, for each
    * position seen again, its number of occurrences minus one. */
  ghost predicate Counted(b1: array<bool>, cnt: map<int, int>, seen: seq<int>)
    reads b1
  {
    b1.Length == Kmers.Size &&
    (forall k :: 0 <= k < Kmers.Size ==> (b1[k] <==> Occ(seen, k) >= 1)) &&
    (forall k :: k in cnt <==> Occ(seen, k) >= 2) &&
    (forall k :: k in cnt ==> cnt[k] == Occ(seen, k) - 1)
  }

  /** Counts the positions of one file. */
  method CountFile(b1: array<bool>, cnt0: map<int, int>, kmers: seq<int>, ghost seen: seq<int>)
    returns (cnt: map<int, int>)
    requires Counted(b1, cnt0, seen) && InRange(kmers)
    modifies b1
    ensures Counted(b1, cnt, seen + kmers)
  {
    cnt := cnt0;
    var j := 0;
    assert seen + kmers[..0] == seen;
    while j < |kmers|
      invariant 0 <= j <= |kmers|
      invariant Counted(b1, cnt, seen + kmers[..j])
    {
      var kmer := kmers[j];
      ghost var s := seen + kmers[..j];
      assert seen + kmers[..j + 1] == s + [kmer];
      assert (s + [kmer])[..|s|] == s;
      if b1[kmer] {
        cnt := cnt[kmer := (if kmer in cnt then cnt[kmer] else 0) + 1];
      } else {
        b1[kmer] := true;
      }
      j := j + 1;
    }
    assert kmers[..j] == kmers;
  }

  // ---------------------------------------------------------------------
  // The presence table

  /** Rows, of one zero per file, for the positions counted at least
    * MinCount - 1 times again. */
  method Whitelist(cnt: map<int, int>, n: nat) returns (table: map<int, seq<int>>)
    ensures forall k :: k in table <==> k in cnt && cnt[k] >= MinCount - 1
    ensures forall k :: k in table ==> table[k] == Seqs.Zeros(n)
  {
    table := map[];
    var keys := Common.SetToSeq(cnt.Keys);
    for j := 0 to |keys|
      invariant forall x :: x in table <==> x in keys[..j] && cnt[x] >= MinCount - 1
      invariant forall x :: x in table ==> table[x] == Seqs.Zeros(n)
    {
      var k := keys[j];
      assert keys[..j + 1] == keys[..j] + [k];
      if cnt[k] >= MinCount - 1 {
        table := table[k := Seqs.Zeros(n)];
      }
    }
    assert keys[..|keys|] == keys;
    assert forall x :: x in keys <==> x in cnt by {
      assert Seqs.Elems(keys) == cnt.Keys;
    }
  }

  /** Each row has one slot per file and marks, for the files before i, the
    * files holding its position with 1 and the others with 0. */
  ghost predicate RowsUpTo(table: map<int, seq<int>>, files: seq<seq<int>>, i: nat)
    requires i <= |files|
  {
    forall k :: k in table ==>
      |table[k]| == |files| &&
      (forall f :: 0 <= f < i ==> table[k][f] == if k in files[f] then 1 else 0) &&
      (forall f :: i <= f < |files| ==> table[k][f] == 0)
  }

  /** Marks file i in the rows of its positions. */
  method MarkFile(table0: map<int, seq<int>>, ghost files: seq<seq<int>>, i: nat, kmers: seq<int>)
    returns (table: map<int, seq<int>>)
    requires i < |files| && kmers == files[i] && RowsUpTo(table0, files, i)
    ensures table.Keys == table0.Keys && RowsUpTo(table, files, i + 1)
  {
    table := table0;
    var j := 0;
    while j < |kmers|
      invariant 0 <= j <= |kmers|
      invariant table.Keys == table0.Keys
      invariant forall k :: k in table ==>
        |table[k]| == |files| &&
        (forall f :: 0 <= f < |files| && f != i ==> table[k][f] == table0[k][f]) &&
        table[k][i] == if k in kmers[..j] then 1 else 0
    {
      var kmer := kmers[j];
      assert kmers[..j + 1] == kmers[..j] + [kmer];
      if kmer in table {
        table := table[kmer := table[kmer][i := 1]];
      }
      j := j + 1;
    }
    assert kmers[..j] == kmers;
  }

  /** The base name of a file without its ".kmers" extension. */
  function SampleName(path: string): string
  {
    Strs.TrimSuffix(Strs.GoBase(path), ".kmers")
  }

  /** The first pass: counts every position of every file. */
  method CountAll(encoded: seq<seq<int>>) returns (cnt: map<int, int>)
    requires forall i :: 0 <= i < |encoded| ==> InRange(Diffs.PrefixSums(encoded[i]))
    ensures forall k :: k in cnt <==> Occ(Flat(Decoded(encoded)), k) >= 2
    ensures forall k :: k in cnt ==> cnt[k] == Occ(Flat(Decoded(encoded)), k) - 1
  {
    ghost var files := Decoded(encoded);
    var b1 := new bool[Kmers.Size](_ => false);
    cnt := map[];
    var f := 0;
    while f < |encoded|
      invariant 0 <= f <= |encoded|
      invariant Counted(b1, cnt, Flat(files[..f]))
    {
      var kmers := ReadFile(encoded[f]);
      FlatSnoc(files, f);
      cnt := CountFile(b1, cnt, kmers, Flat(files[..f]));
      f := f + 1;
    }
    assert files[..f] == files;
  }

  /** `f` applied to every element of `s`. */
  function MapSeq<A, B>(f: A -> B, s: seq<A>): seq<B>
  {
    if s == [] then [] else MapSeq(f, s[..|s| - 1]) + [f(s[|s| - 1])]
  }

  lemma {:induction false} MapSeqSpec<A, B>(f: A -> B, s: seq<A>)
    ensures |MapSeq(f, s)| == |s|
    ensures forall i :: 0 <= i < |s| ==> MapSeq(f, s)[i] == f(s[i])
  {
    if s != [] {
      var pre := s[..|s| - 1];
      MapSeqSpec(f, pre);
      forall i | 0 <= i < |s| ensures MapSeq(f, s)[i] == f(s[i]) {
        if i < |pre| {
          assert MapSeq(f, s)[i] == MapSeq(f, pre)[i];
          assert pre[i] == s[i];
        }
      }
    }
  }

  lemma MapSeqSnoc<A, B>(f: A -> B, s: seq<A>, k: nat)
    requires k < |s|
    ensures MapSeq(f, s[..k + 1]) == MapSeq(f, s[..k]) + [f(s[k])]
  {
    assert s[..k + 1][..k] == s[..k];
  }

  /** The second pass: marks every file in the rows of its positions and
    * collects the names. */
  method FillAll(paths: seq<string>, encoded: seq<seq<int>>, ghost files: seq<seq<int>>, table0: map<int, seq<int>>)
    returns (names: seq<string>, table: map<int, seq<int>>)
    requires |paths| == |encoded| == |files| && RowsUpTo(table0, files, 0)
    requires forall i :: 0 <= i < |files| ==> files[i] == Diffs.PrefixSums(encoded[i])
    ensures names == MapSeq(SampleName, paths)
    ensures table.Keys == table0.Keys && RowsUpTo(table, files, |paths|)
  {
    table := table0;
    names := [];
    var i := 0;
    while i < |paths|
      invariant 0 <= i <= |paths|
      invariant names == MapSeq(SampleName, paths[..i])
      invariant table.Keys == table0.Keys && RowsUpTo(table, files, i)
    {
      var kmers := ReadFile(encoded[i]);
      MapSeqSnoc(SampleName, paths, i);
      names := names + [SampleName(paths[i])];
      table := MarkFile(table, files, i, kmers);
      i := i + 1;
    }
    assert paths[..i] == paths;
  }

  /** Counts every position over all files, keeps those seen at least
    * MinCount times, and marks for each kept position the files holding it;
    * the names are the files' base names without ".kmers", in file order. */
  method Run(paths: seq<string>, encoded: seq<seq<int>>) returns (names: seq<string>, table: map<int, seq<int>>)
    requires |paths| == |encoded|
    requires forall i :: 0 <= i < |encoded| ==> InRange(Diffs.PrefixSums(encoded[i]))
    ensures |names| == |paths| && forall i :: 0 <= i < |paths| ==> names[i] == SampleName(paths[i])
    ensures forall k :: k in table <==> Occ(Flat(Decoded(encoded)), k) >= MinCount
    ensures RowsUpTo(table, Decoded(encoded), |paths|)
  {
    var cnt := CountAll(encoded);
    var white := Whitelist(cnt, |paths|);
    names, table := FillAll(paths, encoded, Decoded(encoded), white);
    MapSeqSpec(SampleName, paths);
  }

  /** Every file's positions, decoded. */
  function Decoded(encoded: seq<seq<int>>): (r: seq<seq<int>>)
    ensures |r| == |encoded| && forall i :: 0 <= i < |encoded| ==> r[i] == Diffs.PrefixSums(encoded[i])
  {
    if encoded == [] then [] else Decoded(encoded[..|encoded| - 1]) + [Diffs.PrefixSums(encoded[|encoded| - 1])]
  }

  /** Every row of the final table marks at least one file. */
  lemma KeptRowMarked(files: seq<seq<int>>, table: map<int, seq<int>>, k: int)
    requires forall x :: x in table <==> Occ(Flat(files), x) >= MinCount
    requires RowsUpTo(table, files, |files|)
    requires k in table
    ensures exists f :: 0 <= f < |files| && table[k][f] == 1
  {
    OccMember(Flat(files), k);
    FlatMember(files, k);
    var f :| 0 <= f < |files| && k in files[f];
    assert table[k][f] == 1;
  }
}
