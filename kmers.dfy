/** K-mer extraction: every sampled k-mer hash of the first reads of each
  * input file is masked to 32 bits and marked in two bit sets, `found` for
  * positions seen once and `found2` for positions seen again; the output is
  * the delta-encoded list of the positions in `found2`. Reading FASTQ,
  * extracting canonical k-mers and hashing them are outside this model: a
  * read is given as the two hashes of each of its canonical k-mers. */
module Kmers {
  import Diffs

  /** The number of bits of a position, and so of the bit sets. */
  const NBits: nat := 32
  const Size: nat := 0x1_0000_0000
  const KmerLen: nat := 31
  const MaxReads: nat := 10000000
  /** One k-mer in Ratio is kept. */
  const Ratio: nat := 32

  /** The two hashes of a canonical k-mer: h1 decides sampling, h2 is the
    * value marked. */
  datatype KmerHash = KmerHash(h1: nat, h2: nat)

  type Read = seq<KmerHash>

  /** h & mask, with mask = 2^32 - 1. */
  function Masked(h: nat): (x: nat)
    ensures x < Size
  {
    h % Size
  }

  // ---------------------------------------------------------------------
  // Sampled hashes

  /** The h2 hashes of the k-mers kept: with p > 1, a k-mer is kept only when
    * h1 mod p is 0. */
  function Yielded(read: Read, p: nat): seq<nat>
  {
    if read == [] then []
    else
      var k := read[|read| - 1];
      Yielded(read[..|read| - 1], p) + (if p > 1 && k.h1 % p != 0 then [] else [k.h2])
  }

  /** A hash is yielded exactly when some kept k-mer has it. */
  lemma {:induction false} YieldedMembers(read: Read, p: nat, h: nat)
    ensures h in Yielded(read, p) <==>
      exists i :: 0 <= i < |read| && read[i].h2 == h && (p <= 1 || read[i].h1 % p == 0)
  {
    if read != [] {
      var pre := read[..|read| - 1];
      YieldedMembers(pre, p, h);
      if exists i :: 0 <= i < |read| && read[i].h2 == h && (p <= 1 || read[i].h1 % p == 0) {
        var i :| 0 <= i < |read| && read[i].h2 == h && (p <= 1 || read[i].h1 % p == 0);
        if i < |pre| {
          assert pre[i] == read[i];
        }
      }
      if h in Yielded(pre, p) {
        var i :| 0 <= i < |pre| && pre[i].h2 == h && (p <= 1 || pre[i].h1 % p == 0);
        assert read[i] == pre[i];
      }
    }
  }

  /** With p <= 1 every k-mer is kept. */
  lemma {:induction false} YieldedAll(read: Read, p: nat)
    requires p <= 1
    ensures |Yielded(read, p)| == |read|
  {
    if read != [] {
      YieldedAll(read[..|read| - 1], p);
    }
  }

  /** The first MaxReads reads of a file. */
  function Limit(rs: seq<Read>): (r: seq<Read>)
    ensures |r| <= MaxReads && r <= rs
    ensures |rs| <= MaxReads ==> r == rs
  {
    if |rs| <= MaxReads then rs else rs[..MaxReads]
  }

  /** The hashes of a list of reads, in order. */
  function ReadsHashes(rs: seq<Read>): seq<nat>
  {
    if rs == [] then [] else ReadsHashes(rs[..|rs| - 1]) + Yielded(rs[|rs| - 1], Ratio)
  }

  /** The hashes of all files, each cut to its first MaxReads reads. */
  function AllHashes(files: seq<seq<Read>>): seq<nat>
  {
    if files == [] then [] else AllHashes(files[..|files| - 1]) + ReadsHashes(Limit(files[|files| - 1]))
  }

  // ---------------------------------------------------------------------
  // The bit sets

  /** How many of `hs` mask to x. */
  function Count(hs: seq<nat>, x: nat): nat
  {
    if hs == [] then 0 else Count(hs[..|hs| - 1], x) + (if Masked(hs[|hs| - 1]) == x then 1 else 0)
  }

  /** `found` marks the positions seen at least once and `found2` those seen
    * at least twice. */
  ghost predicate Tracks(found: array<bool>, found2: array<bool>, hs: seq<nat>)
    reads found, found2
  {
    found.Length == Size && found2.Length == Size &&
    forall x :: 0 <= x < Size ==> (found[x] <==> Count(hs, x) >= 1) && (found2[x] <==> Count(hs, x) >= 2)
  }

  /** Marks one hash: the first sighting of its position sets it in `found`,
    * any later one sets it in `found2`; `found2` stays within `found`. */
  method Mark(found: array<bool>, found2: array<bool>, h: nat, ghost hs: seq<nat>)
    requires found != found2 && Tracks(found, found2, hs)
    requires forall x :: 0 <= x < Size && found2[x] ==> found[x]
    modifies found, found2
    ensures Tracks(found, found2, hs + [h])
    ensures forall x :: 0 <= x < Size && found2[x] ==> found[x]
  {
    var x := Masked(h);
    assert (hs + [h])[..|hs|] == hs;
    if found[x] {
      found2[x] := true;
    } else {
      found[x] := true;
    }
  }

  /** Marks every hash of one read. */
  method MarkAll(found: array<bool>, found2: array<bool>, hashes: seq<nat>, ghost hs: seq<nat>)
    requires found != found2 && Tracks(found, found2, hs)
    requires forall x :: 0 <= x < Size && found2[x] ==> found[x]
    modifies found, found2
    ensures Tracks(found, found2, hs + hashes)
    ensures forall x :: 0 <= x < Size && found2[x] ==> found[x]
  {
    var i := 0;
    assert hs + hashes[..0] == hs;
    while i < |hashes|
      invariant 0 <= i <= |hashes|
      invariant Tracks(found, found2, hs + hashes[..i])
      invariant forall x :: 0 <= x < Size && found2[x] ==> found[x]
    {
      Mark(found, found2, hashes[i], hs + hashes[..i]);
      assert hs + hashes[..i] + [hashes[i]] == hs + hashes[..i + 1];
      i := i + 1;
    }
    assert hashes[..i] == hashes;
  }

  /** Marks the hashes of the first MaxReads reads of one file. */
  method MarkFile(found: array<bool>, found2: array<bool>, rs: seq<Read>, ghost hs: seq<nat>)
    requires found != found2 && Tracks(found, found2, hs)
    requires forall x :: 0 <= x < Size && found2[x] ==> found[x]
    modifies found, found2
    ensures Tracks(found, found2, hs + ReadsHashes(Limit(rs)))
    ensures forall x :: 0 <= x < Size && found2[x] ==> found[x]
  {
    var limited := Limit(rs);
    var r := 0;
    assert hs + ReadsHashes(limited[..0]) == hs;
    while r < |limited|
      invariant 0 <= r <= |limited|
      invariant Tracks(found, found2, hs + ReadsHashes(limited[..r]))
      invariant forall x :: 0 <= x < Size && found2[x] ==> found[x]
    {
      assert limited[..r + 1][..r] == limited[..r];
      MarkAll(found, found2, Yielded(limited[r], Ratio), hs + ReadsHashes(limited[..r]));
      assert hs + ReadsHashes(limited[..r]) + Yielded(limited[r], Ratio) == hs + ReadsHashes(limited[..r + 1]);
      r := r + 1;
    }
    assert limited[..r] == limited;
  }

  // ---------------------------------------------------------------------
  // The positions seen twice

  /** The positions below n seen at least twice, ascending. */
  function Repeated(hs: seq<nat>, n: nat): seq<int>
  {
    if n == 0 then [] else Repeated(hs, n - 1) + (if Count(hs, n - 1) >= 2 then [n - 1] else [])
  }

  predicate StrictlyIncreasing(s: seq<int>)
  {
    forall i, j :: 0 <= i < j < |s| ==> s[i] < s[j]
  }

  /** Repeated lists, in strictly increasing order, exactly the positions
    * below n seen at least twice. */
  lemma {:induction false} RepeatedSpec(hs: seq<nat>, n: nat)
    ensures StrictlyIncreasing(Repeated(hs, n))
    ensures forall x :: x in Repeated(hs, n) <==> 0 <= x < n && Count(hs, x) >= 2
  {
    if n > 0 {
      RepeatedSpec(hs, n - 1);
      var pre := Repeated(hs, n - 1);
      var r := Repeated(hs, n);
      if Count(hs, n - 1) >= 2 {
        assert r == pre + [n - 1];
        forall i, j | 0 <= i < j < |r| ensures r[i] < r[j] {
          if j == |pre| {
            assert r[i] == pre[i] && pre[i] in pre;
          }
        }
      } else {
        assert r == pre;
      }
    }
  }

  /** The set positions of `bits` below n, ascending (bits.Ones). */
  method Ones(bits: array<bool>, ghost found: array<bool>, ghost hs: seq<nat>) returns (ones: seq<int>)
    requires Tracks(found, bits, hs)
    ensures ones == Repeated(hs, Size)
  {
    ones := [];
    var x := 0;
    while x < bits.Length
      invariant 0 <= x <= bits.Length
      invariant ones == Repeated(hs, x)
    {
      if bits[x] {
        ones := ones + [x];
      }
      x := x + 1;
    }
  }

  /** The output: the ascending positions of the k-mer hashes seen at least
    * twice over all files, delta-encoded. */
  method Run(files: seq<seq<Read>>) returns (out: seq<int>)
    ensures out == Diffs.Diffs(Repeated(AllHashes(files), Size))
  {
    var found := new bool[Size](_ => false);
    var found2 := new bool[Size](_ => false);
    var f := 0;
    while f < |files|
      invariant 0 <= f <= |files|
      invariant Tracks(found, found2, AllHashes(files[..f]))
      invariant forall x :: 0 <= x < Size && found2[x] ==> found[x]
    {
      assert files[..f + 1][..f] == files[..f];
      MarkFile(found, found2, files[f], AllHashes(files[..f]));
      f := f + 1;
    }
    assert files[..f] == files;
    var ones := Ones(found2, found, AllHashes(files));
    var a := new int[|ones|](i requires 0 <= i < |ones| => ones[i]);
    assert a[..] == ones;
    Diffs.ToDiffs(a);
    out := a[..];
  }

  /** Decoding the output gives back, in strictly increasing order, exactly
    * the positions seen at least twice. */
  lemma DecodedOutput(files: seq<seq<Read>>)
    ensures var ones := Diffs.PrefixSums(Diffs.Diffs(Repeated(AllHashes(files), Size)));
      StrictlyIncreasing(ones) &&
      forall x :: x in ones <==> 0 <= x < Size && Count(AllHashes(files), x) >= 2
  {
    Diffs.FromDiffsOfToDiffs(Repeated(AllHashes(files), Size));
    RepeatedSpec(AllHashes(files), Size);
  }
}
