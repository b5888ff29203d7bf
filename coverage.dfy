/**
 * Per-reference coverage histograms from SAM records (coverage/coverage.go):
 * every aligned read adds 1 at each position it covers, growing its
 * reference's histogram with zeros as needed. With a lengths file a new
 * histogram starts at its reference's length, an unknown reference is an
 * error, and a read starting past the known length is logged.
 */
module Coverage {
  import opened Wrappers
  import opened Seqs
  import opened Padded

  /** The fields of a SAM record the tool reads: the reference name, the
      1-based position and the length of the read sequence. */
  datatype SamRecord = SamRecord(rname: string, pos: int, seqLen: nat)

  /** A read that starts at or past its reference's known length. */
  datatype Bad = Bad(want: int, got: int)

  datatype CoverageError =
    | UnknownReference(name: string)
    | NegativeLength(name: string)
    | BadPosition(name: string, pos: int)

  /** lens[s] in Go: 0 for a missing key. */
  function LenOf(lens: map<string, int>, s: string): int {
    if s in lens then lens[s] else 0
  }

  /** The error a record causes, if any: with lengths, a reference of length
      0 (or none) is unrecognized and a negative length makes `make` panic;
      a read at position 0 indexes a[-1] and panics, unless it is empty. */
  function RecordError(lens: Option<map<string, int>>, r: SamRecord): Option<CoverageError> {
    if lens.Some? && LenOf(lens.value, r.rname) == 0 then Some(UnknownReference(r.rname))
    else if lens.Some? && LenOf(lens.value, r.rname) < 0 then Some(NegativeLength(r.rname))
    else if r.pos - 1 < 0 && r.seqLen > 0 then Some(BadPosition(r.rname, r.pos))
    else None
  }

  /** The length a new histogram starts with. */
  function InitLen(lens: Option<map<string, int>>, s: string): int {
    if lens.Some? then LenOf(lens.value, s) else 0
  }

  // ---------------------------------------------------------------------
  // One read

  /** `b` is `a` with 1 added at positions pos .. pos+ln-1, grown with zeros
      to cover them. */
  predicate IsBump(b: seq<int>, a: seq<int>, pos: nat, ln: nat) {
    |b| == Max(|a|, pos + ln) &&
    forall i :: 0 <= i < |b| ==> b[i] == At(a, i) + (if pos <= i < pos + ln then 1 else 0)
  }

  /** The two loops of main for one read: append zeros while the histogram
      is too short, then increment each covered position. */
  method Bump(a: seq<int>, pos: nat, ln: nat) returns (b: seq<int>)
    ensures IsBump(b, a, pos, ln)
  {
    b := a;
    while |b| < pos + ln
      invariant |a| <= |b| <= Max(|a|, pos + ln)
      invariant forall i :: 0 <= i < |b| ==> b[i] == At(a, i)
      decreases pos + ln - |b|
    {
      b := b + [0];
    }
    var i := 0;
    while i < ln
      invariant 0 <= i <= ln && |b| == Max(|a|, pos + ln)
      invariant forall k :: 0 <= k < |b| ==> b[k] == At(a, k) + (if pos <= k < pos + i then 1 else 0)
    {
      b := b[pos + i := b[pos + i] + 1];
      i := i + 1;
    }
  }

  function Ones(n: nat): (r: seq<int>)
    ensures |r| == n && forall i :: 0 <= i < n ==> r[i] == 1
  {
    seq(n, _ => 1)
  }

  lemma {:induction false} SumOnes(n: nat)
    ensures Sum(Ones(n)) == n
  {
    if n > 0 {
      assert Ones(n)[..n - 1] == Ones(n - 1);
      SumOnes(n - 1);
    }
  }

  /** The sum of an element-wise sum is the sum of the sums. */
  lemma {:induction false} SumPointwise(x: seq<int>, y: seq<int>, z: seq<int>)
    requires |x| == |y| == |z| && forall i :: 0 <= i < |x| ==> x[i] == y[i] + z[i]
    ensures Sum(x) == Sum(y) + Sum(z)
  {
    if x != [] {
      var n := |x| - 1;
      SumPointwise(x[..n], y[..n], z[..n]);
    }
  }

  /** Each read raises the histogram's total by its length, and the
      histogram never shrinks or loses counts. */
  lemma BumpSum(b: seq<int>, a: seq<int>, pos: nat, ln: nat)
    requires IsBump(b, a, pos, ln)
    ensures Sum(b) == Sum(a) + ln
    ensures |b| >= |a| && forall i :: 0 <= i < |a| ==> b[i] >= a[i]
  {
    var m := |b|;
    var padded := a + Zeros(m - |a|);
    var marks := Zeros(pos) + Ones(ln) + Zeros(m - pos - ln);
    forall i | 0 <= i < m ensures b[i] == padded[i] + marks[i] {
      if i < pos {
        assert marks[i] == Zeros(pos)[i];
      } else if i < pos + ln {
        assert marks[i] == Ones(ln)[i - pos];
      } else {
        assert marks[i] == Zeros(m - pos - ln)[i - pos - ln];
      }
    }
    SumPointwise(b, padded, marks);
    SumAppend(a, Zeros(m - |a|));
    SumZeros(m - |a|);
    SumAppend(Zeros(pos) + Ones(ln), Zeros(m - pos - ln));
    SumAppend(Zeros(pos), Ones(ln));
    SumZeros(pos);
    SumOnes(ln);
    SumZeros(m - pos - ln);
  }

  // ---------------------------------------------------------------------
  // All reads

  /** The first record of `recs` that fails, if any. */
  function FirstError(lens: Option<map<string, int>>, recs: seq<SamRecord>): Option<CoverageError> {
    if recs == [] then None
    else
      var e := FirstError(lens, recs[..|recs| - 1]);
      if e.Some? then e else RecordError(lens, recs[|recs| - 1])
  }

  /** The references the records name. */
  function Names(recs: seq<SamRecord>): set<string> {
    if recs == [] then {} else Names(recs[..|recs| - 1]) + {recs[|recs| - 1].rname}
  }

  /** The number of reads of reference s that cover position i. */
  function Depth(recs: seq<SamRecord>, s: string, i: int): nat {
    if recs == [] then 0
    else
      var r := recs[|recs| - 1];
      Depth(recs[..|recs| - 1], s, i) + (if r.rname == s && r.pos - 1 <= i < r.pos - 1 + r.seqLen then 1 else 0)
  }

  /** The total read length of reference s. */
  function Bases(recs: seq<SamRecord>, s: string): nat {
    if recs == [] then 0
    else
      var r := recs[|recs| - 1];
      Bases(recs[..|recs| - 1], s) + (if r.rname == s then r.seqLen else 0)
  }

  /** The histogram length of reference s: its starting length, or the end
      of its furthest read if that is longer. */
  function Extent(lens: Option<map<string, int>>, recs: seq<SamRecord>, s: string): int {
    if recs == [] then InitLen(lens, s)
    else
      var r := recs[|recs| - 1];
      var e := Extent(lens, recs[..|recs| - 1], s);
      if r.rname == s then Max(e, r.pos - 1 + r.seqLen) else e
  }

  /** The logged reads, in order. */
  function Bads(lens: Option<map<string, int>>, recs: seq<SamRecord>): seq<Bad> {
    if recs == [] || lens.None? then []
    else
      var r := recs[|recs| - 1];
      Bads(lens, recs[..|recs| - 1]) +
        (if LenOf(lens.value, r.rname) <= r.pos - 1 then [Bad(LenOf(lens.value, r.rname), r.pos - 1)] else [])
  }

  /** The histograms of main after the reads `recs`: one per named
      reference, as long as its Extent, holding at each position the number
      of reads covering it, and summing to the reference's read length. */
  predicate Histograms(h: map<string, seq<int>>, lens: Option<map<string, int>>, recs: seq<SamRecord>) {
    h.Keys == Names(recs) &&
    forall s :: s in h ==>
      |h[s]| == Extent(lens, recs, s) &&
      (forall i :: 0 <= i < |h[s]| ==> h[s][i] == Depth(recs, s, i)) &&
      Sum(h[s]) == Bases(recs, s)
  }

  /** A reference not yet named has no reads and its starting extent. */
  lemma {:induction false} Unnamed(lens: Option<map<string, int>>, recs: seq<SamRecord>, s: string)
    requires s !in Names(recs)
    ensures Extent(lens, recs, s) == InitLen(lens, s) && Bases(recs, s) == 0
    ensures forall i :: Depth(recs, s, i) == 0
  {
    if recs != [] {
      Unnamed(lens, recs[..|recs| - 1], s);
    }
  }

  /** 1 when read r covers position i. */
  function Covers(r: SamRecord, i: int): nat {
    if r.pos - 1 <= i < r.pos - 1 + r.seqLen then 1 else 0
  }

  /** One more read changes nothing for the other references. */
  lemma SnocOther(lens: Option<map<string, int>>, recs: seq<SamRecord>, r: SamRecord, s: string)
    requires s != r.rname
    ensures Extent(lens, recs + [r], s) == Extent(lens, recs, s) && Bases(recs + [r], s) == Bases(recs, s)
    ensures forall i :: Depth(recs + [r], s, i) == Depth(recs, s, i)
  {
    assert (recs + [r])[..|recs|] == recs;
  }

  /** One more read of s covers its positions once more. */
  lemma SnocSame(lens: Option<map<string, int>>, recs: seq<SamRecord>, r: SamRecord)
    ensures var s := r.rname;
      Extent(lens, recs + [r], s) == Max(Extent(lens, recs, s), r.pos - 1 + r.seqLen) &&
      Bases(recs + [r], s) == Bases(recs, s) + r.seqLen
    ensures forall i :: Depth(recs + [r], r.rname, i) == Depth(recs, r.rname, i) + Covers(r, i)
  {
    assert (recs + [r])[..|recs|] == recs;
  }

  /** Adding one read keeps Histograms. */
  lemma HistogramsSnoc(h: map<string, seq<int>>, lens: Option<map<string, int>>, recs: seq<SamRecord>,
    r: SamRecord, a: seq<int>, b: seq<int>)
    requires Histograms(h, lens, recs) && RecordError(lens, r).None?
    requires a == (if r.rname in h then h[r.rname] else Zeros(InitLen(lens, r.rname)))
    requires r.pos - 1 >= 0 || r.seqLen == 0
    requires IsBump(b, a, if r.pos - 1 >= 0 then r.pos - 1 else 0, r.seqLen)
    ensures Histograms(h[r.rname := b], lens, recs + [r])
  {
    var post := recs + [r];
    var s := r.rname;
    var p: nat := if r.pos - 1 >= 0 then r.pos - 1 else 0;
    assert post[..|recs|] == recs;
    if s !in h {
      Unnamed(lens, recs, s);
      SumZeros(InitLen(lens, s));
    }
    assert |a| == Extent(lens, recs, s) && Sum(a) == Bases(recs, s);
    assert forall i :: 0 <= i < |a| ==> a[i] == Depth(recs, s, i);
    BumpSum(b, a, p, r.seqLen);
    SnocSame(lens, recs, r);
    forall i | 0 <= i < |b| ensures b[i] == Depth(post, s, i) {
      if i >= |a| {
        DepthPastExtent(lens, recs, s, i);
      }
    }
    var h2 := h[s := b];
    assert Names(post) == Names(recs) + {s};
    forall t | t in h2
      ensures |h2[t]| == Extent(lens, post, t) && Sum(h2[t]) == Bases(post, t)
      ensures forall i :: 0 <= i < |h2[t]| ==> h2[t][i] == Depth(post, t, i)
    {
      if t != s {
        SnocOther(lens, recs, r, t);
      }
    }
  }

  /** No read covers a position past the extent. */
  lemma {:induction false} DepthPastExtent(lens: Option<map<string, int>>, recs: seq<SamRecord>, s: string, i: int)
    requires i >= Extent(lens, recs, s)
    ensures Depth(recs, s, i) == 0
  {
    if recs != [] {
      DepthPastExtent(lens, recs[..|recs| - 1], s, i);
    }
  }

  /** An error among the first k records is the first error of them all. */
  lemma {:induction false} FirstErrorExtends(lens: Option<map<string, int>>, recs: seq<SamRecord>, k: nat)
    requires k <= |recs| && FirstError(lens, recs[..k]).Some?
    ensures FirstError(lens, recs) == FirstError(lens, recs[..k])
    decreases |recs| - k
  {
    if k < |recs| {
      assert recs[..k + 1][..k] == recs[..k];
      FirstErrorExtends(lens, recs, k + 1);
    } else {
      assert recs[..k] == recs;
    }
  }

  /** One record of main: its reference's histogram (new ones from
      InitLen) is grown and incremented over the read. */
  method AddRead(h: map<string, seq<int>>, lens: Option<map<string, int>>, ghost pre: seq<SamRecord>, rec: SamRecord)
    returns (h2: map<string, seq<int>>)
    requires Histograms(h, lens, pre) && RecordError(lens, rec).None?
    ensures Histograms(h2, lens, pre + [rec])
  {
    var a := if rec.rname in h then h[rec.rname] else Zeros(InitLen(lens, rec.rname));
    var p: nat := if rec.pos - 1 >= 0 then rec.pos - 1 else 0;
    var b := Bump(a, p, rec.seqLen);
    HistogramsSnoc(h, lens, pre, rec, a, b);
    h2 := h[rec.rname := b];
  }

  /** main over all records of all files, in order: the first failing record
      stops it; otherwise the histograms and the logged reads. */
  method Build(recs: seq<SamRecord>, lens: Option<map<string, int>>)
    returns (r: Result<(map<string, seq<int>>, seq<Bad>), CoverageError>)
    ensures r.Err? <==> FirstError(lens, recs).Some?
    ensures r.Err? ==> r.error == FirstError(lens, recs).value
    ensures r.Ok? ==> Histograms(r.value.0, lens, recs) && r.value.1 == Bads(lens, recs)
  {
    var h: map<string, seq<int>> := map[];
    var bads: seq<Bad> := [];
    ghost var done: seq<SamRecord> := [];
    var k := 0;
    while k < |recs|
      invariant 0 <= k <= |recs| && done == recs[..k]
      invariant FirstError(lens, done).None?
      invariant Histograms(h, lens, done)
      invariant bads == Bads(lens, done)
    {
      var rec := recs[k];
      var err := RecordError(lens, rec);
      if err.Some? {
        assert recs[..k + 1] == done + [rec];
        FirstErrorExtends(lens, recs, k + 1);
        return Err(err.value);
      }
      if lens.Some? && LenOf(lens.value, rec.rname) <= rec.pos - 1 {
        bads := bads + [Bad(LenOf(lens.value, rec.rname), rec.pos - 1)];
      }
      h := AddRead(h, lens, done, rec);
      assert (done + [rec])[..|done|] == done;
      done := done + [rec];
      k := k + 1;
    }
    assert recs[..k] == recs;
    r := Ok((h, bads));
  }
}
