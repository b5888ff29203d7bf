/** Splitting a FASTA file, either into chunks of n records or into groups
  * keyed by a regular expression over the record names. The reader's records
  * are a sequence of values, the regular expression is a matcher function,
  * and each output file is modelled by the records written to it. */
module SplitFa {
  import opened Wrappers
  import opened Strs

  datatype Fasta = Fasta(name: string, sequence: string)

  // ---------------------------------------------------------------------
  // Flags

  datatype FlagError = BothSet | NeitherSet

  /** Split by count (the -n value) or by group (-g). */
  datatype Mode = ByCount(n: int) | ByGroup

  /** Exactly one of -n (non-zero) and -g must be given. */
  function ChooseMode(nseqs: int, hasGroupRE: bool): (r: Result<Mode, FlagError>)
    ensures r.Ok? <==> (nseqs != 0 <==> !hasGroupRE)
    ensures r == Err(BothSet) <==> nseqs != 0 && hasGroupRE
    ensures r.Ok? ==> (r.value == ByCount(nseqs) <==> nseqs != 0) && (r.value == ByGroup <==> hasGroupRE)
  {
    if nseqs != 0 && hasGroupRE then Err(BothSet)
    else if nseqs == 0 && !hasGroupRE then Err(NeitherSet)
    else if nseqs != 0 then Ok(ByCount(nseqs))
    else Ok(ByGroup)
  }

  /** The output file name: the first "%" of the pattern becomes `key`. */
  function OutPath(outFile: string, key: string): string
  {
    ReplaceFirst(outFile, "%", key)
  }

  /** With a "%" in the pattern, different keys give different files. */
  lemma OutPathInjective(outFile: string, a: string, b: string)
    requires Contains(outFile, "%")
    ensures OutPath(outFile, a) == OutPath(outFile, b) <==> a == b
  {
    ContainsIffIndex(outFile, "%");
    var i := IndexFrom(outFile, "%", 0).value;
    var pa, pb := OutPath(outFile, a), OutPath(outFile, b);
    var rest := outFile[i + 1..];
    if pa == pb {
      assert |a| == |b|;
      assert pa[i..i + |a|] == a && pb[i..i + |b|] == b;
    }
  }

  // ---------------------------------------------------------------------
  // Splitting by count

  /** A file of records, written under `path`. */
  datatype Chunk = Chunk(path: string, records: seq<Fasta>)

  /** The file of chunk number i: the pattern with its "%" replaced by i
    * in decimal. */
  function ChunkPath(outFile: string, i: nat): string
  {
    OutPath(outFile, NatToString(i))
  }

  /** All chunks' records, in order. */
  function Flatten(cs: seq<Chunk>): seq<Fasta>
  {
    if cs == [] then [] else Flatten(cs[..|cs| - 1]) + cs[|cs| - 1].records
  }

  /** A chunk is written as soon as it holds n records; for n < 1 that is
    * after every record. */
  function ChunkSize(n: int): (size: nat)
    ensures size >= 1 && (n >= 1 ==> size == n)
  {
    if n >= 1 then n else 1
  }

  /** The chunks, numbered from 1, of exactly `size` records each except a
    * non-empty last one of at most `size`, reproduce `records` in order. */
  ghost predicate ChunkedBy(cs: seq<Chunk>, records: seq<Fasta>, size: nat, outFile: string)
  {
    Flatten(cs) == records &&
    (forall k :: 0 <= k < |cs| - 1 ==> |cs[k].records| == size) &&
    (cs != [] ==> 1 <= |cs[|cs| - 1].records| <= size) &&
    (forall k :: 0 <= k < |cs| ==> cs[k].path == ChunkPath(outFile, k + 1))
  }

  /** Every chunk holds `size` records and is numbered from 1. */
  ghost predicate FullChunks(cs: seq<Chunk>, size: nat, outFile: string)
  {
    (forall k :: 0 <= k < |cs| ==> |cs[k].records| == size) &&
    (forall k :: 0 <= k < |cs| ==> cs[k].path == ChunkPath(outFile, k + 1))
  }

  /** Adding the next chunk. */
  lemma AddChunk(cs: seq<Chunk>, size: nat, outFile: string, fas: seq<Fasta>)
    requires FullChunks(cs, size, outFile)
    ensures Flatten(cs + [Chunk(ChunkPath(outFile, |cs| + 1), fas)]) == Flatten(cs) + fas
    ensures |fas| == size ==> FullChunks(cs + [Chunk(ChunkPath(outFile, |cs| + 1), fas)], size, outFile)
    ensures 1 <= |fas| <= size ==> ChunkedBy(cs + [Chunk(ChunkPath(outFile, |cs| + 1), fas)], Flatten(cs) + fas, size, outFile)
  {
    var c := Chunk(ChunkPath(outFile, |cs| + 1), fas);
    FlattenSnoc(cs, c);
    PathsSnoc(cs, outFile, c);
    SizesSnoc(cs, size, c);
  }

  lemma FlattenSnoc(cs: seq<Chunk>, c: Chunk)
    ensures Flatten(cs + [c]) == Flatten(cs) + c.records
  {
    assert (cs + [c])[..|cs|] == cs;
  }

  lemma PathsSnoc(cs: seq<Chunk>, outFile: string, c: Chunk)
    requires forall k :: 0 <= k < |cs| ==> cs[k].path == ChunkPath(outFile, k + 1)
    requires c.path == ChunkPath(outFile, |cs| + 1)
    ensures forall k :: 0 <= k < |cs + [c]| ==> (cs + [c])[k].path == ChunkPath(outFile, k + 1)
  {
    forall k | 0 <= k < |cs + [c]| ensures (cs + [c])[k].path == ChunkPath(outFile, k + 1) {
      if k < |cs| { assert (cs + [c])[k] == cs[k]; }
    }
  }

  lemma SizesSnoc(cs: seq<Chunk>, size: nat, c: Chunk)
    requires forall k :: 0 <= k < |cs| ==> |cs[k].records| == size
    ensures forall k :: 0 <= k < |cs + [c]| - 1 ==> |(cs + [c])[k].records| == size
    ensures |c.records| == size ==> forall k :: 0 <= k < |cs + [c]| ==> |(cs + [c])[k].records| == size
  {
    forall k | 0 <= k < |cs| ensures (cs + [c])[k] == cs[k] {
    }
  }

  /** The records are cut into consecutive chunks of n, each written to the
    * pattern with its 1-based number; a trailing partial chunk is written
    * only when it is not empty. */
  method SplitByCount(records: seq<Fasta>, n: int, outFile: string) returns (chunks: seq<Chunk>)
    requires n != 0
    ensures ChunkedBy(chunks, records, ChunkSize(n), outFile)
  {
    ghost var size := ChunkSize(n);
    chunks := [];
    var fas: seq<Fasta> := [];
    var i := 1;
    var r := 0;
    while r < |records|
      invariant 0 <= r <= |records|
      invariant i == |chunks| + 1
      invariant Flatten(chunks) + fas == records[..r]
      invariant |fas| < size
      invariant FullChunks(chunks, size, outFile)
    {
      assert records[..r + 1] == records[..r] + [records[r]];
      fas := fas + [records[r]];
      if |fas| >= n {
        AddChunk(chunks, size, outFile, fas);
        chunks := chunks + [Chunk(ChunkPath(outFile, i), fas)];
        i := i + 1;
        fas := [];
      }
      r := r + 1;
    }
    assert records[..r] == records;
    if |fas| > 0 {
      AddChunk(chunks, size, outFile, fas);
      chunks := chunks + [Chunk(ChunkPath(outFile, i), fas)];
    }
  }

  /** The total length of full chunks followed by a last one. */
  lemma {:induction false} FlattenLength(cs: seq<Chunk>, size: nat)
    requires cs != []
    requires forall k :: 0 <= k < |cs| - 1 ==> |cs[k].records| == size
    ensures |Flatten(cs)| == (|cs| - 1) * size + |cs[|cs| - 1].records|
  {
    if |cs| > 1 {
      var pre := cs[..|cs| - 1];
      assert pre[|pre| - 1] == cs[|cs| - 2];
      FlattenLength(pre, size);
      assert |Flatten(cs)| == |Flatten(pre)| + |cs[|cs| - 1].records|;
      MulSucc(|cs| - 2, size);
    }
  }

  lemma MulSucc(a: nat, b: nat)
    ensures (a + 1) * b == a * b + b
  {
  }

  /** There are ceil(count / size) chunks: no chunks for no records, and
    * otherwise count is above |cs| - 1 full chunks and at most |cs|. */
  lemma ChunkCount(cs: seq<Chunk>, records: seq<Fasta>, size: nat, outFile: string)
    requires ChunkedBy(cs, records, size, outFile)
    ensures cs == [] <==> records == []
    ensures cs != [] ==> (|cs| - 1) * size < |records| <= |cs| * size
  {
    if cs != [] {
      FlattenLength(cs, size);
      assert |cs| * size == (|cs| - 1) * size + size;
    }
  }

  /** With a "%" in the pattern, the chunks go to different files. */
  lemma ChunkPathsDistinct(cs: seq<Chunk>, records: seq<Fasta>, size: nat, outFile: string, k: nat, l: nat)
    requires ChunkedBy(cs, records, size, outFile)
    requires Contains(outFile, "%")
    requires k < l < |cs|
    ensures cs[k].path != cs[l].path
  {
    OutPathInjective(outFile, NatToString(k + 1), NatToString(l + 1));
    if NatToString(k + 1) == NatToString(l + 1) {
      DigitsValueOfNatToString(k + 1);
      DigitsValueOfNatToString(l + 1);
    }
  }

  // ---------------------------------------------------------------------
  // Splitting by group

  /** A regular-expression match: the whole match and the capture groups. */
  datatype Match = Match(whole: string, groups: seq<string>)

  /** The group key: the first capture group if the expression has one, else
    * the whole match. */
  function Key(m: Match): (k: string)
    ensures m.groups == [] ==> k == m.whole
    ensures m.groups != [] ==> k == m.groups[0]
  {
    if m.groups != [] then m.groups[0] else m.whole
  }

  /** The file a record goes to, or None when its name does not match. */
  function PathOf(rec: Fasta, find: string -> Option<Match>, outFile: string): (r: Option<string>)
    ensures r.Some? <==> find(rec.name).Some?
  {
    match find(rec.name)
    case None => None
    case Some(m) => Some(OutPath(outFile, Key(m)))
  }

  /** The records sent to `path`, in input order. */
  function Routed(rs: seq<Fasta>, find: string -> Option<Match>, outFile: string, path: string): seq<Fasta>
  {
    if rs == [] then []
    else
      var x := rs[|rs| - 1];
      Routed(rs[..|rs| - 1], find, outFile, path) + (if PathOf(x, find, outFile) == Some(path) then [x] else [])
  }

  /** A record is sent to `path` exactly when its name's key names `path`. */
  lemma {:induction false} RoutedMembers(rs: seq<Fasta>, find: string -> Option<Match>, outFile: string, path: string, x: Fasta)
    ensures x in Routed(rs, find, outFile, path) <==> x in rs && PathOf(x, find, outFile) == Some(path)
  {
    if rs != [] {
      var pre := rs[..|rs| - 1];
      RoutedMembers(pre, find, outFile, path, x);
      assert rs == pre + [rs[|rs| - 1]];
    }
  }

  datatype GroupError = NoMatch(name: string)

  /** Record j is the first whose name does not match. */
  predicate FirstUnmatched(rs: seq<Fasta>, find: string -> Option<Match>, j: int)
  {
    0 <= j < |rs| && find(rs[j].name).None? &&
    forall i :: 0 <= i < j ==> find(rs[i].name).Some?
  }

  predicate AllMatch(rs: seq<Fasta>, find: string -> Option<Match>)
  {
    forall i :: 0 <= i < |rs| ==> find(rs[i].name).Some?
  }

  /** Extending the matched prefix by one record. */
  lemma AllMatchSnoc(rs: seq<Fasta>, find: string -> Option<Match>, i: nat)
    requires i < |rs|
    ensures AllMatch(rs[..i + 1], find) <==> AllMatch(rs[..i], find) && find(rs[i].name).Some?
    ensures AllMatch(rs[..i], find) && find(rs[i].name).None? ==> FirstUnmatched(rs, find, i)
  {
    assert rs[..i + 1] == rs[..i] + [rs[i]];
    if AllMatch(rs[..i], find) {
      forall j | 0 <= j < i ensures find(rs[j].name).Some? {
        assert rs[..i][j] == rs[j];
      }
    }
  }

  /** `out` holds the records of the first i routed to each file. */
  ghost predicate GroupedUpTo(out: map<string, seq<Fasta>>, rs: seq<Fasta>, find: string -> Option<Match>, outFile: string, i: nat)
    requires i <= |rs|
  {
    (forall p :: p in out ==> out[p] == Routed(rs[..i], find, outFile, p) && out[p] != []) &&
    (forall j :: 0 <= j < i && find(rs[j].name).Some? ==> PathOf(rs[j], find, outFile).value in out)
  }

  /** Routing one more record extends the file it is sent to. */
  lemma RoutedSnoc(rs: seq<Fasta>, find: string -> Option<Match>, outFile: string, i: nat, q: string)
    requires i < |rs|
    ensures Routed(rs[..i + 1], find, outFile, q) ==
      Routed(rs[..i], find, outFile, q) + (if PathOf(rs[i], find, outFile) == Some(q) then [rs[i]] else [])
  {
    assert rs[..i + 1][..i] == rs[..i];
  }

  /** No record sent to `path` means nothing was routed there. */
  lemma {:induction false} RoutedEmpty(rs: seq<Fasta>, find: string -> Option<Match>, outFile: string, path: string)
    requires forall j :: 0 <= j < |rs| ==> PathOf(rs[j], find, outFile) != Some(path)
    ensures Routed(rs, find, outFile, path) == []
  {
    if rs != [] {
      RoutedEmpty(rs[..|rs| - 1], find, outFile, path);
    }
  }

  /** A file no earlier record was sent to has received nothing yet. */
  lemma RoutedNone(out: map<string, seq<Fasta>>, rs: seq<Fasta>, find: string -> Option<Match>, outFile: string, i: nat, p: string)
    requires i <= |rs| && GroupedUpTo(out, rs, find, outFile, i) && p !in out
    ensures Routed(rs[..i], find, outFile, p) == []
  {
    forall j | 0 <= j < i ensures PathOf(rs[..i][j], find, outFile) != Some(p) {
      assert rs[..i][j] == rs[j];
      if find(rs[j].name).Some? {
        assert PathOf(rs[j], find, outFile).value in out;
      }
    }
    RoutedEmpty(rs[..i], find, outFile, p);
  }

  /** An unmatched record changes nothing. */
  lemma GroupSkip(out: map<string, seq<Fasta>>, rs: seq<Fasta>, find: string -> Option<Match>, outFile: string, i: nat)
    requires i < |rs| && GroupedUpTo(out, rs, find, outFile, i)
    requires find(rs[i].name).None?
    ensures GroupedUpTo(out, rs, find, outFile, i + 1)
  {
    forall q | q in out ensures out[q] == Routed(rs[..i + 1], find, outFile, q) {
      RoutedSnoc(rs, find, outFile, i, q);
    }
  }

  /** A matched record is appended to its file. */
  lemma GroupAdd(out: map<string, seq<Fasta>>, rs: seq<Fasta>, find: string -> Option<Match>, outFile: string, i: nat, p: string)
    requires i < |rs| && GroupedUpTo(out, rs, find, outFile, i)
    requires PathOf(rs[i], find, outFile) == Some(p)
    ensures GroupedUpTo(out[p := (if p in out then out[p] else []) + [rs[i]]], rs, find, outFile, i + 1)
  {
    var out' := out[p := (if p in out then out[p] else []) + [rs[i]]];
    if p !in out {
      RoutedNone(out, rs, find, outFile, i, p);
    }
    forall q | q in out' ensures out'[q] == Routed(rs[..i + 1], find, outFile, q) {
      RoutedSnoc(rs, find, outFile, i, q);
    }
  }

  /** Sends each record to the file named by its key, in order; a name that
    * does not match is an error unless `ignore` is set, and then the record
    * is skipped. The result maps each file to the records written to it. */
  method SplitByGroup(records: seq<Fasta>, find: string -> Option<Match>, outFile: string, ignore: bool)
    returns (r: Result<map<string, seq<Fasta>>, GroupError>)
    ensures r.Err? <==> !ignore && !AllMatch(records, find)
    ensures r.Err? ==> exists j :: FirstUnmatched(records, find, j) && r.error == NoMatch(records[j].name)
    ensures r.Ok? ==> GroupedUpTo(r.value, records, find, outFile, |records|)
  {
    var out: map<string, seq<Fasta>> := map[];
    var i := 0;
    while i < |records|
      invariant 0 <= i <= |records| && GroupLoop(out, records, find, outFile, ignore, i)
    {
      var g := find(records[i].name);
      if g.None? {
        if !ignore {
          LoopFail(out, records, find, outFile, i);
          return Err(NoMatch(records[i].name));
        }
        LoopSkip(out, records, find, outFile, ignore, i);
      } else {
        var p := OutPath(outFile, Key(g.value));
        LoopAdd(out, records, find, outFile, ignore, i, p);
        out := out[p := (if p in out then out[p] else []) + [records[i]]];
      }
      i := i + 1;
    }
    LoopDone(out, records, find, outFile, ignore);
    return Ok(out);
  }

  /** The state of SplitByGroup's loop after i records. */
  ghost predicate GroupLoop(out: map<string, seq<Fasta>>, rs: seq<Fasta>, find: string -> Option<Match>, outFile: string,
                            ignore: bool, i: nat)
    requires i <= |rs|
  {
    (!ignore ==> AllMatch(rs[..i], find)) && GroupedUpTo(out, rs, find, outFile, i)
  }

  lemma LoopFail(out: map<string, seq<Fasta>>, rs: seq<Fasta>, find: string -> Option<Match>, outFile: string, i: nat)
    requires i < |rs| && GroupLoop(out, rs, find, outFile, false, i) && find(rs[i].name).None?
    ensures FirstUnmatched(rs, find, i) && !AllMatch(rs, find)
  {
    AllMatchSnoc(rs, find, i);
  }

  lemma LoopSkip(out: map<string, seq<Fasta>>, rs: seq<Fasta>, find: string -> Option<Match>, outFile: string,
                 ignore: bool, i: nat)
    requires i < |rs| && GroupLoop(out, rs, find, outFile, ignore, i) && find(rs[i].name).None? && ignore
    ensures GroupLoop(out, rs, find, outFile, ignore, i + 1)
  {
    GroupSkip(out, rs, find, outFile, i);
  }

  lemma LoopAdd(out: map<string, seq<Fasta>>, rs: seq<Fasta>, find: string -> Option<Match>, outFile: string,
                ignore: bool, i: nat, p: string)
    requires i < |rs| && GroupLoop(out, rs, find, outFile, ignore, i)
    requires find(rs[i].name).Some? && p == OutPath(outFile, Key(find(rs[i].name).value))
    ensures GroupLoop(out[p := (if p in out then out[p] else []) + [rs[i]]], rs, find, outFile, ignore, i + 1)
  {
    GroupAdd(out, rs, find, outFile, i, p);
    AllMatchSnoc(rs, find, i);
  }

  lemma LoopDone(out: map<string, seq<Fasta>>, rs: seq<Fasta>, find: string -> Option<Match>, outFile: string, ignore: bool)
    requires GroupLoop(out, rs, find, outFile, ignore, |rs|)
    ensures (!ignore ==> AllMatch(rs, find)) && GroupedUpTo(out, rs, find, outFile, |rs|)
  {
    assert rs[..|rs|] == rs;
  }

}
