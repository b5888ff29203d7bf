/**
 * Summing coverage histograms by sample group (coveragesum/coveragesum.go):
 * files are sorted by species and sample from their names, each sample's
 * histogram is added into its group's sum with zero padding, the sums are
 * divided by the number of samples, and all non-empty sums are padded to
 * one length.
 */
module CoverageSum {
  import opened Wrappers
  import opened Strs
  import opened Seqs
  import opened Padded
  import Luna

  // ---------------------------------------------------------------------
  // Slices

  /** grow: `a` itself when it has at least n elements, else `a` followed by
      zeros up to length n. */
  method Grow(a: seq<int>, n: int) returns (r: seq<int>)
    ensures |a| >= n ==> r == a
    ensures |a| < n ==> |r| == n && r[..|a|] == a && forall i :: |a| <= i < n ==> r[i] == 0
    ensures |r| == Max(|a|, n) && forall i :: 0 <= i < |r| ==> r[i] == At(a, i)
  {
    r := a;
    if |a| >= n {
      return;
    }
    while |r| < n
      invariant |a| <= |r| <= n && r[..|a|] == a
      invariant forall i :: |a| <= i < |r| ==> r[i] == 0
      decreases n - |r|
    {
      r := r + [0];
    }
  }

  /** add: src added into dst element by element, dst first grown to the
      length of src. */
  method Add(dst: seq<int>, src: seq<int>) returns (r: seq<int>)
    ensures IsPadSum(r, dst, src)
  {
    r := Grow(dst, |src|);
    var i := 0;
    while i < |src|
      invariant 0 <= i <= |src| && |r| == Max(|dst|, |src|)
      invariant forall k :: 0 <= k < |r| ==> r[k] == At(dst, k) + (if k < i then src[k] else 0)
    {
      r := r[i := r[i] + src[i]];
      i := i + 1;
    }
  }

  /** The first loop of equalizeLens: the longest slice length. */
  method Longest(m: map<string, seq<int>>) returns (longest: nat)
    ensures forall k :: k in m ==> |m[k]| <= longest
    ensures longest == 0 || exists k :: k in m && |m[k]| == longest
  {
    longest := 0;
    var ks := m.Keys;
    while ks != {}
      invariant ks <= m.Keys
      invariant forall k :: k in m.Keys - ks ==> |m[k]| <= longest
      invariant longest == 0 || exists k :: k in m.Keys - ks && |m[k]| == longest
      decreases |ks|
    {
      var k :| k in ks;
      longest := Max(longest, |m[k]|);
      ks := ks - {k};
    }
  }

  /** equalizeLens: every non-empty slice is padded with zeros to the longest
      length; empty slices and the keys stay as they are. `mx` is that
      longest length. */
  method EqualizeLens(m: map<string, seq<int>>) returns (r: map<string, seq<int>>, ghost mx: nat)
    ensures forall k :: k in m ==> |m[k]| <= mx
    ensures mx == 0 || exists k :: k in m && |m[k]| == mx
    ensures r.Keys == m.Keys
    ensures forall k :: k in m && |m[k]| == 0 ==> r[k] == []
    ensures forall k :: k in m && |m[k]| > 0 ==>
      |r[k]| == mx && r[k][..|m[k]|] == m[k] && forall i :: |m[k]| <= i < mx ==> r[k][i] == 0
  {
    var longest := Longest(m);
    mx := longest;
    r := m;
    if longest == 0 {
      return;
    }
    var ks := m.Keys;
    while ks != {}
      invariant ks <= m.Keys && r.Keys == m.Keys
      invariant forall k :: k in ks ==> r[k] == m[k]
      invariant forall k :: k in m.Keys - ks && |m[k]| == 0 ==> r[k] == []
      invariant forall k :: k in m.Keys - ks && |m[k]| > 0 ==>
        |r[k]| == mx && r[k][..|m[k]|] == m[k] && forall i :: |m[k]| <= i < mx ==> r[k][i] == 0
      decreases |ks|
    {
      var k :| k in ks;
      var v := m[k];
      if |v| != 0 && |v| != longest {
        var g := Grow(v, longest);
        r := r[k := g];
      }
      ks := ks - {k};
    }
  }

  /** The share of non-zero positions, 0 for an empty histogram. */
  function NonZeroShare(a: seq<int>): real {
    if |a| == 0 then 0.0 else (CountIf(a, x => x != 0) as real) / (|a| as real)
  }

  lemma NonZeroShareBounds(a: seq<int>)
    ensures 0.0 <= NonZeroShare(a) <= 1.0
  {
    if |a| > 0 {
      var c := CountIf(a, x => x != 0) as real;
      var n := |a| as real;
      assert c <= n;
      assert c / n <= n / n;
    }
  }

  /** nonZeroRatio: the non-zero positions counted in a loop. */
  method NonZeroRatio(a: seq<int>) returns (r: real)
    ensures r == NonZeroShare(a)
  {
    if |a| == 0 {
      return 0.0;
    }
    var nz := 0;
    var i := 0;
    while i < |a|
      invariant 0 <= i <= |a| && nz == CountIf(a[..i], x => x != 0)
    {
      assert a[..i + 1][..i] == a[..i];
      if a[i] != 0 {
        nz := nz + 1;
      }
      i := i + 1;
    }
    assert a[..i] == a;
    r := (nz as real) / (|a| as real);
  }

  // ---------------------------------------------------------------------
  // The file-name pattern ([^/]+)__(.+)\.cov\.json

  /** The pattern matches f[s..e+9] with the species f[s..j] (no '/'), "__",
      and the sample f[j+2..e] (non-empty, no newline), then ".cov.json". */
  predicate IsCovMatch(f: string, s: nat, j: nat, e: nat) {
    OccursAt(f, ".cov.json", e) && s < j && j + 2 < e && OccursAt(f, "__", j) &&
    (forall t :: s <= t < j ==> f[t] != '/') && (forall t :: j + 2 <= t < e ==> f[t] != '\n')
  }

  /** The part after "__" at j can end at e. */
  predicate IsCovTail(f: string, j: nat, e: nat) {
    OccursAt(f, ".cov.json", e) && j + 2 < e && forall t :: j + 2 <= t < e ==> f[t] != '\n'
  }

  /** The last position in lo..hi where `sub` occurs. */
  function LastAt(f: string, sub: string, lo: nat, hi: nat): (r: Option<nat>)
    ensures r.Some? ==> lo <= r.value <= hi && OccursAt(f, sub, r.value)
    ensures r.Some? ==> forall e: nat :: r.value < e <= hi ==> !OccursAt(f, sub, e)
    ensures r.None? ==> forall e: nat :: lo <= e <= hi ==> !OccursAt(f, sub, e)
    decreases hi
  {
    if hi < lo then None
    else if OccursAt(f, sub, hi) then Some(hi)
    else if hi == lo then None
    else LastAt(f, sub, lo, hi - 1)
  }

  /** Where the greedy `.+` lets the sample end after "__" at j: the last
      ".cov.json" reachable without crossing a newline. */
  function SampleEnd(f: string, j: nat): (r: Option<nat>)
    requires j + 2 <= |f|
    ensures r.Some? ==> IsCovTail(f, j, r.value)
    ensures r.Some? ==> forall e: nat :: r.value < e ==> !IsCovTail(f, j, e)
    ensures r.None? ==> forall e: nat :: !IsCovTail(f, j, e)
  {
    var m := RunLength(f, j + 2, c => c != '\n');
    var r := LastAt(f, ".cov.json", j + 3, j + 2 + m);
    assert forall e: nat :: IsCovTail(f, j, e) ==> j + 3 <= e <= j + 2 + m by {
      if j + 2 + m < |f| {
        assert f[j + 2 + m] == '\n';
      }
    }
    assert r.Some? ==> IsCovTail(f, j, r.value) by {
      if r.Some? {
        forall t | j + 2 <= t < r.value ensures f[t] != '\n' {
          assert t < j + 2 + m;
        }
      }
    }
    r
  }

  /** "__" at j can be followed by a sample. */
  predicate Splits(f: string, j: nat) {
    OccursAt(f, "__", j) && SampleEnd(f, j).Some?
  }

  /** Where the greedy `[^/]+` lets the species end: the last "__" before hi
      that a sample can follow. */
  function SpeciesEnd(f: string, s: nat, hi: nat): (r: Option<nat>)
    requires hi <= |f|
    ensures r.Some? ==> s < r.value < hi && Splits(f, r.value)
    ensures r.Some? ==> forall j: nat :: r.value < j < hi ==> !Splits(f, j)
    ensures r.None? ==> forall j: nat :: s < j < hi ==> !Splits(f, j)
    decreases hi
  {
    if hi <= s + 1 then None
    else if Splits(f, hi - 1) then Some(hi - 1)
    else SpeciesEnd(f, s, hi - 1)
  }

  /** A match starting at s has its species inside the run of non-'/'
      characters from s. */
  lemma MatchInRun(f: string, s: nat, j: nat, e: nat)
    requires s <= |f|
    ensures var n := RunLength(f, s, c => c != '/');
      IsCovMatch(f, s, j, e) <==> s < j < s + n && OccursAt(f, "__", j) && IsCovTail(f, j, e)
  {
    var n := RunLength(f, s, c => c != '/');
    if IsCovMatch(f, s, j, e) {
      assert f[j] == '_';
      if s + n < |f| {
        assert f[s + n] == '/';
      }
    }
    if s < j < s + n && OccursAt(f, "__", j) && IsCovTail(f, j, e) {
      forall t | s <= t < j ensures f[t] != '/' {
        assert t < s + n;
      }
    }
  }

  /** No match starts at s. */
  ghost predicate NoMatchAt(f: string, s: nat) {
    forall j: nat, e: nat :: !IsCovMatch(f, s, j, e)
  }

  /** The match the pattern takes when it starts at s, if it can. */
  function MatchAt(f: string, s: nat): (r: Option<(nat, nat)>)
    requires s < |f|
    ensures r.Some? ==> s < r.value.0 && r.value.0 + 2 < r.value.1 && r.value.1 + 9 <= |f|
  {
    var j := SpeciesEnd(f, s, s + RunLength(f, s, c => c != '/'));
    if j.Some? then Some((j.value, SampleEnd(f, j.value).value)) else None
  }

  /** MatchAt takes the longest species, then the longest sample, and fails
      only when nothing matches at s. */
  lemma MatchAtSpec(f: string, s: nat)
    requires s < |f|
    ensures MatchAt(f, s).None? ==> NoMatchAt(f, s)
    ensures MatchAt(f, s).Some? ==> var (j, e) := MatchAt(f, s).value;
      IsCovMatch(f, s, j, e) &&
      (forall j1: nat, e1: nat :: j < j1 ==> !IsCovMatch(f, s, j1, e1)) &&
      (forall e1: nat :: e < e1 ==> !IsCovMatch(f, s, j, e1))
  {
    var n := RunLength(f, s, c => c != '/');
    var j := SpeciesEnd(f, s, s + n);
    if j.Some? {
      var e := SampleEnd(f, j.value).value;
      MatchInRun(f, s, j.value, e);
      forall j1: nat, e1: nat | j.value < j1 ensures !IsCovMatch(f, s, j1, e1) {
        MatchInRun(f, s, j1, e1);
        if j1 < s + n && OccursAt(f, "__", j1) {
          assert !Splits(f, j1);
        }
      }
      forall e1: nat | e < e1 ensures !IsCovMatch(f, s, j.value, e1) {
        assert !IsCovTail(f, j.value, e1);
      }
    } else {
      forall j1: nat, e1: nat ensures !IsCovMatch(f, s, j1, e1) {
        MatchInRun(f, s, j1, e1);
        if s < j1 < s + n && OccursAt(f, "__", j1) {
          assert !Splits(f, j1);
        }
      }
    }
  }

  /** The leftmost match at or after s, with the greedy choices of species
      and sample end. */
  function CovMatchFrom(f: string, s: nat): (r: Option<(nat, nat, nat)>)
    ensures r.Some? ==> r.value.0 < r.value.1 && r.value.1 + 2 < r.value.2 && r.value.2 + 9 <= |f|
    decreases |f| - s
  {
    if s >= |f| then None
    else
      var m := MatchAt(f, s);
      if m.Some? then Some((s, m.value.0, m.value.1)) else CovMatchFrom(f, s + 1)
  }

  /** CovMatchFrom finds the leftmost match, and for its start the longest
      species and then the longest sample; or there is none. */
  lemma {:induction false} CovMatchSpec(f: string, s: nat)
    ensures var r := CovMatchFrom(f, s);
      (r.Some? ==> var (s0, j, e) := r.value;
        s <= s0 && IsCovMatch(f, s0, j, e) &&
        (forall s1: nat :: s <= s1 < s0 ==> NoMatchAt(f, s1)) &&
        (forall j1: nat, e1: nat :: j < j1 ==> !IsCovMatch(f, s0, j1, e1)) &&
        (forall e1: nat :: e < e1 ==> !IsCovMatch(f, s0, j, e1))) &&
      (r.None? ==> forall s1: nat :: s <= s1 ==> NoMatchAt(f, s1))
    decreases |f| - s
  {
    if s >= |f| {
      forall s1: nat | s <= s1 ensures NoMatchAt(f, s1) {
      }
    } else {
      MatchAtSpec(f, s);
      if MatchAt(f, s).None? {
        CovMatchSpec(f, s + 1);
      }
    }
  }

  /** The (species, sample) groups of the first match, if any. */
  function CovPair(f: string): Option<(string, string)> {
    var m := CovMatchFrom(f, 0);
    if m.None? then None
    else
      var (s, j, e) := m.value;
      Some((f[s..j], f[j + 2..e]))
  }

  // ---------------------------------------------------------------------
  // sortFiles

  datatype FileError =
    | NoFiles
    | BadFileName(path: string)
    | ReadFailed(path: string)
    | TooManySpecies(count: nat)
    | BadSampleName(sample: string)
    | NoGroup(name: string)

  /** A file-name parser: species and sample, or None. */
  type Parse = string -> Option<(string, string)>

  predicate AllMatch(files: seq<string>, parse: Parse) {
    forall k :: 0 <= k < |files| ==> parse(files[k]).Some?
  }

  /** The species -> sample -> file map of matching files, a later file
      replacing an earlier one with the same species and sample. */
  function Collect(files: seq<string>, parse: Parse): map<string, map<string, string>>
    requires AllMatch(files, parse)
  {
    if files == [] then map[]
    else
      var m := Collect(files[..|files| - 1], parse);
      var f := files[|files| - 1];
      var (sp, sm) := parse(f).value;
      m[sp := (if sp in m then m[sp] else map[])[sm := f]]
  }

  /** Collecting one more matching file. */
  lemma CollectSnoc(files: seq<string>, parse: Parse, f: string)
    requires AllMatch(files, parse) && parse(f).Some?
    ensures AllMatch(files + [f], parse)
    ensures var m := Collect(files, parse); var (sp, sm) := parse(f).value;
      Collect(files + [f], parse) == m[sp := (if sp in m then m[sp] else map[])[sm := f]]
  {
    assert (files + [f])[..|files|] == files;
  }

  /** files[k] is the last of `files` with species sp and sample sm. */
  predicate LastWith(files: seq<string>, parse: Parse, k: nat, sp: string, sm: string)
    requires AllMatch(files, parse)
  {
    k < |files| && parse(files[k]).value == (sp, sm) &&
    forall k1 :: k < k1 < |files| ==> parse(files[k1]).value != (sp, sm)
  }

  /** Collect maps no species to an empty map. */
  lemma {:induction false} CollectNonEmpty(files: seq<string>, parse: Parse)
    requires AllMatch(files, parse)
    ensures forall sp :: sp in Collect(files, parse) ==> Collect(files, parse)[sp] != map[]
  {
    if files != [] {
      CollectNonEmpty(files[..|files| - 1], parse);
      var (sp, sm) := parse(files[|files| - 1]).value;
      assert sm in Collect(files, parse)[sp];
    }
  }

  /** Collect holds an entry for the species and sample of every file. */
  lemma {:induction false} CollectHas(files: seq<string>, parse: Parse, k: nat)
    requires AllMatch(files, parse) && k < |files|
    ensures var (sp, sm) := parse(files[k]).value; sp in Collect(files, parse) && sm in Collect(files, parse)[sp]
  {
    var init := files[..|files| - 1];
    if k < |init| {
      assert files[k] == init[k];
      CollectHas(init, parse, k);
    }
  }

  /** Every entry of Collect is the last file with its species and sample. */
  lemma {:induction false} CollectLast(files: seq<string>, parse: Parse, sp: string, sm: string)
    requires AllMatch(files, parse)
    requires sp in Collect(files, parse) && sm in Collect(files, parse)[sp]
    ensures exists k: nat :: LastWith(files, parse, k, sp, sm) && Collect(files, parse)[sp][sm] == files[k]
  {
    var n := |files| - 1;
    var init := files[..n];
    if parse(files[n]).value == (sp, sm) {
      assert LastWith(files, parse, n, sp, sm);
    } else {
      CollectLast(init, parse, sp, sm);
      var k: nat :| LastWith(init, parse, k, sp, sm) && Collect(init, parse)[sp][sm] == init[k];
      assert files[k] == init[k];
      assert LastWith(files, parse, k, sp, sm);
    }
  }

  /** sortFiles over the file names the glob found: an error when there are
      none or when one does not match the pattern, else Collect of them. */
  method SortFiles(files: seq<string>) returns (r: Result<map<string, map<string, string>>, FileError>)
    ensures files == [] <==> r == Err(NoFiles)
    ensures r.Err? && files != [] ==> exists k :: (0 <= k < |files| && r.error == BadFileName(files[k]) &&
      CovPair(files[k]).None? && AllMatch(files[..k], CovPair))
    ensures r.Ok? <==> files != [] && AllMatch(files, CovPair)
    ensures r.Ok? ==> r.value == Collect(files, CovPair)
  {
    if files == [] {
      return Err(NoFiles);
    }
    var m := map[];
    var i := 0;
    while i < |files|
      invariant 0 <= i <= |files| && AllMatch(files[..i], CovPair) && m == Collect(files[..i], CovPair)
    {
      var f := files[i];
      var mch := CovPair(f);
      if mch.None? {
        return Err(BadFileName(f));
      }
      var (sp, sm) := mch.value;
      assert files[..i + 1] == files[..i] + [f];
      CollectSnoc(files[..i], CovPair, f);
      m := m[sp := (if sp in m then m[sp] else map[])[sm := f]];
      i := i + 1;
    }
    assert files[..i] == files;
    r := Ok(m);
  }

  // ---------------------------------------------------------------------
  // iterSpecies

  datatype SampleCoverage = SampleCoverage(sample: string, cov: seq<int>)

  /** Reading `path` stops iterSpecies with error `e`. */
  predicate Stops(read: string -> Option<map<string, seq<int>>>, path: string, e: FileError) {
    match read(path)
    case None => e == ReadFailed(path)
    case Some(m) => |m| > 1 && e == TooManySpecies(|m|)
  }

  /** Reading `path` gives an object with at most one species. */
  predicate Readable(read: string -> Option<map<string, seq<int>>>, path: string) {
    read(path).Some? && |read(path).value| <= 1
  }

  /** iterSpecies: the sample files in map order (here any order), each read
      with `read` (jio.Read); an empty object is skipped, one with more than
      one species or one that cannot be read stops with an error, and the
      single coverage of the rest is yielded with its sample. */
  method IterSpecies(files: map<string, string>, read: string -> Option<map<string, seq<int>>>)
    returns (r: Result<seq<SampleCoverage>, FileError>)
    ensures r.Ok? <==> forall s :: s in files ==> Readable(read, files[s])
    ensures r.Err? ==> exists s :: s in files && Stops(read, files[s], r.error)
    ensures r.Ok? ==> forall c :: c in r.value ==>
      (c.sample in files && |read(files[c.sample]).value| == 1 && c.cov in read(files[c.sample]).value.Values)
    ensures r.Ok? ==> forall s :: s in files && |read(files[s]).value| == 1 ==> exists c :: c in r.value && c.sample == s
    ensures r.Ok? ==> forall a, b :: 0 <= a < b < |r.value| ==> r.value[a].sample != r.value[b].sample
  {
    var out: seq<SampleCoverage> := [];
    var todo := files.Keys;
    while todo != {}
      invariant todo <= files.Keys
      invariant forall s :: s in files.Keys - todo ==> Readable(read, files[s])
      invariant forall c :: c in out ==> (c.sample in files.Keys - todo &&
        |read(files[c.sample]).value| == 1 && c.cov in read(files[c.sample]).value.Values)
      invariant forall s :: s in files.Keys - todo && |read(files[s]).value| == 1 ==> exists c :: c in out && c.sample == s
      invariant forall a, b :: 0 <= a < b < |out| ==> out[a].sample != out[b].sample
      decreases |todo|
    {
      var sample :| sample in todo;
      var file := files[sample];
      var m := read(file);
      if m.None? {
        return Err(ReadFailed(file));
      }
      if |m.value| > 1 {
        return Err(TooManySpecies(|m.value|));
      }
      if |m.value| == 1 {
        var data :| data in m.value.Values;
        out := out + [SampleCoverage(sample, data)];
      }
      todo := todo - {sample};
    }
    r := Ok(out);
  }

  // ---------------------------------------------------------------------
  // Sample groups of batch 2: _([^_]+)_(SOL|INF)_

  /** The pattern matches at p with its first group s[p+1..q]. */
  predicate Batch2At(s: string, p: nat, q: nat) {
    p + 1 < q && q <= |s| && s[p] == '_' && (forall t :: p < t < q ==> s[t] != '_') &&
    (OccursAt(s, "_SOL_", q) || OccursAt(s, "_INF_", q))
  }

  /** A match at p has only one place to end its first group. */
  lemma Batch2AtUnique(s: string, p: nat, q1: nat, q2: nat)
    requires Batch2At(s, p, q1) && Batch2At(s, p, q2)
    ensures q1 == q2
  {
    assert s[q1..q1 + 5][0] == '_' && s[q2..q2 + 5][0] == '_';
    assert s[q1] == '_' && s[q2] == '_';
  }

  /** Where a match at p must end its first group: at the first '_' after
      p + 1. */
  lemma Batch2AtEnd(s: string, p: nat, q1: nat)
    requires Batch2At(s, p, q1)
    ensures q1 == p + 1 + RunLength(s, p + 1, c => c != '_')
  {
    var q := p + 1 + RunLength(s, p + 1, c => c != '_');
    assert s[q1] == '_';
    assert q == |s| || s[q] == '_';
  }

  /** The group the pattern gives when it matches at p. */
  function Batch2GroupAt(s: string, p: nat): (r: Option<string>)
    ensures r.Some? <==> exists q: nat :: Batch2At(s, p, q)
    ensures forall q: nat :: Batch2At(s, p, q) ==> r == Some(s[p + 1..q] + "_" + s[q + 1..q + 4])
  {
    if p < |s| && s[p] == '_' then
      var q := p + 1 + RunLength(s, p + 1, c => c != '_');
      assert forall q1: nat :: Batch2At(s, p, q1) ==> q1 == q by {
        forall q1: nat | Batch2At(s, p, q1) ensures q1 == q {
          Batch2AtEnd(s, p, q1);
        }
      }
      if Batch2At(s, p, q) then Some(s[p + 1..q] + "_" + s[q + 1..q + 4]) else None
    else None
  }

  function Batch2From(s: string, p: nat): Option<string>
    decreases |s| - p
  {
    if p >= |s| then None
    else if Batch2GroupAt(s, p).Some? then Batch2GroupAt(s, p) else Batch2From(s, p + 1)
  }

  /** Batch 2 sampleGroup: site "_" SOL or INF of the leftmost match; None
      where the pattern does not match. */
  function SampleGroup2(s: string): Option<string> {
    Batch2From(s, 0)
  }

  /** SampleGroup2 is the group of the leftmost match, and None exactly when
      the pattern matches nowhere. */
  lemma {:induction false} Batch2FromSpec(s: string, p: nat)
    ensures Batch2From(s, p).None? ==> forall p1: nat, q: nat :: p <= p1 ==> !Batch2At(s, p1, q)
    ensures Batch2From(s, p).Some? ==> exists p0: nat, q: nat :: (p <= p0 && Batch2At(s, p0, q) &&
      (forall p1: nat, q1: nat :: p <= p1 < p0 ==> !Batch2At(s, p1, q1)) &&
      Batch2From(s, p).value == s[p0 + 1..q] + "_" + s[q + 1..q + 4])
    decreases |s| - p
  {
    if p < |s| {
      if Batch2GroupAt(s, p).None? {
        Batch2FromSpec(s, p + 1);
      }
    }
  }

  // ---------------------------------------------------------------------
  // Summing one species

  /** What the main loop does with one sample. */
  datatype Step = Skip | Use(name: string, group: string) | Fail(error: FileError)

  /** Batch 1 skips "Undetermined" samples, renames the rest with
      luna.FixName and groups them with luna.SampleGroup (where Go panics,
      an error here); batch 2 keeps the names matching the batch-2 pattern
      and groups them by it. */
  function Classify(batch: int, sample: string): Step
    requires batch == 1 || batch == 2
  {
    if batch == 1 then
      if HasPrefix(sample, "Undetermined") then Skip
      else match Luna.FixName(sample)
        case Err(_) => Fail(BadSampleName(sample))
        case Ok(name) =>
          match Luna.SampleGroup(name)
          case None => Fail(NoGroup(name))
          case Some(g) => Use(name, g)
    else
      match SampleGroup2(sample)
      case None => Skip
      case Some(g) => Use(sample, g)
  }

  /** Classify for a fixed batch. */
  function Classifier(batch: int): string -> Step
    requires batch == 1 || batch == 2
  {
    s => Classify(batch, s)
  }

  /** Batch 1 never fails for lack of a group, and always uses one of the
      four luna groups. */
  lemma ClassifyBatch1(sample: string)
    ensures Classify(1, sample).Use? ==> Classify(1, sample).group in Luna.GroupNameMapping
    ensures !Classify(1, sample).Fail? || Classify(1, sample).error.BadSampleName?
  {
    if !HasPrefix(sample, "Undetermined") && Luna.FixName(sample).Ok? {
      Luna.FixNameHasGroup(sample);
    }
  }

  /** Batch 2 uses exactly the samples its pattern matches and never fails. */
  lemma ClassifyBatch2(sample: string)
    ensures !Classify(2, sample).Fail?
    ensures Classify(2, sample).Use? <==> SampleGroup2(sample).Some?
  {
  }

  /** The first error among the samples, if any. */
  function FirstFail(covs: seq<SampleCoverage>, cl: string -> Step): Option<FileError> {
    if covs == [] then None
    else
      var e := FirstFail(covs[..|covs| - 1], cl);
      if e.Some? then e
      else match cl(covs[|covs| - 1].sample)
        case Fail(err) => Some(err)
        case _ => None
  }

  /** The coverages of the samples used in group g, in order. */
  function Members(covs: seq<SampleCoverage>, cl: string -> Step, g: string): seq<seq<int>> {
    if covs == [] then []
    else
      var st := cl(covs[|covs| - 1].sample);
      Members(covs[..|covs| - 1], cl, g) + (if st.Use? && st.group == g then [covs[|covs| - 1].cov] else [])
  }

  /** The number of samples used (nSamples). */
  function Used(covs: seq<SampleCoverage>, cl: string -> Step): nat {
    if covs == [] then 0
    else Used(covs[..|covs| - 1], cl) + (if cl(covs[|covs| - 1].sample).Use? then 1 else 0)
  }

  /** The groups of the samples used. */
  function UsedGroups(covs: seq<SampleCoverage>, cl: string -> Step): set<string> {
    if covs == [] then {}
    else
      var st := cl(covs[|covs| - 1].sample);
      UsedGroups(covs[..|covs| - 1], cl) + (if st.Use? then {st.group} else {})
  }

  /** The groups present before any sample: the four luna groups in batch 1. */
  function Seeded(batch: int): set<string> {
    if batch == 1 then Luna.GroupNameMapping.Keys else {}
  }

  /** The non-zero share per used sample name, a later sample with the same
      name replacing an earlier one. */
  function NzMap(covs: seq<SampleCoverage>, cl: string -> Step): map<string, real> {
    if covs == [] then map[]
    else
      var m := NzMap(covs[..|covs| - 1], cl);
      var st := cl(covs[|covs| - 1].sample);
      if st.Use? then m[st.name := NonZeroShare(covs[|covs| - 1].cov)] else m
  }

  /** In batch 1 every used group is a luna group. */
  lemma {:induction false} Batch1UsedGroups(covs: seq<SampleCoverage>)
    ensures UsedGroups(covs, Classifier(1)) <= Luna.GroupNameMapping.Keys
  {
    if covs != [] {
      Batch1UsedGroups(covs[..|covs| - 1]);
      ClassifyBatch1(covs[|covs| - 1].sample);
    }
  }

  /** So in batch 1 the sums have exactly the four luna groups. */
  lemma Batch1Groups(covs: seq<SampleCoverage>)
    ensures Seeded(1) + UsedGroups(covs, Classifier(1)) == Luna.GroupNameMapping.Keys
    ensures |Seeded(1) + UsedGroups(covs, Classifier(1))| == 4
  {
    Batch1UsedGroups(covs);
    GroupCount();
  }

  lemma GroupCount()
    ensures |Luna.GroupNameMapping.Keys| == 4
  {
    assert Luna.GroupNameMapping.Keys == {"1.Euro", "1.Inh", "2.Euro", "2.Inh"};
  }

  /** In batch 1 the only error is a sample name luna.FixName rejects. */
  lemma {:induction false} Batch1Fail(covs: seq<SampleCoverage>)
    ensures FirstFail(covs, Classifier(1)).Some? ==> FirstFail(covs, Classifier(1)).value.BadSampleName?
  {
    if covs != [] {
      Batch1Fail(covs[..|covs| - 1]);
      ClassifyBatch1(covs[|covs| - 1].sample);
    }
  }

  /** Batch 2 never stops with an error. */
  lemma {:induction false} Batch2NoFail(covs: seq<SampleCoverage>)
    ensures FirstFail(covs, Classifier(2)).None?
  {
    if covs != [] {
      Batch2NoFail(covs[..|covs| - 1]);
      ClassifyBatch2(covs[|covs| - 1].sample);
    }
  }

  /** Every share in NzMap lies between 0 and 1. */
  lemma {:induction false} NzMapBounds(covs: seq<SampleCoverage>, cl: string -> Step)
    ensures forall k :: k in NzMap(covs, cl) ==> 0.0 <= NzMap(covs, cl)[k] <= 1.0
  {
    if covs != [] {
      NzMapBounds(covs[..|covs| - 1], cl);
      NonZeroShareBounds(covs[|covs| - 1].cov);
    }
  }

  /** A group that no used sample falls in has no members. */
  lemma {:induction false} MembersOutside(covs: seq<SampleCoverage>, cl: string -> Step, g: string)
    requires g !in UsedGroups(covs, cl)
    ensures Members(covs, cl, g) == []
  {
    if covs != [] {
      MembersOutside(covs[..|covs| - 1], cl, g);
    }
  }

  /** An error among the first k samples is the first error of them all. */
  lemma {:induction false} FirstFailExtends(covs: seq<SampleCoverage>, cl: string -> Step, k: nat)
    requires k <= |covs| && FirstFail(covs[..k], cl).Some?
    ensures FirstFail(covs, cl) == FirstFail(covs[..k], cl)
    decreases |covs| - k
  {
    if k < |covs| {
      assert covs[..k + 1][..k] == covs[..k];
      FirstFailExtends(covs, cl, k + 1);
    } else {
      assert covs[..k] == covs;
    }
  }

  /** The state of the first loop of main after the samples `pre`. */
  predicate Accumulated(pre: seq<SampleCoverage>, cl: string -> Step, seeded: set<string>,
    sums: map<string, seq<int>>, nz: map<string, real>, n: nat)
  {
    FirstFail(pre, cl).None? &&
    sums.Keys == seeded + UsedGroups(pre, cl) &&
    (forall g :: g in sums ==> IsTotal(sums[g], Members(pre, cl, g))) &&
    nz == NzMap(pre, cl) && n == Used(pre, cl)
  }

  /** What one more sample does to the functions describing the loop state. */
  lemma Snoc(pre: seq<SampleCoverage>, c: SampleCoverage, cl: string -> Step)
    ensures var post := pre + [c]; var st := cl(c.sample);
      FirstFail(post, cl) == (if FirstFail(pre, cl).Some? then FirstFail(pre, cl) else if st.Fail? then Some(st.error) else None) &&
      Used(post, cl) == Used(pre, cl) + (if st.Use? then 1 else 0) &&
      UsedGroups(post, cl) == UsedGroups(pre, cl) + (if st.Use? then {st.group} else {}) &&
      NzMap(post, cl) == (if st.Use? then NzMap(pre, cl)[st.name := NonZeroShare(c.cov)] else NzMap(pre, cl)) &&
      forall g :: Members(post, cl, g) == Members(pre, cl, g) + (if st.Use? && st.group == g then [c.cov] else [])
  {
    assert (pre + [c])[..|pre|] == pre;
  }

  /** A skipped sample leaves the state as it is. */
  lemma AccumulateSkip(pre: seq<SampleCoverage>, c: SampleCoverage, cl: string -> Step, seeded: set<string>,
    sums: map<string, seq<int>>, nz: map<string, real>, n: nat)
    requires Accumulated(pre, cl, seeded, sums, nz, n) && cl(c.sample).Skip?
    ensures Accumulated(pre + [c], cl, seeded, sums, nz, n)
  {
    Snoc(pre, c, cl);
    var post := pre + [c];
    assert UsedGroups(post, cl) == UsedGroups(pre, cl) + {} == UsedGroups(pre, cl);
    assert NzMap(post, cl) == NzMap(pre, cl);
    assert Used(post, cl) == Used(pre, cl) + 0;
    forall g | g in sums ensures IsTotal(sums[g], Members(post, cl, g)) {
      assert Members(post, cl, g) == Members(pre, cl, g) + [];
      assert Members(pre, cl, g) + [] == Members(pre, cl, g);
    }
  }

  /** A used sample's coverage is added into its group and its share
      recorded under its name. */
  lemma AccumulateUse(pre: seq<SampleCoverage>, c: SampleCoverage, cl: string -> Step, seeded: set<string>,
    sums: map<string, seq<int>>, nz: map<string, real>, n: nat, prev: seq<int>, added: seq<int>)
    requires Accumulated(pre, cl, seeded, sums, nz, n) && cl(c.sample).Use?
    requires prev == (if cl(c.sample).group in sums then sums[cl(c.sample).group] else [])
    requires IsPadSum(added, prev, c.cov)
    ensures Accumulated(pre + [c], cl, seeded, sums[cl(c.sample).group := added],
      nz[cl(c.sample).name := NonZeroShare(c.cov)], n + 1)
  {
    Snoc(pre, c, cl);
    var post := pre + [c];
    var g0 := cl(c.sample).group;
    if g0 !in sums {
      MembersOutside(pre, cl, g0);
    }
    assert IsTotal(prev, Members(pre, cl, g0));
    TotalSnoc(prev, Members(pre, cl, g0), c.cov, added);
    var sums' := sums[g0 := added];
    forall g | g in sums' ensures IsTotal(sums'[g], Members(post, cl, g)) {
      if g != g0 {
        assert Members(post, cl, g) == Members(pre, cl, g) + [];
        assert Members(pre, cl, g) + [] == Members(pre, cl, g);
      }
    }
  }

  /** The first loop of main over one species, for the step function `cl` of
      a batch and the groups `seeded` before it: skipped samples are left
      out, each used sample's coverage is added into its group's sum and its
      non-zero share recorded, and the used samples counted. */
  method Accumulate(covs: seq<SampleCoverage>, cl: string -> Step, seeded: set<string>)
    returns (r: Result<(map<string, seq<int>>, map<string, real>, nat), FileError>)
    ensures r.Err? <==> FirstFail(covs, cl).Some?
    ensures r.Err? ==> r.error == FirstFail(covs, cl).value
    ensures r.Ok? ==> Accumulated(covs, cl, seeded, r.value.0, r.value.1, r.value.2)
  {
    var sums: map<string, seq<int>> := map g | g in seeded :: [];
    var nz: map<string, real> := map[];
    var n := 0;
    var i := 0;
    while i < |covs|
      invariant 0 <= i <= |covs| && Accumulated(covs[..i], cl, seeded, sums, nz, n)
    {
      assert covs[..i + 1] == covs[..i] + [covs[i]];
      var st := cl(covs[i].sample);
      if st.Fail? {
        Snoc(covs[..i], covs[i], cl);
        FirstFailExtends(covs, cl, i + 1);
        return Err(st.error);
      }
      if st.Use? {
        var g := st.group;
        var prev := if g in sums then sums[g] else [];
        var added := Add(prev, covs[i].cov);
        var share := NonZeroRatio(covs[i].cov);
        AccumulateUse(covs[..i], covs[i], cl, seeded, sums, nz, n, prev, added);
        sums := sums[g := added];
        nz := nz[st.name := share];
        n := n + 1;
      } else {
        AccumulateSkip(covs[..i], covs[i], cl, seeded, sums, nz, n);
      }
      i := i + 1;
    }
    assert covs[..i] == covs;
    r := Ok((sums, nz, n));
  }

  /** One sum divided element by element by the number of samples with
      gnum.Idiv, here the parameter `idiv`. */
  method DivideSlice(v: seq<int>, n: int, idiv: (int, int) -> int) returns (w: seq<int>)
    ensures |w| == |v| && forall i :: 0 <= i < |v| ==> w[i] == idiv(v[i], n)
  {
    w := v;
    var i := 0;
    while i < |w|
      invariant 0 <= i <= |w| == |v|
      invariant forall k :: 0 <= k < |v| ==> w[k] == (if k < i then idiv(v[k], n) else v[k])
    {
      w := w[i := idiv(w[i], n)];
      i := i + 1;
    }
  }

  /** The division loop of main over every group. */
  method Divide(sums: map<string, seq<int>>, n: int, idiv: (int, int) -> int) returns (r: map<string, seq<int>>)
    ensures r.Keys == sums.Keys
    ensures forall g :: g in sums ==> |r[g]| == |sums[g]| && forall i :: 0 <= i < |sums[g]| ==> r[g][i] == idiv(sums[g][i], n)
  {
    r := sums;
    var todo := sums.Keys;
    while todo != {}
      invariant todo <= sums.Keys && r.Keys == sums.Keys
      invariant forall g :: g in todo ==> r[g] == sums[g]
      invariant forall g :: g in sums.Keys - todo ==>
        |r[g]| == |sums[g]| && forall i :: 0 <= i < |sums[g]| ==> r[g][i] == idiv(sums[g][i], n)
      decreases |todo|
    {
      var g :| g in todo;
      var w := DivideSlice(sums[g], n, idiv);
      r := r[g := w];
      todo := todo - {g};
    }
  }

  /** The mean coverage of group g in the result: element i is idiv of the
      group's total at i by the number of samples, zero-padded to `width`,
      or nothing when the group's total is empty. */
  predicate IsGroupMean(v: seq<int>, vs: seq<seq<int>>, n: nat, idiv: (int, int) -> int, width: nat) {
    if MaxLen(vs) == 0 then v == []
    else |v| == width && forall i :: 0 <= i < width ==> v[i] == (if i < MaxLen(vs) then idiv(Total(vs, i), n) else 0)
  }

  datatype Summary = Summary(covs: map<string, seq<int>>, nz: map<string, real>, samples: nat)

  /** `width` is the longest total coverage among the groups: no group's
      members reach past it, and some group's reach it unless it is 0. */
  ghost predicate WidthOf(covs: seq<SampleCoverage>, cl: string -> Step, groups: set<string>, width: nat) {
    (forall g :: g in groups ==> MaxLen(Members(covs, cl, g)) <= width) &&
    (width == 0 || exists g :: g in groups && MaxLen(Members(covs, cl, g)) == width)
  }

  /** The body of main for one species: accumulate, divide by the number of
      samples, check that batch 1 has its four groups, and equalize the
      lengths. The result is what main writes to the .covs.json and .nz.json
      files. */
  method Summarize(covs: seq<SampleCoverage>, batch: int, idiv: (int, int) -> int)
    returns (r: Result<Summary, FileError>, ghost width: nat)
    requires batch == 1 || batch == 2
    ensures var cl := Classifier(batch);
      (r.Err? <==> FirstFail(covs, cl).Some?) &&
      (r.Err? ==> r.error == FirstFail(covs, cl).value)
    ensures var cl := Classifier(batch);
      r.Ok? ==> (r.value.covs.Keys == Seeded(batch) + UsedGroups(covs, cl) &&
        r.value.nz == NzMap(covs, cl) && r.value.samples == Used(covs, cl))
    ensures var cl := Classifier(batch);
      r.Ok? ==> (forall g :: g in r.value.covs ==>
        IsGroupMean(r.value.covs[g], Members(covs, cl, g), r.value.samples, idiv, width))
    ensures r.Ok? ==> WidthOf(covs, Classifier(batch), r.value.covs.Keys, width)
    ensures r.Ok? ==> WellFormed(r.value, batch)
  {
    var cl := Classifier(batch);
    var acc := Accumulate(covs, cl, Seeded(batch));
    if acc.Err? {
      return Err(acc.error), 0;
    }
    var (sums, nz, n) := acc.value;
    var divided := Divide(sums, n, idiv);
    if batch == 1 {
      Batch1Groups(covs);
    }
    if batch == 1 && |divided| != 4 {
      // The length check of main: Batch1Groups shows it never fails.
      assert false;
    }
    var equal;
    equal, width := EqualizeLens(divided);
    forall g | g in divided ensures |divided[g]| == MaxLen(Members(covs, cl, g)) {
      var vs := Members(covs, cl, g);
      assert |divided[g]| == MaxLen(vs);
    }
    forall g | g in equal ensures IsGroupMean(equal[g], Members(covs, cl, g), n, idiv, width) {
      var vs := Members(covs, cl, g);
      assert |divided[g]| == MaxLen(vs);
      if MaxLen(vs) > 0 {
        forall i | 0 <= i < width ensures equal[g][i] == (if i < MaxLen(vs) then idiv(Total(vs, i), n) else 0) {
          if i < MaxLen(vs) {
            assert equal[g][..|divided[g]|][i] == divided[g][i];
          }
        }
      }
    }
    NzMapBounds(covs, cl);
    r := Ok(Summary(equal, nz, n));
  }

  /** What every written summary satisfies: batch 1 has the four luna
      groups, the non-empty mean coverages share one length, and every
      non-zero share lies between 0 and 1. */
  predicate WellFormed(s: Summary, batch: int) {
    (batch == 1 ==> |s.covs| == 4) &&
    (forall g, h :: g in s.covs && h in s.covs && s.covs[g] != [] && s.covs[h] != [] ==> |s.covs[g]| == |s.covs[h]|) &&
    (forall k :: k in s.nz ==> 0.0 <= s.nz[k] <= 1.0)
  }

  /** `covs` is one order in which iterSpecies can yield the samples of
      `files`: each one-species file's coverage exactly once. */
  ghost predicate SpeciesCovs(files: map<string, string>, read: string -> Option<map<string, seq<int>>>, covs: seq<SampleCoverage>) {
    (forall s :: s in files ==> Readable(read, files[s])) &&
    (forall k :: 0 <= k < |covs| ==>
      (covs[k].sample in files && |read(files[covs[k].sample]).value| == 1 && covs[k].cov in read(files[covs[k].sample]).value.Values)) &&
    (forall s :: s in files && |read(files[s]).value| == 1 ==> exists k :: 0 <= k < |covs| && covs[k].sample == s) &&
    (forall a, b :: 0 <= a < b < |covs| ==> covs[a].sample != covs[b].sample)
  }

  /** The width is fixed by the groups: two widths of the same groups agree. */
  lemma WidthUnique(covs: seq<SampleCoverage>, cl: string -> Step, groups: set<string>, w1: nat, w2: nat)
    requires WidthOf(covs, cl, groups, w1) && WidthOf(covs, cl, groups, w2)
    ensures w1 == w2
  {
  }

  /** `s` is what Summarize gives for `covs`: the groups seeded and used,
      the shares, the number of samples and every group's mean, zero-padded
      to `width`, the longest group's length. */
  ghost predicate SummaryOf(covs: seq<SampleCoverage>, seeded: set<string>, cl: string -> Step,
                            idiv: (int, int) -> int, width: nat, s: Summary)
  {
    s.covs.Keys == seeded + UsedGroups(covs, cl) && s.nz == NzMap(covs, cl) && s.samples == Used(covs, cl) &&
    WidthOf(covs, cl, s.covs.Keys, width) &&
    forall g :: g in s.covs ==> IsGroupMean(s.covs[g], Members(covs, cl, g), s.samples, idiv, width)
  }

  /** `s` is the summary of the species whose sample files are `files`. */
  ghost predicate SpeciesSummary(files: map<string, string>, read: string -> Option<map<string, seq<int>>>,
                                 seeded: set<string>, cl: string -> Step, idiv: (int, int) -> int, s: Summary)
  {
    exists covs, width: nat :: SpeciesCovs(files, read, covs) && SummaryOf(covs, seeded, cl, idiv, width, s)
  }

  /** `e` is an error the species whose sample files are `files` can stop
      with: a file that stops iterSpecies, or the first sample whose name
      does not classify. */
  ghost predicate SpeciesError(files: map<string, string>, read: string -> Option<map<string, seq<int>>>,
                               cl: string -> Step, e: FileError)
  {
    (exists s :: s in files && Stops(read, files[s], e)) ||
    (exists covs :: SpeciesCovs(files, read, covs) && FirstFail(covs, cl) == Some(e))
  }

  /** One species of main: its samples read and summarized. The ghost
      results are the coverages iterSpecies yielded and the common width. */
  method Species(files: map<string, string>, read: string -> Option<map<string, seq<int>>>, batch: int, idiv: (int, int) -> int)
    returns (r: Result<Summary, FileError>, ghost covs: seq<SampleCoverage>, ghost width: nat)
    requires batch == 1 || batch == 2
    ensures (forall s :: s in files ==> Readable(read, files[s])) ==> r.Ok? || (batch == 1 && r.error.BadSampleName?)
    ensures r.Ok? ==> WellFormed(r.value, batch)
    ensures r.Ok? ==> SpeciesCovs(files, read, covs) && SummaryOf(covs, Seeded(batch), Classifier(batch), idiv, width, r.value)
    ensures r.Err? ==> SpeciesError(files, read, Classifier(batch), r.error)
  {
    var it := IterSpecies(files, read);
    if it.Err? {
      return Err(it.error), [], 0;
    }
    covs := it.value;
    assert SpeciesCovs(files, read, covs);
    r, width := Summarize(it.value, batch, idiv);
    if batch == 1 {
      Batch1Fail(it.value);
    } else {
      Batch2NoFail(it.value);
    }
  }

  /** Every species in `out` holds a well-formed summary of its files. */
  ghost predicate Summaries(files: map<string, map<string, string>>, read: string -> Option<map<string, seq<int>>>,
                            batch: int, cl: string -> Step, idiv: (int, int) -> int, out: map<string, Summary>)
  {
    forall sp :: sp in out ==>
      (sp in files && WellFormed(out[sp], batch) && SpeciesSummary(files[sp], read, Seeded(batch), cl, idiv, out[sp]))
  }

  /** Summaries, with the coverages and the width of every species given. */
  ghost predicate SummariesBy(files: map<string, map<string, string>>, read: string -> Option<map<string, seq<int>>>,
                              batch: int, cl: string -> Step, idiv: (int, int) -> int, out: map<string, Summary>,
                              used: map<string, seq<SampleCoverage>>, widths: map<string, nat>)
  {
    forall sp {:trigger widths[sp]} :: sp in out ==>
      (sp in files && sp in used && sp in widths && WellFormed(out[sp], batch) &&
       SpeciesCovs(files[sp], read, used[sp]) && SummaryOf(used[sp], Seeded(batch), cl, idiv, widths[sp], out[sp]))
  }

  lemma SummariesByAdd(files: map<string, map<string, string>>, read: string -> Option<map<string, seq<int>>>,
                       batch: int, cl: string -> Step, idiv: (int, int) -> int, out: map<string, Summary>,
                       used: map<string, seq<SampleCoverage>>, widths: map<string, nat>,
                       sp: string, s: Summary, covs: seq<SampleCoverage>, width: nat)
    requires SummariesBy(files, read, batch, cl, idiv, out, used, widths)
    requires sp in files && WellFormed(s, batch)
    requires SpeciesCovs(files[sp], read, covs) && SummaryOf(covs, Seeded(batch), cl, idiv, width, s)
    ensures SummariesBy(files, read, batch, cl, idiv, out[sp := s], used[sp := covs], widths[sp := width])
  {
    var out', used', widths' := out[sp := s], used[sp := covs], widths[sp := width];
    forall t | t in out'
      ensures t in files && t in used' && t in widths' && WellFormed(out'[t], batch)
      ensures SpeciesCovs(files[t], read, used'[t]) && SummaryOf(used'[t], Seeded(batch), cl, idiv, widths'[t], out'[t])
    {
      if t == sp {
        assert out'[t] == s && used'[t] == covs && widths'[t] == width;
      } else {
        assert t in widths;
        assert out'[t] == out[t] && used'[t] == used[t] && widths'[t] == widths[t];
      }
    }
  }

  lemma SummariesByWitness(files: map<string, map<string, string>>, read: string -> Option<map<string, seq<int>>>,
                           batch: int, cl: string -> Step, idiv: (int, int) -> int, out: map<string, Summary>,
                           used: map<string, seq<SampleCoverage>>, widths: map<string, nat>)
    requires SummariesBy(files, read, batch, cl, idiv, out, used, widths)
    ensures Summaries(files, read, batch, cl, idiv, out)
  {
    forall sp | sp in out
      ensures SpeciesSummary(files[sp], read, Seeded(batch), cl, idiv, out[sp])
    {
      assert SpeciesCovs(files[sp], read, used[sp]) && SummaryOf(used[sp], Seeded(batch), cl, idiv, widths[sp], out[sp]);
    }
  }

  /** One turn of the species loop of main: species `sp` is summarized and,
      when that succeeds, added to `out`. */
  method AddSpecies(files: map<string, map<string, string>>, read: string -> Option<map<string, seq<int>>>,
                    batch: int, idiv: (int, int) -> int, sp: string, out: map<string, Summary>,
                    ghost cl: string -> Step, ghost used: map<string, seq<SampleCoverage>>, ghost widths: map<string, nat>)
    returns (sum: Result<Summary, FileError>, ghost used': map<string, seq<SampleCoverage>>, ghost widths': map<string, nat>)
    requires batch == 1 || batch == 2
    requires cl == Classifier(batch)
    requires sp in files && SummariesBy(files, read, batch, Classifier(batch), idiv, out, used, widths)
    ensures sum.Ok? ==> SummariesBy(files, read, batch, Classifier(batch), idiv, out[sp := sum.value], used', widths')
    ensures sum.Err? ==> SpeciesError(files[sp], read, Classifier(batch), sum.error) && used' == used && widths' == widths
  {
    ghost var covs, width;
    sum, covs, width := Species(files[sp], read, batch, idiv);
    used', widths' := used, widths;
    if sum.Ok? {
      SummariesByAdd(files, read, batch, Classifier(batch), idiv, out, used, widths, sp, sum.value, covs, width);
      used', widths' := used[sp := covs], widths[sp := width];
    }
  }

  /** The species loop of main over the sorted files: each species, in map
      order (here any order), is read and summarized, and the first error
      stops the loop; `out` holds the species written before it. */
  method AllSpecies(files: map<string, map<string, string>>, read: string -> Option<map<string, seq<int>>>,
                    batch: int, idiv: (int, int) -> int, ghost cl: string -> Step)
    returns (out: map<string, Summary>, err: Option<FileError>,
             ghost used: map<string, seq<SampleCoverage>>, ghost widths: map<string, nat>)
    requires batch == 1 || batch == 2
    requires cl == Classifier(batch)
    ensures out.Keys <= files.Keys
    ensures err.None? ==> out.Keys == files.Keys
    ensures SummariesBy(files, read, batch, cl, idiv, out, used, widths)
    ensures err.Some? ==> exists sp :: (sp in files && sp !in out && SpeciesError(files[sp], read, cl, err.value))
  {
    out := map[];
    used, widths := map[], map[];
    var todo := files.Keys;
    while todo != {}
      invariant todo <= files.Keys && out.Keys == files.Keys - todo
      invariant SummariesBy(files, read, batch, cl, idiv, out, used, widths)
      decreases |todo|
    {
      var sp :| sp in todo;
      var sum;
      sum, used, widths := AddSpecies(files, read, batch, idiv, sp, out, cl, used, widths);
      if sum.Err? {
        return out, Some(sum.error), used, widths;
      }
      out := out[sp := sum.value];
      todo := todo - {sp};
    }
    err := None;
  }

  /** main: the files are sorted by species and sample, then every species
      is summarized by the species loop. The ghost results give, for every
      species written, the coverages its files yielded and its width. */
  method Run(paths: seq<string>, read: string -> Option<map<string, seq<int>>>, batch: int, idiv: (int, int) -> int)
    returns (out: map<string, Summary>, err: Option<FileError>,
             ghost used: map<string, seq<SampleCoverage>>, ghost widths: map<string, nat>)
    requires batch == 1 || batch == 2
    ensures !(paths != [] && AllMatch(paths, CovPair)) ==> err.Some? && out == map[]
    ensures paths != [] && AllMatch(paths, CovPair) ==> out.Keys <= Collect(paths, CovPair).Keys
    ensures err.None? ==> paths != [] && AllMatch(paths, CovPair) && out.Keys == Collect(paths, CovPair).Keys
    ensures paths != [] && AllMatch(paths, CovPair) ==>
      SummariesBy(Collect(paths, CovPair), read, batch, Classifier(batch), idiv, out, used, widths)
    ensures err.Some? && paths != [] && AllMatch(paths, CovPair) ==>
      exists sp :: (sp in Collect(paths, CovPair) && sp !in out &&
        SpeciesError(Collect(paths, CovPair)[sp], read, Classifier(batch), err.value))
  {
    var sorted := SortFiles(paths);
    if sorted.Err? {
      return map[], Some(sorted.error), map[], map[];
    }
    out, err, used, widths := AllSpecies(sorted.value, read, batch, idiv, Classifier(batch));
  }


}
