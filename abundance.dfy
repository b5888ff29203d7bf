/**
 * Abundance tables (abundance.py): one row per sample, one column per taxon,
 * built from per-sample JSON maps of read counts. Missing taxa count 0, rows
 * are sorted by sample name and columns by decreasing total; spike-in
 * columns can be dropped (optionally folded into a residual column),
 * "species,phylum" labels can be regrouped by phylum, empty samples can be
 * dropped, and each row can be divided by its sum. Cells are reals; the
 * floating-point rounding of pandas is not modelled.
 */
module Abundance {
  import opened Wrappers
  import opened Strs
  import opened Seqs
  import opened Frames
  import opened Common
  import SampleNaming

  /** Spike-in taxa: RefSeq accessions, kraken tax IDs and names. */
  const SpikeTaxa: seq<string> := [
    "NC_003045", "NC_006213", "NC_001405", "NC_001454", "NC_001401",
    "694003", "129951", "130309", "2955291", "1986019", "130310",
    "Bovine coronavirus", "Human coronavirus OC43",
    "Betacoronavirus 1", "Rabbit coronavirus HKU14",
    "Betacoronavirus",
    "Human adenovirus 1", "Human mastadenovirus A", "Human mastadenovirus B",
    "Human mastadenovirus C", "Human mastadenovirus D", "Human mastadenovirus E",
    "Human mastadenovirus F", "Human mastadenovirus G", "Simian mastadenovirus B",
    "Simian mastadenovirus C", "Simian mastadenovirus F", "adeno-associated virus 2",
    "Mastadenovirus",
    "Alphainfluenzavirus influenzae"
  ]

  // ---------------------------------------------------------------------
  // Names

  /** The suffixes clean_file_name strips, in order. */
  const CleanSuffixes: seq<string> := [".json", ".vir", ".gen"]

  /** clean_file_name: the base name with ".json", ".vir" and ".gen" each
      removed at most once, in that order. */
  function CleanFileName(path: string): (name: string)
    ensures HasPrefix(PyBasename(path), name)
  {
    TrimSuffixes(PyBasename(path), CleanSuffixes)
  }

  /** The suffixes are stripped in one pass and in order: ".gen.vir" loses
      both, ".vir.gen" only ".gen". */
  lemma CleanFileNameOrder()
    ensures TrimSuffixes("s1.gen.vir.json", CleanSuffixes) == "s1"
    ensures TrimSuffixes("s1.vir.gen", CleanSuffixes) == "s1.vir"
  {
    assert TrimSuffix("s1.gen.vir.json", ".json") == "s1.gen.vir";
    assert TrimSuffix("s1.gen.vir", ".vir") == "s1.gen";
    assert TrimSuffix("s1.gen", ".gen") == "s1";
    assert CleanSuffixes[1..][1..] == [".gen"];
    assert !HasSuffix("s1.vir.gen", ".json");
    assert !HasSuffix("s1.vir.gen", ".vir");
    assert TrimSuffix("s1.vir.gen", ".gen") == "s1.vir";
  }

  /** The per-sample files dir/s.json, dir/s.vir.json, dir/s.gen.json and
      dir/s.gen.vir.json all give back the sample name s. */
  lemma CleanFileNameOfInputs(dir: string, s: string, tag: string)
    requires '/' !in s && '.' !in s && tag in ["", ".vir", ".gen", ".gen.vir"]
    ensures CleanFileName(dir + "/" + s + tag + ".json") == s
  {
    var t := JoinedBase(dir, s, tag);
    Unfold3(t + ".json", ".json", ".vir", ".gen");
    TrimOff(t, ".json");
    TrimTags(s, tag);
  }

  /** Removing ".vir" and then ".gen" from a dot-free name with one of
      these tags gives the name. */
  lemma TrimTags(s: string, tag: string)
    requires '.' !in s && tag in ["", ".vir", ".gen", ".gen.vir"]
    ensures TrimSuffix(TrimSuffix(s + tag, ".vir"), ".gen") == s
  {
    if tag == "" {
      assert s + tag == s;
      NoDots(s, ".vir");
      NoDots(s, ".gen");
    } else if tag == ".vir" {
      TrimOff(s, ".vir");
      NoDots(s, ".gen");
    } else if tag == ".gen" {
      LastDiffers(s + tag, ".vir");
      TrimOff(s, ".gen");
    } else {
      assert s + tag == s + ".gen" + ".vir";
      TrimOff(s + ".gen", ".vir");
      TrimOff(s, ".gen");
    }
  }

  /** The tables by tax ID, phylum, "viror", all species and all genera
      keep their tag: dir/s.tid.json gives "s.tid", and so on. */
  lemma CleanFileNameKeepsTag(dir: string, s: string, tag: string)
    requires '/' !in s && '.' !in s && tag in [".tid", ".phy", ".viror", ".allsp", ".allgen"]
    ensures CleanFileName(dir + "/" + s + tag + ".json") == s + tag
  {
    var t := JoinedBase(dir, s, tag);
    Unfold3(t + ".json", ".json", ".vir", ".gen");
    TrimOff(t, ".json");
    KeepTag(s, tag);
  }

  /** Neither ".vir" nor ".gen" ends a dot-free name with one of these tags. */
  lemma KeepTag(s: string, tag: string)
    requires '.' !in s && tag in [".tid", ".phy", ".viror", ".allsp", ".allgen"]
    ensures !HasSuffix(s + tag, ".vir") && !HasSuffix(s + tag, ".gen")
  {
    var t := s + tag;
    if tag in [".tid", ".phy"] {
      LastDiffers(t, ".vir");
      LastDiffers(t, ".gen");
    } else {
      assert forall i :: 0 <= i < |t| && t[i] == '.' ==> i + 4 < |t|;
      NoDotNoSuffix(t, ".vir");
      NoDotNoSuffix(t, ".gen");
    }
  }

  /** The base name of dir/s + tag + ".json" is s + tag + ".json". */
  lemma JoinedBase(dir: string, s: string, tag: string) returns (t: string)
    requires '/' !in s && '/' !in tag
    ensures t == s + tag && PyBasename(dir + "/" + s + tag + ".json") == t + ".json"
  {
    t := s + tag;
    assert dir + "/" + s + tag + ".json" == dir + "/" + (t + ".json");
    assert '/' !in t + ".json";
    AfterLastSlashOf(dir, t + ".json");
  }

  /** A dot-free name does not end with a suffix that starts with '.'. */
  lemma NoDots(s: string, suffix: string)
    requires '.' !in s && |suffix| > 0 && suffix[0] == '.'
    ensures !HasSuffix(s, suffix)
  {
    NoDotNoSuffix(s, suffix);
  }

  // ---------------------------------------------------------------------
  // Building and sorting the table

  /** The value of taxon `k` in a sample's map, 0 when missing (the NaN
      replaced by 0). */
  function Count(m: map<string, real>, k: string): real {
    if k in m then m[k] else 0.0
  }

  /** All taxa of all samples. */
  function AllTaxa(recs: seq<map<string, real>>): set<string> {
    set i, k | 0 <= i < |recs| && k in recs[i] :: k
  }

  /** pd.DataFrame(jsons) with the names as index and NaN replaced by 0,
      over the column order `cols`. */
  function FromRecords(names: seq<string>, recs: seq<map<string, real>>, cols: seq<string>): (f: Frame<real>)
    requires |names| == |recs|
    ensures Valid(f) && f.index == names && f.columns == cols
    ensures forall i, j :: 0 <= i < |names| && 0 <= j < |cols| ==> f.data[i][j] == Count(recs[i], cols[j])
  {
    Frame(names, cols, seq(|recs|, i requires 0 <= i < |recs| =>
      seq(|cols|, j requires 0 <= j < |cols| => Count(recs[i], cols[j]))))
  }

  /** sort_index: the rows ordered by label. */
  function SortIndex(f: Frame<real>): Frame<real>
    requires Valid(f)
  {
    var p := RowsByLabel(f);
    RowsByLabelSpec(f);
    PermutationFacts(p, |f.index|);
    SelectRows(f, p)
  }

  /** sort_index is a permutation of the rows, each row keeping its label and
      cells, and the labels end up in order. */
  lemma SortIndexSpec(f: Frame<real>)
    requires Valid(f)
    ensures var p := RowsByLabel(f);
      var r := SortIndex(f);
      IsPermutation(p, |f.index|) && Valid(r) && r.columns == f.columns &&
      (forall c :: 0 <= c < |p| ==> p[c] < |f.index| && r.index[c] == f.index[p[c]] && r.data[c] == f.data[p[c]]) &&
      SortedBy(r.index, StrLe)
  {
    var p := RowsByLabel(f);
    RowsByLabelSpec(f);
    PermutationFacts(p, |f.index|);
  }

  /** sort_columns: the columns ordered by decreasing total (df.reindex). */
  function SortColumns(f: Frame<real>): Frame<real>
    requires Valid(f)
  {
    var p := ColumnsBySum(f);
    ColumnsBySumSpec(f);
    PermutationFacts(p, |f.columns|);
    SelectColumns(f, p)
  }

  /** sort_columns permutes the columns, keeps every column's cells, and the
      column totals do not increase from left to right. */
  lemma SortColumnsSpec(f: Frame<real>)
    requires Valid(f)
    ensures var p := ColumnsBySum(f);
      var r := SortColumns(f);
      IsPermutation(p, |f.columns|) && Valid(r) && r.index == f.index && |r.columns| == |f.columns| &&
      (forall c :: 0 <= c < |p| ==> p[c] < |f.columns| && r.columns[c] == f.columns[p[c]]) &&
      (forall i, c :: 0 <= i < |f.data| && 0 <= c < |p| ==> p[c] < |f.columns| && r.data[i][c] == f.data[i][p[c]]) &&
      (forall j, k :: 0 <= j < k < |r.columns| ==> ColumnSum(r, j) >= ColumnSum(r, k))
  {
    var p := ColumnsBySum(f);
    ColumnsBySumSpec(f);
    PermutationFacts(p, |f.columns|);
    var r := SortColumns(f);
    forall j, k | 0 <= j < k < |r.columns| ensures ColumnSum(r, j) >= ColumnSum(r, k) {
      SelectedColumnSum(f, p, j);
      SelectedColumnSum(f, p, k);
    }
  }

  /** Distinct column labels stay distinct when the columns are sorted. */
  lemma SortColumnsDistinct(f: Frame<real>)
    requires Valid(f) && NoDuplicates(f.columns)
    ensures NoDuplicates(SortColumns(f).columns)
  {
    var p := ColumnsBySum(f);
    ColumnsBySumSpec(f);
    PermutationFacts(p, |f.columns|);
  }

  /** sort_columns keeps the set of labels. */
  lemma SortColumnsElems(f: Frame<real>)
    requires Valid(f)
    ensures Elems(SortColumns(f).columns) == Elems(f.columns)
  {
    var r := SortColumns(f);
    var q := ColumnsBySum(f);
    SortColumnsSpec(f);
    forall x | x in Elems(f.columns) ensures x in Elems(r.columns) {
      var j :| 0 <= j < |f.columns| && f.columns[j] == x;
      PermutationHits(q, |f.columns|, j);
      var k :| 0 <= k < |q| && q[k] == j;
      assert r.columns[k] == x;
    }
  }

  // ---------------------------------------------------------------------
  // Phylum labels

  datatype LoadError =
    | FileCount(expected: nat, got: nat)
    | BadName(err: SampleNaming.NameError)
    | BadLabel(name: string, parts: nat)
    | DuplicateLabels
    | MissingColumn(column: string)
    | KeepUnbound

  /** Phylum mode: every label "species,phylum" must split on ',' into
      exactly two parts; the first parts become the labels and the second
      parts are kept. The first label that does not split so is an error. */
  method SplitLabels(cols: seq<string>) returns (r: Result<(seq<string>, seq<string>), LoadError>)
    ensures r.Ok? <==> forall j :: 0 <= j < |cols| ==> |Split(cols[j], ",")| == 2
    ensures r.Err? ==>
      (exists j :: 0 <= j < |cols| && |Split(cols[j], ",")| != 2 && r.error == BadLabel(cols[j], |Split(cols[j], ",")|))
    ensures r.Ok? ==> var (spc, phy) := r.value;
      |spc| == |cols| && |phy| == |cols| &&
      forall j :: 0 <= j < |cols| ==> cols[j] == spc[j] + "," + phy[j] && Split(cols[j], ",") == [spc[j], phy[j]]
  {
    var spc: seq<string> := [];
    var phy: seq<string> := [];
    var j := 0;
    while j < |cols|
      invariant 0 <= j <= |cols| && |spc| == j && |phy| == j
      invariant forall t :: 0 <= t < j ==> |Split(cols[t], ",")| == 2
      invariant forall t :: 0 <= t < j ==> cols[t] == spc[t] + "," + phy[t] && Split(cols[t], ",") == [spc[t], phy[t]]
    {
      var parts := Split(cols[j], ",");
      if |parts| != 2 {
        return Err(BadLabel(cols[j], |parts|));
      }
      JoinSplit(cols[j], ",");
      assert parts == [parts[0], parts[1]];
      JoinCons(parts[0], [parts[1]], ",");
      spc := spc + [parts[0]];
      phy := phy + [parts[1]];
      j := j + 1;
    }
    return Ok((spc, phy));
  }

  // ---------------------------------------------------------------------
  // Spike removal

  /** The remove_spike argument: a flag, or the label of a residual column. */
  datatype SpikeOption = Flag(on: bool) | Into(column: string)

  /** Python truthiness of remove_spike. */
  predicate Truthy(o: SpikeOption) {
    if o.Flag? then o.on else o.column != ""
  }

  /** Some spike taxon is a column. */
  predicate HasSpike(cols: seq<string>, spike: seq<string>) {
    exists x :: x in spike && x in cols
  }

  /** Taxa none of which is a column sum to nothing. */
  lemma {:induction false} NoSpikeTotal(f: Frame<real>, i: nat, taxa: seq<string>)
    requires Valid(f) && i < |f.data| && !HasSpike(f.columns, taxa)
    ensures SpikeTotal(f, i, taxa) == 0.0
  {
    if taxa != [] {
      var init := taxa[..|taxa| - 1];
      assert !HasSpike(f.columns, init) by {
        forall x | x in init ensures x !in f.columns {
          assert x in taxa;
        }
      }
      assert taxa[|taxa| - 1] in taxa;
      NoSpikeTotal(f, i, init);
    }
  }

  /** The cells of row `i` in the columns of `taxa` that exist, summed. */
  function SpikeTotal(f: Frame<real>, i: nat, taxa: seq<string>): real
    requires Valid(f) && i < |f.data|
  {
    if taxa == [] then 0.0
    else
      var x := taxa[|taxa| - 1];
      SpikeTotal(f, i, taxa[..|taxa| - 1]) + (if x in f.columns then f.data[i][IndexOf(f.columns, x)] else 0.0)
  }

  /** The keep mask: false exactly at the spike columns. */
  function NotSpike(cols: seq<string>, spike: seq<string>): (keep: seq<bool>)
    ensures |keep| == |cols| && forall j :: 0 <= j < |cols| ==> keep[j] == (cols[j] !in spike)
  {
    seq(|cols|, j requires 0 <= j < |cols| => cols[j] !in spike)
  }

  /** `x` labels at most one column. */
  predicate AtMostOnce(cols: seq<string>, x: string) {
    multiset(cols)[x] <= 1
  }

  /** A label that occurs at most once is at its first position. */
  lemma OnlyPosition(cols: seq<string>, x: string, j: nat)
    requires AtMostOnce(cols, x) && j < |cols| && cols[j] == x
    ensures j == IndexOf(cols, x)
  {
    var k := IndexOf(cols, x);
    if k < j {
      RepeatedMultiplicity(cols, k, j);
    } else if j < k {
      RepeatedMultiplicity(cols, j, k);
    }
  }

  /** Distinct labels each label at most one column. */
  lemma DistinctAtMostOnce(cols: seq<string>)
    requires NoDuplicates(cols)
    ensures forall x :: AtMostOnce(cols, x)
  {
    forall x ensures AtMostOnce(cols, x) {
      DistinctMultiplicity(cols, x);
    }
  }

  /** Column `src` added into column `dst`, in every row. */
  function AddInto(data: seq<seq<real>>, dst: nat, src: nat): (d: seq<seq<real>>)
    requires forall i :: 0 <= i < |data| ==> dst < |data[i]| && src < |data[i]|
    ensures |d| == |data|
    ensures forall i :: 0 <= i < |d| ==> d[i] == data[i][dst := data[i][dst] + data[i][src]]
  {
    seq(|data|, i requires 0 <= i < |data| => data[i][dst := data[i][dst] + data[i][src]])
  }

  /** `data` holds the cells of `f` once the columns of spike[..k] have been
      added into the residual column: the other columns are untouched, and
      the residual column, when it exists and is not a spike taxon itself,
      gained their sum. */
  predicate Folded(f: Frame<real>, data: seq<seq<real>>, spike: seq<string>, opt: SpikeOption, k: nat)
    requires Valid(f) && k <= |spike|
  {
    |data| == |f.data| && (forall i :: 0 <= i < |data| ==> |data[i]| == |f.columns|) &&
    (opt.Flag? ==> data == f.data) &&
    (opt.Into? ==> forall i, j :: 0 <= i < |data| && 0 <= j < |f.columns| && f.columns[j] != opt.column ==>
      data[i][j] == f.data[i][j]) &&
    (opt.Into? && opt.column in f.columns && opt.column !in spike ==> forall i :: 0 <= i < |data| ==>
      data[i][IndexOf(f.columns, opt.column)] == f.data[i][IndexOf(f.columns, opt.column)] + SpikeTotal(f, i, spike[..k]))
  }

  /** A taxon that is not a column, or no residual column, changes no cell. */
  lemma FoldSkip(f: Frame<real>, data: seq<seq<real>>, spike: seq<string>, opt: SpikeOption, k: nat)
    requires Valid(f) && k < |spike| && Folded(f, data, spike, opt, k)
    requires spike[k] !in f.columns || opt.Flag?
    ensures Folded(f, data, spike, opt, k + 1)
  {
    assert spike[..k + 1][..k] == spike[..k];
  }

  /** A taxon that is a column is added into an existing residual column. */
  lemma FoldAdd(f: Frame<real>, data: seq<seq<real>>, spike: seq<string>, opt: SpikeOption, k: nat)
    requires Valid(f) && k < |spike| && Folded(f, data, spike, opt, k)
    requires opt.Into? && opt.column in f.columns && spike[k] in f.columns
    ensures Folded(f, AddInto(data, IndexOf(f.columns, opt.column), IndexOf(f.columns, spike[k])), spike, opt, k + 1)
  {
    var t := IndexOf(f.columns, opt.column);
    var xj := IndexOf(f.columns, spike[k]);
    var d := AddInto(data, t, xj);
    assert spike[..k + 1][..k] == spike[..k];
    forall i, j | 0 <= i < |d| && 0 <= j < |f.columns| && f.columns[j] != opt.column
      ensures d[i][j] == f.data[i][j]
    {
      assert j != t;
    }
    if opt.column !in spike {
      assert spike[k] != opt.column && xj != t;
    }
  }

  /** After the whole list, the kept columns hold the folded cells. */
  lemma FoldedCells(f: Frame<real>, data: seq<seq<real>>, spike: seq<string>, opt: SpikeOption)
    requires Valid(f) && Folded(f, data, spike, opt, |spike|)
    requires opt.Into? && HasSpike(f.columns, spike) ==> AtMostOnce(f.columns, opt.column)
    requires !HasSpike(f.columns, spike) ==> data == f.data
    ensures var ks := Where(NotSpike(f.columns, spike));
      var g := SelectColumns(Frame(f.index, f.columns, data), ks);
      forall i, c :: 0 <= i < |f.data| && 0 <= c < |ks| ==>
        g.data[i][c] == f.data[i][ks[c]] +
          (if opt.Into? && f.columns[ks[c]] == opt.column then SpikeTotal(f, i, spike) else 0.0)
  {
    var ks := Where(NotSpike(f.columns, spike));
    assert spike[..|spike|] == spike;
    if HasSpike(f.columns, spike) {
      forall c | 0 <= c < |ks| && opt.Into? && f.columns[ks[c]] == opt.column
        ensures ks[c] == IndexOf(f.columns, opt.column)
      {
        OnlyPosition(f.columns, opt.column, ks[c]);
      }
    } else {
      forall i | 0 <= i < |f.data| {
        NoSpikeTotal(f, i, spike);
      }
    }
  }

  /** The spike-removal block, over the taxa `spike` (SpikeTaxa when called
      from LoadData): for each taxon that is a column, in list order, add it
      to the residual column when one is named, and clear its keep flag; then
      keep the flagged columns. A residual column that does not exist is a
      KeyError, raised at the first spike column present. */
  method RemoveSpike(f: Frame<real>, spike: seq<string>, opt: SpikeOption) returns (r: Result<Frame<real>, LoadError>)
    requires Valid(f) && Truthy(opt)
    // a spike label or residual label that labels two columns makes get_loc
    // return several positions, which the keep list cannot be indexed with
    requires forall x :: x in spike ==> AtMostOnce(f.columns, x)
    requires opt.Into? && HasSpike(f.columns, spike) ==> AtMostOnce(f.columns, opt.column)
    ensures r.Err? <==> opt.Into? && opt.column !in f.columns && HasSpike(f.columns, spike)
    ensures r.Err? ==> r.error == MissingColumn(opt.column)
    ensures r.Ok? ==> SpikeRemoved(f, spike, opt, r.value)
  {
    var n := |f.columns|;
    var keep := seq(n, _ => true);
    assert spike[..0] == [];
    var data := f.data;
    var k := 0;
    while k < |spike|
      invariant 0 <= k <= |spike| && KeptUpTo(f.columns, spike, keep, k)
      invariant Folded(f, data, spike, opt, k)
      invariant opt.Into? && opt.column !in f.columns ==> forall x :: x in spike[..k] ==> x !in f.columns
      invariant data == f.data || HasSpike(f.columns, spike)
    {
      var x := spike[k];
      assert spike[..k + 1] == spike[..k] + [x];
      if x in f.columns {
        var xj := IndexOf(f.columns, x);
        if opt.Into? {
          if opt.column !in f.columns {
            return Err(MissingColumn(opt.column));
          }
          FoldAdd(f, data, spike, opt, k);
          assert x in spike;
          data := AddInto(data, IndexOf(f.columns, opt.column), xj);
        } else {
          FoldSkip(f, data, spike, opt, k);
        }
        KeepDrop(f.columns, spike, keep, k);
        keep := keep[xj := false];
      } else {
        FoldSkip(f, data, spike, opt, k);
        KeepAbsent(f.columns, spike, keep, k);
      }
      k := k + 1;
    }
    assert spike[..k] == spike;
    assert keep == NotSpike(f.columns, spike);
    FoldedRemoved(f, data, spike, opt);
    r := Ok(SelectColumns(Frame(f.index, f.columns, data), Where(keep)));
  }

  /** `keep` marks the columns that are none of the first `k` spikes. */
  ghost predicate KeptUpTo(cols: seq<string>, spike: seq<string>, keep: seq<bool>, k: nat)
    requires k <= |spike|
  {
    |keep| == |cols| && forall j :: 0 <= j < |cols| ==> keep[j] == (cols[j] !in spike[..k])
  }

  /** A spike that labels one column unmarks that column only. */
  lemma KeepDrop(cols: seq<string>, spike: seq<string>, keep: seq<bool>, k: nat)
    requires k < |spike| && KeptUpTo(cols, spike, keep, k)
    requires spike[k] in cols && AtMostOnce(cols, spike[k])
    ensures KeptUpTo(cols, spike, keep[IndexOf(cols, spike[k]) := false], k + 1)
  {
    assert spike[..k + 1] == spike[..k] + [spike[k]];
    forall j | 0 <= j < |cols| && cols[j] == spike[k] ensures j == IndexOf(cols, spike[k]) {
      OnlyPosition(cols, spike[k], j);
    }
  }

  /** A spike that labels no column unmarks nothing. */
  lemma KeepAbsent(cols: seq<string>, spike: seq<string>, keep: seq<bool>, k: nat)
    requires k < |spike| && KeptUpTo(cols, spike, keep, k) && spike[k] !in cols
    ensures KeptUpTo(cols, spike, keep, k + 1)
  {
    assert spike[..k + 1] == spike[..k] + [spike[k]];
  }

  /** `g` is `f` without the spike columns, each spike's counts added into
      the residual column when there is one. */
  ghost predicate SpikeRemoved(f: Frame<real>, spike: seq<string>, opt: SpikeOption, g: Frame<real>)
    requires Valid(f)
  {
    var ks := Where(NotSpike(f.columns, spike));
    Valid(g) && g.index == f.index && |g.columns| == |ks| &&
    (forall c :: 0 <= c < |ks| ==> g.columns[c] == f.columns[ks[c]]) &&
    (forall i, c :: 0 <= i < |f.data| && 0 <= c < |ks| ==>
      g.data[i][c] == f.data[i][ks[c]] +
        (if opt.Into? && f.columns[ks[c]] == opt.column then SpikeTotal(f, i, spike) else 0.0))
  }

  lemma FoldedRemoved(f: Frame<real>, data: seq<seq<real>>, spike: seq<string>, opt: SpikeOption)
    requires Valid(f) && Folded(f, data, spike, opt, |spike|)
    requires opt.Into? && HasSpike(f.columns, spike) ==> AtMostOnce(f.columns, opt.column)
    requires !HasSpike(f.columns, spike) ==> data == f.data
    ensures SpikeRemoved(f, spike, opt, SelectColumns(Frame(f.index, f.columns, data), Where(NotSpike(f.columns, spike))))
  {
    FoldedCells(f, data, spike, opt);
  }

  // ---------------------------------------------------------------------
  // Regrouping by phylum

  /** The cells of `row` whose label is `g`, summed. */
  function GroupSum(row: seq<real>, labels: seq<string>, g: string): real
    requires |row| == |labels|
  {
    if row == [] then 0.0
    else GroupSum(row[..|row| - 1], labels[..|labels| - 1], g) + (if labels[|labels| - 1] == g then row[|row| - 1] else 0.0)
  }

  /** One regrouped row: the sum of each group of `groups`. */
  function GroupRow(row: seq<real>, labels: seq<string>, groups: seq<string>): (r: seq<real>)
    requires |row| == |labels|
    ensures |r| == |groups|
  {
    seq(|groups|, k requires 0 <= k < |groups| => GroupSum(row, labels, groups[k]))
  }

  /** The distinct labels, in order of first appearance. */
  function Distinct(labels: seq<string>): (d: seq<string>)
    ensures NoDuplicates(d) && Elems(d) == Elems(labels)
  {
    if labels == [] then []
    else
      var init := labels[..|labels| - 1];
      var x := labels[|labels| - 1];
      assert labels == init + [x];
      assert Elems(labels) == Elems(init) + {x};
      if x in Distinct(init) then Distinct(init) else Distinct(init) + [x]
  }

  /** The groups of groupby(..., axis=1): the distinct labels, sorted. */
  function Groups(labels: seq<string>): seq<string> {
    Sort(Distinct(labels), StrLe)
  }

  /** df.groupby(labels, axis=1).sum(): one column per group, holding the
      sum of the columns with that label. */
  function GroupBy(f: Frame<real>, labels: seq<string>): Frame<real>
    requires Valid(f) && |labels| == |f.columns|
  {
    var groups := Groups(labels);
    Frame(f.index, groups, seq(|f.data|, i requires 0 <= i < |f.data| => GroupRow(f.data[i], labels, groups)))
  }

  /** A permutation of a sequence without duplicates has none, and the same elements. */
  lemma PermutedDistinct(a: seq<string>, b: seq<string>)
    requires multiset(a) == multiset(b) && NoDuplicates(a)
    ensures NoDuplicates(b) && Elems(b) == Elems(a)
  {
    forall x, y | 0 <= x < y < |b| ensures b[x] != b[y] {
      if b[x] == b[y] {
        RepeatedMultiplicity(b, x, y);
        DistinctMultiplicity(a, b[x]);
        assert false;
      }
    }
    forall x ensures x in Elems(b) <==> x in Elems(a) {
      assert x in b <==> x in multiset(b);
      assert x in a <==> x in multiset(a);
    }
  }

  lemma GroupSumSnoc(row: seq<real>, labels: seq<string>, v: real, x: string, g: string)
    requires |row| == |labels|
    ensures GroupSum(row + [v], labels + [x], g) == GroupSum(row, labels, g) + (if x == g then v else 0.0)
  {
    assert (row + [v])[..|row|] == row;
    assert (labels + [x])[..|labels|] == labels;
  }

  lemma RSumZero(s: seq<real>)
    requires forall k :: 0 <= k < |s| ==> s[k] == 0.0
    ensures RSum(s) == 0.0
  {
  }

  /** A new cell labelled x adds its value once for each time x is a group. */
  lemma {:induction false} GroupRowSnoc(row: seq<real>, labels: seq<string>, v: real, x: string, groups: seq<string>)
    requires |row| == |labels| && NoDuplicates(groups)
    ensures RSum(GroupRow(row + [v], labels + [x], groups)) ==
      RSum(GroupRow(row, labels, groups)) + (if x in groups then v else 0.0)
  {
    if groups != [] {
      var init := groups[..|groups| - 1];
      var g := groups[|groups| - 1];
      assert groups == init + [g];
      GroupRowSnoc(row, labels, v, x, init);
      var a := GroupRow(row + [v], labels + [x], groups);
      var b := GroupRow(row, labels, groups);
      assert a[..|init|] == GroupRow(row + [v], labels + [x], init);
      assert b[..|init|] == GroupRow(row, labels, init);
      assert RSum(a) == RSum(GroupRow(row + [v], labels + [x], init)) + a[|init|];
      assert RSum(b) == RSum(GroupRow(row, labels, init)) + b[|init|];
      GroupSumSnoc(row, labels, v, x, g);
      if x == g {
        assert x !in init;
      } else {
        assert x in groups <==> x in init;
      }
    }
  }

  /** Regrouping over groups that hold every label once keeps the row total. */
  lemma {:induction false} GroupRowTotal(row: seq<real>, labels: seq<string>, groups: seq<string>)
    requires |row| == |labels| && NoDuplicates(groups) && Elems(labels) <= Elems(groups)
    ensures RSum(GroupRow(row, labels, groups)) == RSum(row)
  {
    if row == [] {
      RSumZero(GroupRow(row, labels, groups));
    } else {
      var init := row[..|row| - 1];
      var linit := labels[..|labels| - 1];
      var x := labels[|labels| - 1];
      assert row == init + [row[|row| - 1]];
      assert labels == linit + [x];
      assert Elems(linit) <= Elems(labels);
      GroupRowTotal(init, linit, groups);
      GroupRowSnoc(init, linit, row[|row| - 1], x, groups);
      assert x in Elems(labels);
    }
  }

  /** The regrouped table has one column per distinct label, in order and
      without repeats; each cell is its group's sum, and every row keeps its
      total. */
  lemma GroupBySpec(f: Frame<real>, labels: seq<string>)
    requires Valid(f) && |labels| == |f.columns|
    ensures var r := GroupBy(f, labels);
      Valid(r) && r.index == f.index &&
      NoDuplicates(r.columns) && Elems(r.columns) == Elems(labels) && SortedBy(r.columns, StrLe) &&
      (forall i, k :: 0 <= i < |r.data| && 0 <= k < |r.columns| ==> r.data[i][k] == GroupSum(f.data[i], labels, r.columns[k])) &&
      (forall i :: 0 <= i < |r.data| ==> RSum(r.data[i]) == RSum(f.data[i]))
  {
    var groups := Groups(labels);
    PermutedDistinct(Distinct(labels), groups);
    StrLeTotalPreorder();
    SortSorted(Distinct(labels), StrLe);
    forall i | 0 <= i < |f.data| ensures RSum(GroupRow(f.data[i], labels, groups)) == RSum(f.data[i]) {
      GroupRowTotal(f.data[i], labels, groups);
    }
  }

  // ---------------------------------------------------------------------
  // Empty rows and normalisation

  /** Which rows have a non-zero total. */
  function NonEmpty(f: Frame<real>): (keep: seq<bool>)
    requires Valid(f)
    ensures |keep| == |f.data| && forall i :: 0 <= i < |f.data| ==> keep[i] == (RSum(f.data[i]) != 0.0)
  {
    seq(|f.data|, i requires 0 <= i < |f.data| => RSum(f.data[i]) != 0.0)
  }

  /** df[df.sum(axis=1) != 0]. */
  function DropEmptyRows(f: Frame<real>): Frame<real>
    requires Valid(f)
  {
    SelectRows(f, Where(NonEmpty(f)))
  }

  /** Exactly the rows with a non-zero total remain, in their order. */
  lemma DropEmptyRowsSpec(f: Frame<real>)
    requires Valid(f)
    ensures var ks := Where(NonEmpty(f)); var r := DropEmptyRows(f);
      Valid(r) && r.columns == f.columns && |r.index| == |ks| &&
      (forall c :: 0 <= c < |ks| ==> ks[c] < |f.index| && r.index[c] == f.index[ks[c]] && r.data[c] == f.data[ks[c]]) &&
      (forall c :: 0 <= c < |r.data| ==> RSum(r.data[c]) != 0.0) &&
      (forall i :: 0 <= i < |f.data| && RSum(f.data[i]) != 0.0 ==> i in ks) &&
      (forall c, d :: 0 <= c < d < |ks| ==> ks[c] < ks[d])
  {
  }

  /** A quotient of floats: finite, or NaN for 0/0, or an infinity. */
  datatype Ratio = Finite(value: real) | NaN | Infinite(negative: bool)

  function Divide(x: real, s: real): Ratio {
    if s != 0.0 then Finite(x / s) else if x == 0.0 then NaN else Infinite(x < 0.0)
  }

  /** df.div(df.sum(axis=1), axis=0): each cell divided by its row total. */
  function Normalize(f: Frame<real>): Frame<Ratio>
    requires Valid(f)
  {
    Frame(f.index, f.columns, seq(|f.data|, i requires 0 <= i < |f.data| =>
      seq(|f.columns|, j requires 0 <= j < |f.columns| => Divide(f.data[i][j], RSum(f.data[i])))))
  }

  /** The finite values of a row (0 for the others). */
  function Values(row: seq<Ratio>): (r: seq<real>)
    ensures |r| == |row|
  {
    seq(|row|, j requires 0 <= j < |row| => if row[j].Finite? then row[j].value else 0.0)
  }

  lemma DivSelf(s: real)
    requires s != 0.0
    ensures s / s == 1.0
  {
  }

  /** Every cell of `row` divided by `s`. */
  function Scaled(row: seq<real>, s: real): (r: seq<real>)
    requires s != 0.0
    ensures |r| == |row| && forall j :: 0 <= j < |row| ==> r[j] == row[j] / s
  {
    seq(|row|, j requires 0 <= j < |row| => row[j] / s)
  }

  lemma {:induction false} RSumScaled(row: seq<real>, s: real)
    requires s != 0.0
    ensures RSum(Scaled(row, s)) == RSum(row) / s
  {
    if row != [] {
      var init := row[..|row| - 1];
      RSumScaled(init, s);
      assert Scaled(row, s)[..|init|] == Scaled(init, s);
      assert (RSum(init) + row[|row| - 1]) / s == RSum(init) / s + row[|row| - 1] / s;
    }
  }

  /** A row with a non-zero total becomes finite shares that sum to 1; a row
      whose total is 0 has no finite cell left. */
  lemma NormalizeSpec(f: Frame<real>)
    requires Valid(f)
    ensures var r := Normalize(f);
      Valid(r) && r.index == f.index && r.columns == f.columns &&
      (forall i, j :: 0 <= i < |f.data| && 0 <= j < |f.columns| && RSum(f.data[i]) != 0.0 ==>
        r.data[i][j] == Finite(f.data[i][j] / RSum(f.data[i]))) &&
      (forall i :: 0 <= i < |f.data| && RSum(f.data[i]) != 0.0 ==> RSum(Values(r.data[i])) == 1.0) &&
      (forall i, j :: 0 <= i < |f.data| && 0 <= j < |f.columns| && RSum(f.data[i]) == 0.0 ==> !r.data[i][j].Finite?)
  {
    var r := Normalize(f);
    forall i | 0 <= i < |f.data| && RSum(f.data[i]) != 0.0 ensures RSum(Values(r.data[i])) == 1.0 {
      var s := RSum(f.data[i]);
      RSumScaled(f.data[i], s);
      assert Values(r.data[i]) == Scaled(f.data[i], s);
      DivSelf(s);
    }
  }

  // ---------------------------------------------------------------------
  // load_data and load_data2

  /** The files of the glob without "Undetermined" in their path. */
  function Determined(paths: seq<string>): (files: seq<string>)
    ensures |files| <= |paths|
    ensures forall f :: f in files <==> f in paths && !Contains(f, "Undetermined")
  {
    if paths == [] then []
    else
      var init := Determined(paths[..|paths| - 1]);
      var p := paths[|paths| - 1];
      assert paths == paths[..|paths| - 1] + [p];
      if Contains(p, "Undetermined") then init else init + [p]
  }

  /** [fix(f) for f in files]: all names, or the first failure. */
  function NameAll(files: seq<string>, fix: string -> Result<string, SampleNaming.NameError>): (r: Result<seq<string>, SampleNaming.NameError>)
    ensures r.Ok? ==> |r.value| == |files| && forall i :: 0 <= i < |files| ==> fix(files[i]) == Ok(r.value[i])
    ensures r.Err? ==>
      (exists i :: 0 <= i < |files| && fix(files[i]) == Err(r.error) &&
        forall j :: 0 <= j < i ==> fix(files[j]).Ok?)
  {
    if files == [] then Ok([])
    else
      var n := fix(files[0]);
      if n.Err? then Err(n.error)
      else
        var rest := NameAll(files[1..], fix);
        if rest.Err? then
          assert forall i :: 1 <= i < |files| ==> files[i] == files[1..][i - 1];
          Err(rest.error)
        else Ok([n.value] + rest.value)
  }

  /** The result of load_data: counts, or shares when normalised. */
  datatype Table = Counts(counts: Frame<real>) | Shares(shares: Frame<Ratio>)

  function TableIndex(t: Table): seq<string> {
    if t.Counts? then t.counts.index else t.shares.index
  }

  /** The row labels are the sample names, each once, in sorted order. */
  ghost predicate SortedNames(index: seq<string>, names: seq<string>) {
    SortedBy(index, StrLe) &&
    exists p :: IsPermutation(p, |names|) && |p| == |index| &&
      forall c :: 0 <= c < |index| ==> p[c] < |names| && index[c] == names[p[c]]
  }

  /** Every row of shares sums to 1 or, when its total was 0, has no finite cell. */
  predicate RowsAreShares(t: Frame<Ratio>) {
    forall i :: 0 <= i < |t.data| ==>
      RSum(Values(t.data[i])) == 1.0 || forall j :: 0 <= j < |t.data[i]| ==> !t.data[i][j].Finite?
  }

  /** The sorted table of pd.DataFrame(jsons) over the column order `cols`. */
  function SortedTable(names: seq<string>, recs: seq<map<string, real>>, cols: seq<string>): Frame<real>
    requires |names| == |recs|
  {
    SortColumns(SortIndex(FromRecords(names, recs, cols)))
  }

  /** Rows of the sorted table: the names in order, each row the sample
      `p[c]`, a permutation. */
  lemma SortedTableRows(names: seq<string>, recs: seq<map<string, real>>, cols: seq<string>)
    requires |names| == |recs|
    ensures var f := SortedTable(names, recs, cols); var p := RowsByLabel(FromRecords(names, recs, cols));
      Valid(f) && SortedNames(f.index, names) && IsPermutation(p, |names|) && |p| == |f.index| &&
      forall c :: 0 <= c < |f.index| ==> p[c] < |names| && f.index[c] == names[p[c]]
  {
    var f0 := FromRecords(names, recs, cols);
    SortIndexSpec(f0);
    SortColumnsSpec(SortIndex(f0));
  }

  /** Columns of the sorted table: the same labels, by decreasing total. */
  lemma SortedTableColumns(names: seq<string>, recs: seq<map<string, real>>, cols: seq<string>)
    requires |names| == |recs| && NoDuplicates(cols)
    ensures var f := SortedTable(names, recs, cols);
      NoDuplicates(f.columns) && Elems(f.columns) == Elems(cols) &&
      forall j, k :: 0 <= j < k < |f.columns| ==> ColumnSum(f, j) >= ColumnSum(f, k)
  {
    var f1 := SortIndex(FromRecords(names, recs, cols));
    SortIndexSpec(FromRecords(names, recs, cols));
    SortColumnsSpec(f1);
    SortColumnsDistinct(f1);
    SortColumnsElems(f1);
  }

  /** Cells of the sorted table: each is its sample's count for its column. */
  lemma SortedTableCells(names: seq<string>, recs: seq<map<string, real>>, cols: seq<string>)
    requires |names| == |recs|
    ensures var f := SortedTable(names, recs, cols); var p := RowsByLabel(FromRecords(names, recs, cols));
      Valid(f) && |p| == |f.data| &&
      forall c, k :: 0 <= c < |f.data| && 0 <= k < |f.columns| ==> p[c] < |recs| && f.data[c][k] == Count(recs[p[c]], f.columns[k])
  {
    var f0 := FromRecords(names, recs, cols);
    SortIndexSpec(f0);
    SortColumnsSpec(SortIndex(f0));
  }

  /** The JSON map of each file. */
  function Records(files: seq<string>, read: string -> map<string, real>): (recs: seq<map<string, real>>)
    ensures |recs| == |files| && forall i :: 0 <= i < |files| ==> recs[i] == read(files[i])
  {
    seq(|files|, i requires 0 <= i < |files| => read(files[i]))
  }

  /** `f` is a tabulation of the records: rows sorted by name, each row
      the record of sample `p[c]` for a permutation `p`, and the columns
      every taxon once, by decreasing total. */
  ghost predicate Tabulates(f: Frame<real>, names: seq<string>, recs: seq<map<string, real>>)
    requires |names| == |recs|
  {
    Valid(f) && SortedBy(f.index, StrLe) &&
    NoDuplicates(f.columns) && Elems(f.columns) == AllTaxa(recs) &&
    (forall j, k :: 0 <= j < k < |f.columns| ==> ColumnSum(f, j) >= ColumnSum(f, k)) &&
    exists p :: IsPermutation(p, |names|) && |p| == |f.index| &&
      forall c :: 0 <= c < |f.index| ==> (p[c] < |names| && f.index[c] == names[p[c]] &&
        forall k :: 0 <= k < |f.columns| ==> f.data[c][k] == Count(recs[p[c]], f.columns[k]))
  }

  /** pd.DataFrame(jsons), indexed by `names`, NaN replaced by 0, rows
      sorted by name and columns by decreasing total (the initial column
      order is that of a set). Each row is the record of sample `p[c]`. */
  method Tabulate(names: seq<string>, recs: seq<map<string, real>>) returns (f: Frame<real>, ghost p: seq<nat>)
    requires |names| == |recs|
    ensures Valid(f) && SortedNames(f.index, names) && Elems(f.index) <= Elems(names)
    ensures NoDuplicates(f.columns) && Elems(f.columns) == AllTaxa(recs)
    ensures forall j, k :: 0 <= j < k < |f.columns| ==> ColumnSum(f, j) >= ColumnSum(f, k)
    ensures IsPermutation(p, |names|) && |p| == |f.data| &&
      forall c, k :: 0 <= c < |f.data| && 0 <= k < |f.columns| ==> p[c] < |recs| && f.data[c][k] == Count(recs[p[c]], f.columns[k])
    ensures Tabulates(f, names, recs)
  {
    var cols := SetToSeq(AllTaxa(recs));
    f := SortedTable(names, recs, cols);
    p := RowsByLabel(FromRecords(names, recs, cols));
    SortedTableRows(names, recs, cols);
    SortedTableColumns(names, recs, cols);
    SortedTableCells(names, recs, cols);
    forall x | x in Elems(f.index) ensures x in Elems(names) {
      var c :| 0 <= c < |f.index| && f.index[c] == x;
      assert names[p[c]] == x;
    }
    TabulatesBy(f, p, names, recs);
  }

  /** A sorted table whose rows are the names and records of one
      permutation `p` is a tabulation. */
  lemma TabulatesBy(f: Frame<real>, p: seq<nat>, names: seq<string>, recs: seq<map<string, real>>)
    requires |names| == |recs| && Valid(f) && SortedBy(f.index, StrLe)
    requires NoDuplicates(f.columns) && Elems(f.columns) == AllTaxa(recs)
    requires forall j, k :: 0 <= j < k < |f.columns| ==> ColumnSum(f, j) >= ColumnSum(f, k)
    requires IsPermutation(p, |names|) && |p| == |f.index|
    requires forall c :: 0 <= c < |f.index| ==> p[c] < |names| && f.index[c] == names[p[c]]
    requires forall c, k :: 0 <= c < |f.data| && 0 <= k < |f.columns| ==> p[c] < |recs| && f.data[c][k] == Count(recs[p[c]], f.columns[k])
    ensures Tabulates(f, names, recs)
  {
    assert forall c :: 0 <= c < |f.index| ==> (p[c] < |names| && f.index[c] == names[p[c]] &&
      forall k :: 0 <= k < |f.columns| ==> f.data[c][k] == Count(recs[p[c]], f.columns[k]));
  }

  /** The table of counts, or of shares when normalised. */
  function Finalized(g: Frame<real>, normalize: bool): Table
    requires Valid(g)
  {
    if normalize then Shares(Normalize(g)) else Counts(g)
  }

  /** The spike labels each label at most one column, and so does the
      residual label once some spike column is there to be added into it. */
  predicate SpikeLabelsUnique(cols: seq<string>, opt: SpikeOption) {
    (forall x :: x in SpikeTaxa ==> AtMostOnce(cols, x)) &&
    (opt.Into? && HasSpike(cols, SpikeTaxa) ==> AtMostOnce(cols, opt.column))
  }

  /** The phylum labels of the columns that are not spike taxa. */
  function KeptLabels(cols: seq<string>, phylum: seq<string>): (labels: seq<string>)
    requires |phylum| == |cols|
    ensures |labels| == |Where(NotSpike(cols, SpikeTaxa))|
  {
    var ks := Where(NotSpike(cols, SpikeTaxa));
    seq(|ks|, c requires 0 <= c < |ks| => phylum[ks[c]])
  }

  /** What the spike removal, regrouping and normalisation of load_data
      give for the table `f`: without spike removal, the table itself (or
      an UnboundLocalError when phylum labels were split); otherwise a
      missing residual column is a KeyError, raised at the first spike
      column before any label is looked up, then a repeated label is an
      error, and the table without the spike columns is regrouped by phylum
      when asked. */
  ghost predicate Finished(f: Frame<real>, opt: SpikeOption, phylum: Option<seq<string>>, normalize: bool,
                           r: Result<Table, LoadError>)
    requires Valid(f) && (phylum.Some? ==> |phylum.value| == |f.columns|)
  {
    if !Truthy(opt) then
      r == (if phylum.Some? then Err(KeepUnbound) else Ok(Finalized(f, normalize)))
    else if opt.Into? && opt.column !in f.columns && HasSpike(f.columns, SpikeTaxa) then
      r == Err(MissingColumn(opt.column))
    else if !SpikeLabelsUnique(f.columns, opt) then r == Err(DuplicateLabels)
    else
      exists g :: SpikeRemoved(f, SpikeTaxa, opt, g) &&
        r == Ok(Finalized(if phylum.Some? then GroupBy(g, KeptLabels(f.columns, phylum.value)) else g, normalize))
  }

  /** With no spike column in the table, removing the spike columns leaves
      the table as it is, whatever the residual column. */
  lemma NoSpikeRemoved(f: Frame<real>, opt: SpikeOption, g: Frame<real>)
    requires Valid(f) && !HasSpike(f.columns, SpikeTaxa) && SpikeRemoved(f, SpikeTaxa, opt, g)
    ensures g == f
  {
    var ks := Where(NotSpike(f.columns, SpikeTaxa));
    WhereAll(NotSpike(f.columns, SpikeTaxa));
    assert g.columns == f.columns;
    assert g.data == f.data by {
      forall i | 0 <= i < |f.data| ensures g.data[i] == f.data[i] {
        NoSpikeTotal(f, i, SpikeTaxa);
        forall c | 0 <= c < |f.columns| ensures g.data[i][c] == f.data[i][c] {
          assert ks[c] == c;
          assert g.data[i][c] == f.data[i][ks[c]] +
            (if opt.Into? && f.columns[ks[c]] == opt.column then SpikeTotal(f, i, SpikeTaxa) else 0.0);
        }
      }
    }
  }

  /** With no spike column in the table, spike removal cannot fail, even
      when the residual label names several columns, and the result is the
      one without spike removal (regrouped when phylum labels were split). */
  lemma NoSpikeNoError(f: Frame<real>, opt: SpikeOption, phylum: Option<seq<string>>, normalize: bool,
                       r: Result<Table, LoadError>)
    requires Valid(f) && (phylum.Some? ==> |phylum.value| == |f.columns|)
    requires Truthy(opt) && !HasSpike(f.columns, SpikeTaxa) && Finished(f, opt, phylum, normalize, r)
    ensures r == Ok(Finalized(if phylum.Some? then GroupBy(f, phylum.value) else f, normalize))
  {
    forall x | x in SpikeTaxa ensures AtMostOnce(f.columns, x) {
      assert x !in f.columns;
    }
    assert SpikeLabelsUnique(f.columns, opt);
    var g :| SpikeRemoved(f, SpikeTaxa, opt, g) &&
      r == Ok(Finalized(if phylum.Some? then GroupBy(g, KeptLabels(f.columns, phylum.value)) else g, normalize));
    NoSpikeRemoved(f, opt, g);
    if phylum.Some? {
      WhereAll(NotSpike(f.columns, SpikeTaxa));
      assert KeptLabels(f.columns, phylum.value) == phylum.value;
    }
  }

  /** Spike removal, regrouping and normalisation, shared by both loaders. */
  method Finish(f: Frame<real>, removeSpike: SpikeOption, phylum: Option<seq<string>>, normalize: bool)
    returns (r: Result<Table, LoadError>)
    requires Valid(f) && (phylum.Some? ==> |phylum.value| == |f.columns|)
    ensures r.Ok? ==> TableIndex(r.value) == f.index && r.value.Shares? == normalize
    ensures r.Ok? && r.value.Shares? ==> RowsAreShares(r.value.shares)
    ensures phylum.Some? && !Truthy(removeSpike) ==> r == Err(KeepUnbound)
    ensures !Truthy(removeSpike) && phylum.None? && !normalize ==> r == Ok(Counts(f))
    ensures Finished(f, removeSpike, phylum, normalize, r)
  {
    var g := f;
    if Truthy(removeSpike) {
      if removeSpike.Into? && removeSpike.column !in f.columns && HasSpike(f.columns, SpikeTaxa) {
        return Err(MissingColumn(removeSpike.column));
      }
      if !SpikeLabelsUnique(f.columns, removeSpike) {
        return Err(DuplicateLabels);
      }
      var res := RemoveSpike(f, SpikeTaxa, removeSpike);
      g := res.value;
      ghost var removed := g;
      if phylum.Some? {
        var labels := KeptLabels(f.columns, phylum.value);
        GroupBySpec(g, labels);
        g := GroupBy(g, labels);
      }
      if normalize {
        NormalizeSpec(g);
      }
      r := Ok(Finalized(g, normalize));
      assert SpikeRemoved(f, SpikeTaxa, removeSpike, removed);
      return;
    } else if phylum.Some? {
      return Err(KeepUnbound);
    }
    if normalize {
      NormalizeSpec(g);
      r := Ok(Shares(Normalize(g)));
    } else {
      r := Ok(Counts(g));
    }
  }

  /** The first or second parts of labels that each split on ',' in two. */
  function LabelParts(cols: seq<string>, part: nat): (r: seq<string>)
    requires part < 2 && forall j :: 0 <= j < |cols| ==> |Split(cols[j], ",")| == 2
    ensures |r| == |cols|
  {
    seq(|cols|, j requires 0 <= j < |cols| => Split(cols[j], ",")[part])
  }

  /** What load_data gives once the table `t` is built: in phylum mode
      the labels are split first (a bad label is an error), then Finished. */
  ghost predicate LoadedFrom(t: Frame<real>, opt: SpikeOption, normalize: bool, phylumMode: bool,
                             r: Result<Table, LoadError>)
    requires Valid(t)
  {
    if !phylumMode then Finished(t, opt, None, normalize, r)
    else if forall j :: 0 <= j < |t.columns| ==> |Split(t.columns[j], ",")| == 2 then
      Finished(t.(columns := LabelParts(t.columns, 0)), opt, Some(LabelParts(t.columns, 1)), normalize, r)
    else
      exists j :: 0 <= j < |t.columns| && |Split(t.columns[j], ",")| != 2 &&
        r == Err(BadLabel(t.columns[j], |Split(t.columns[j], ",")|))
  }

  /** load_data: the glob's files without "Undetermined" (their count
      checked when expFiles is not 0), named by fix_name, one row per file
      read by `read`; then phylum labels split, spike taxa removed, phylum
      groups summed and rows normalised as asked. */
  method LoadData(paths: seq<string>, read: string -> map<string, real>, removeSpike: SpikeOption,
                  expFiles: nat, normalize: bool, phylumMode: bool) returns (r: Result<Table, LoadError>)
    ensures var files := Determined(paths);
      expFiles != 0 && |files| != expFiles ==> r == Err(FileCount(expFiles, |files|))
    ensures var files := Determined(paths);
      (expFiles == 0 || |files| == expFiles) && NameAll(files, SampleNaming.FixName).Err? ==> r == Err(BadName(NameAll(files, SampleNaming.FixName).error))
    ensures r.Ok? ==> NameAll(Determined(paths), SampleNaming.FixName).Ok? && SortedNames(TableIndex(r.value), NameAll(Determined(paths), SampleNaming.FixName).value)
    ensures r.Ok? ==> r.value.Shares? == normalize
    ensures r.Ok? && normalize ==> RowsAreShares(r.value.shares)
    ensures r.Ok? && phylumMode ==> Truthy(removeSpike)
    ensures r.Ok? && !phylumMode && !Truthy(removeSpike) && !normalize ==>
      var t := r.value.counts; var files := Determined(paths);
      NoDuplicates(t.columns) && Elems(t.columns) == AllTaxa(Records(files, read)) &&
      (forall j, k :: 0 <= j < k < |t.columns| ==> ColumnSum(t, j) >= ColumnSum(t, k))
    ensures var files := Determined(paths); var names := NameAll(files, SampleNaming.FixName);
      (expFiles == 0 || |files| == expFiles) && names.Ok? ==>
      exists t :: Tabulates(t, names.value, Records(files, read)) && LoadedFrom(t, removeSpike, normalize, phylumMode, r)
  {
    var files := Determined(paths);
    if expFiles != 0 && |files| != expFiles {
      return Err(FileCount(expFiles, |files|));
    }
    var names := NameAll(files, SampleNaming.FixName);
    if names.Err? {
      return Err(BadName(names.error));
    }
    var f, _ := Tabulate(names.value, Records(files, read));
    r := LoadFrom(f, removeSpike, normalize, phylumMode);
  }

  /** The part of load_data after the table is built: phylum labels split
      in phylum mode, then Finish. */
  method LoadFrom(t: Frame<real>, removeSpike: SpikeOption, normalize: bool, phylumMode: bool)
    returns (r: Result<Table, LoadError>)
    requires Valid(t)
    ensures LoadedFrom(t, removeSpike, normalize, phylumMode, r)
    ensures r.Ok? ==> TableIndex(r.value) == t.index && r.value.Shares? == normalize
    ensures r.Ok? && normalize ==> RowsAreShares(r.value.shares)
    ensures r.Ok? && phylumMode ==> Truthy(removeSpike)
    ensures !phylumMode && !Truthy(removeSpike) && !normalize ==> r == Ok(Counts(t))
  {
    var f := t;
    var phylum := None;
    if phylumMode {
      var split := SplitLabels(f.columns);
      if split.Err? {
        return Err(split.error);
      }
      assert split.value.0 == LabelParts(t.columns, 0) && split.value.1 == LabelParts(t.columns, 1);
      f := f.(columns := split.value.0);
      phylum := Some(split.value.1);
    }
    r := Finish(f, removeSpike, phylum, normalize);
  }

  /** The names load_data2 gives its files. */
  function CleanNames(paths: seq<string>): (names: seq<string>)
    ensures |names| == |paths| && forall i :: 0 <= i < |paths| ==> names[i] == CleanFileName(paths[i])
  {
    seq(|paths|, i requires 0 <= i < |paths| => CleanFileName(paths[i]))
  }

  /** The tail of load_data2: empty samples dropped, then the rows
      normalised as asked. */
  method DropAndNormalize(f: Frame<real>, normalize: bool) returns (t: Table)
    requires Valid(f)
    ensures t.Shares? == normalize
    ensures Elems(TableIndex(t)) <= Elems(f.index)
    ensures t.Counts? ==> forall i :: 0 <= i < |t.counts.data| ==> RSum(t.counts.data[i]) != 0.0
    ensures t.Shares? ==> forall i :: 0 <= i < |t.shares.data| ==> RSum(Values(t.shares.data[i])) == 1.0
    ensures t == Finalized(DropEmptyRows(f), normalize)
  {
    var g := DropEmptyRows(f);
    DropEmptyRowsSpec(f);
    if normalize {
      NormalizeSpec(g);
      t := Shares(Normalize(g));
    } else {
      t := Counts(g);
    }
  }

  /** What load_data2 gives once the table `t` is built: spike columns
      removed as asked (a missing residual column is an error), then the
      empty samples dropped and the rows normalised as asked. */
  ghost predicate Loaded2From(t: Frame<real>, opt: SpikeOption, normalize: bool, r: Result<Table, LoadError>)
    requires Valid(t)
  {
    if !Truthy(opt) then r == Ok(Finalized(DropEmptyRows(t), normalize))
    else if opt.Into? && opt.column !in t.columns && HasSpike(t.columns, SpikeTaxa) then
      r == Err(MissingColumn(opt.column))
    else
      exists g :: SpikeRemoved(t, SpikeTaxa, opt, g) && r == Ok(Finalized(DropEmptyRows(g), normalize))
  }

  /** load_data2: every file of the glob (count checked when expFiles is
      not 0), named by clean_file_name; spike taxa removed as asked, samples
      whose total is 0 dropped, and rows normalised as asked. */
  method LoadData2(paths: seq<string>, read: string -> map<string, real>, removeSpike: SpikeOption,
                   expFiles: nat, normalize: bool) returns (r: Result<Table, LoadError>)
    ensures expFiles != 0 && |paths| != expFiles ==> r == Err(FileCount(expFiles, |paths|))
    ensures r.Err? ==> r == Err(FileCount(expFiles, |paths|)) || (removeSpike.Into? && r == Err(MissingColumn(removeSpike.column)))
    ensures r.Ok? ==> r.value.Shares? == normalize
    ensures r.Ok? ==> Elems(TableIndex(r.value)) <= Elems(CleanNames(paths))
    ensures r.Ok? && !normalize ==> forall i :: 0 <= i < |r.value.counts.data| ==> RSum(r.value.counts.data[i]) != 0.0
    ensures r.Ok? && normalize ==> forall i :: 0 <= i < |r.value.shares.data| ==> RSum(Values(r.value.shares.data[i])) == 1.0
    ensures expFiles == 0 || |paths| == expFiles ==>
      exists t :: Tabulates(t, CleanNames(paths), Records(paths, read)) && Loaded2From(t, removeSpike, normalize, r)
  {
    if expFiles != 0 && |paths| != expFiles {
      return Err(FileCount(expFiles, |paths|));
    }
    var f, _ := Tabulate(CleanNames(paths), Records(paths, read));
    ghost var t0 := f;
    DistinctAtMostOnce(f.columns);
    if Truthy(removeSpike) {
      var res := RemoveSpike(f, SpikeTaxa, removeSpike);
      if res.Err? {
        return Err(res.error);
      }
      f := res.value;
    }
    var t := DropAndNormalize(f, normalize);
    r := Ok(t);
    assert Loaded2From(t0, removeSpike, normalize, r);
  }
}
