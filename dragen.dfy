/**
 * The comparison with DRAGEN (dragen.py): kraken sample names renamed to
 * DRAGEN's, spike-in taxa dropped and the rest rescaled, and the genera of
 * phages found by walking up the kraken taxonomy. The correlation and the
 * plots are not modelled.
 */
module Dragen {
  import opened Wrappers
  import opened Strs
  import opened Seqs
  import SampleNaming
  import Abundance
  import KrkTax

  datatype DragenError =
    | Naming(err: SampleNaming.NameError)
    | KeyError(key: string)
    | IndexError
    | ZeroDivision
    | NamesDiffer

  // ---------------------------------------------------------------------
  // Sample names

  /** s[2:] in Python: empty when s is shorter. */
  function PyFrom2(s: string): string {
    if |s| < 2 then "" else s[2..]
  }

  /** s[:-1] and s[-1:] in Python. */
  function PyButLast(s: string): string {
    if s == [] then "" else s[..|s| - 1]
  }

  function PyLast(s: string): string {
    if s == [] then "" else s[|s| - 1..]
  }

  /** to_dragen_name: the group without its batch, the short label without
      its last character, and that character, joined by '-'. */
  function ToDragenName(s: string): (r: Result<string, DragenError>)
    ensures r.Ok? <==> SampleNaming.FixName2(s).Ok?
    ensures r.Err? ==> r.error == Naming(SampleNaming.FixName2(s).error)
  {
    var g := SampleNaming.SampleGroup(s);
    match SampleNaming.FixName2(s)
    case Err(e) => Err(Naming(e))
    case Ok(n) => Ok(Join([PyFrom2(g), PyButLast(n), PyLast(n)], "-"))
  }

  /** Worked examples of the renaming, one per kind of group. */
  lemma ToDragenNameEuro()
    ensures ToDragenName("1.Euro_Tur_040722") == Ok("Euro-Tur-1")
  {
    EuroParts();
    JoinParts("1.Euro", "Tur1", "Euro-Tur-1");
  }

  lemma ToDragenNameInh()
    ensures ToDragenName("2.Inh_LB_113022") == Ok("Inh-LB-3")
  {
    InhParts();
    JoinParts("2.Inh", "LB3", "Inh-LB-3");
  }

  lemma EuroParts()
    ensures SampleNaming.SampleGroup("1.Euro_Tur_040722") == "1.Euro"
    ensures SampleNaming.FixName2("1.Euro_Tur_040722") == Ok("Tur1")
  {
    var s := "1.Euro_Tur_040722";
    assert s[..6] == "1.Euro";
    assert s[2..] == "Euro_Tur_040722";
    assert SampleNaming.SampleNameMapping2["Euro_Tur_040722"] == "Tur1";
  }

  lemma InhParts()
    ensures SampleNaming.SampleGroup("2.Inh_LB_113022") == "2.Inh"
    ensures SampleNaming.FixName2("2.Inh_LB_113022") == Ok("LB3")
  {
    var s := "2.Inh_LB_113022";
    assert s[..5] == "2.Inh";
    assert !HasPrefix(s, "1.Euro") && !HasPrefix(s, "1.Inh") by { assert s[0] != "1.Euro"[0]; }
    assert !HasPrefix(s, "2.Euro") by { assert s[2] != "2.Euro"[2]; }
    assert s[2..] == "Inh_LB_113022";
    assert SampleNaming.SampleNameMapping2["Inh_LB_113022"] == "LB3";
  }

  /** The name built from group `g` and label `n`, for the two examples. */
  lemma JoinParts(g: string, n: string, out: string)
    requires (g, n, out) in {("1.Euro", "Tur1", "Euro-Tur-1"), ("2.Inh", "LB3", "Inh-LB-3")}
    ensures Join([PyFrom2(g), PyButLast(n), PyLast(n)], "-") == out
  {
    var p0, p1, p2 := PyFrom2(g), PyButLast(n), PyLast(n);
    if g == "1.Euro" {
      assert p0 == "Euro" && p1 == "Tur" && p2 == "1";
    } else {
      assert p0 == "Inh" && p1 == "LB" && p2 == "3";
    }
    assert Join([p1, p2], "-") == p1 + "-" + p2;
    assert Join([p0, p1, p2], "-") == p0 + "-" + Join([p1, p2], "-");
  }

  /** No short label and no group contains '-'. */
  lemma LabelsAvoidDash(s: string)
    ensures Avoids(PyFrom2(SampleNaming.SampleGroup(s)), "-")
    ensures SampleNaming.FixName2(s).Ok? ==> Avoids(SampleNaming.FixName2(s).value, "-")
  {
    GroupAvoidsDash(SampleNaming.SampleGroup(s));
    forall v | v in SampleNaming.SampleNameMapping2.Values ensures Avoids(v, "-") {
      assert v in {"Tur1", "Tur2", "Tur3", "Wod1", "Wod2", "Wod3", "LB1", "LB2", "LB3"};
    }
    if SampleNaming.FixName2(s).Ok? {
      assert SampleNaming.FixName2(s).value in SampleNaming.SampleNameMapping2.Values;
    }
  }

  lemma GroupAvoidsDash(g: string)
    requires g == "" || g in SampleNaming.LunaGroups
    ensures Avoids(PyFrom2(g), "-")
  {
    if g == "1.Euro" || g == "2.Euro" {
      assert PyFrom2(g) == "Euro";
    } else if g != "" {
      assert PyFrom2(g) == "Inh";
    }
  }

  /** The three parts come back out of a DRAGEN name by splitting at '-'. */
  lemma DragenNameParts(s: string)
    requires ToDragenName(s).Ok?
    ensures var n := SampleNaming.FixName2(s).value;
      Split(ToDragenName(s).value, "-") == [PyFrom2(SampleNaming.SampleGroup(s)), PyButLast(n), PyLast(n)]
  {
    var n := SampleNaming.FixName2(s).value;
    LabelsAvoidDash(s);
    assert Avoids(PyButLast(n), "-") && Avoids(PyLast(n), "-") by {
      forall c | c in PyButLast(n) ensures c in n { }
      forall c | c in PyLast(n) ensures c in n { }
    }
    var parts := [PyFrom2(SampleNaming.SampleGroup(s)), PyButLast(n), PyLast(n)];
    SplitJoin(parts, "-");
  }

  /** Two kraken names get the same DRAGEN name only when they are in groups
      with the same site type and have the same short label. */
  lemma DragenNameInjective(s1: string, s2: string)
    requires ToDragenName(s1).Ok? && ToDragenName(s1) == ToDragenName(s2)
    ensures PyFrom2(SampleNaming.SampleGroup(s1)) == PyFrom2(SampleNaming.SampleGroup(s2))
    ensures SampleNaming.FixName2(s1) == SampleNaming.FixName2(s2)
  {
    DragenNameParts(s1);
    DragenNameParts(s2);
    var n1 := SampleNaming.FixName2(s1).value;
    var n2 := SampleNaming.FixName2(s2).value;
    assert PyButLast(n1) == PyButLast(n2) && PyLast(n1) == PyLast(n2);
    assert n1 == PyButLast(n1) + PyLast(n1);
    assert n2 == PyButLast(n2) + PyLast(n2);
  }

  /** Extending a list of successful results by the next one. */
  lemma MappedSnoc<A, B, E>(f: A -> Result<B, E>, xs: seq<A>, ys: seq<B>, i: nat)
    requires |ys| == i < |xs| && f(xs[i]).Ok?
    requires forall j :: 0 <= j < i ==> f(xs[j]) == Ok(ys[j])
    ensures forall j :: 0 <= j < i + 1 ==> f(xs[j]) == Ok((ys + [f(xs[i]).value])[j])
  {
  }

  /** The renaming of the kraken rows and the assertion that they are the
      DRAGEN samples, as sets. */
  method RenameRows(index: seq<string>, dragenKeys: set<string>) returns (r: Result<seq<string>, DragenError>)
    ensures r.Ok? ==> |r.value| == |index| && Elems(r.value) == dragenKeys
    ensures r.Ok? ==> forall i :: 0 <= i < |index| ==> ToDragenName(index[i]) == Ok(r.value[i])
    ensures r.Err? && r.error != NamesDiffer ==> exists i :: 0 <= i < |index| && ToDragenName(index[i]) == Err(r.error)
    ensures r.Err? && r.error == NamesDiffer ==> forall i :: 0 <= i < |index| ==> ToDragenName(index[i]).Ok?
    ensures (forall i :: 0 <= i < |index| ==> ToDragenName(index[i]).Ok?) ==> r.Err? ==> r.error == NamesDiffer
  {
    var names: seq<string> := [];
    for i := 0 to |index|
      invariant |names| == i && forall j :: 0 <= j < i ==> ToDragenName(index[j]) == Ok(names[j])
    {
      var n := ToDragenName(index[i]);
      if n.Err? {
        assert ToDragenName(index[i]) == Err(n.error) && !ToDragenName(index[i]).Ok?;
        return Err(n.error);
      }
      MappedSnoc(ToDragenName, index, names, i);
      names := names + [n.value];
    }
    assert forall j :: 0 <= j < |index| ==> ToDragenName(index[j]).Ok?;
    if Elems(names) != dragenKeys {
      return Err(NamesDiffer);
    }
    r := Ok(names);
  }

  // ---------------------------------------------------------------------
  // Abundance maps, as dictionaries in insertion order

  type Dict = seq<(string, real)>

  const Spike: set<string> := {"Betacoronavirus", "Mastadenovirus"}

  function Vals(d: Dict): (r: seq<real>)
    ensures |r| == |d| && forall i :: 0 <= i < |d| ==> r[i] == d[i].1
  {
    seq(|d|, i requires 0 <= i < |d| => d[i].1)
  }

  /** {k: v for k, v in d.items() if k not in ks}, in the same order. */
  function DropKeys(d: Dict, ks: set<string>): (r: Dict)
    ensures |r| <= |d|
  {
    if d == [] then []
    else
      var n := |d| - 1;
      DropKeys(d[..n], ks) + (if d[n].0 in ks then [] else [d[n]])
  }

  lemma {:induction false} DropKeysSpec(d: Dict, ks: set<string>, x: (string, real))
    ensures x in DropKeys(d, ks) <==> x in d && x.0 !in ks
  {
    if d != [] {
      var n := |d| - 1;
      DropKeysSpec(d[..n], ks, x);
      assert d == d[..n] + [d[n]];
    }
  }

  /** {k: v for k, v in d.items() if v > 0}. */
  function Positive(d: Dict): (r: Dict)
    ensures forall i :: 0 <= i < |r| ==> r[i].1 > 0.0
    ensures forall x :: x in d && x.1 > 0.0 ==> x in r
  {
    if d == [] then []
    else
      var n := |d| - 1;
      assert d == d[..n] + [d[n]];
      Positive(d[..n]) + (if d[n].1 > 0.0 then [d[n]] else [])
  }

  lemma {:induction false} PositiveSubset(d: Dict, x: (string, real))
    requires x in Positive(d)
    ensures x in d
  {
    var n := |d| - 1;
    assert d == d[..n] + [d[n]];
    if x != d[n] || d[n].1 <= 0.0 {
      PositiveSubset(d[..n], x);
    }
  }

  /** remove_spike: the spike-in taxa dropped and every other value divided
      by the sum of those left; a ZeroDivisionError when they sum to 0. */
  function RemoveSpike(d: Dict): (r: Result<Dict, DragenError>)
    ensures r.Ok? ==> |r.value| == |DropKeys(d, Spike)|
    ensures r.Ok? ==> forall i :: 0 <= i < |r.value| ==> r.value[i].0 == DropKeys(d, Spike)[i].0
  {
    var kept := DropKeys(d, Spike);
    var s := RSum(Vals(kept));
    if kept == [] then Ok([])
    else if s == 0.0 then Err(ZeroDivision)
    else Ok(seq(|kept|, i requires 0 <= i < |kept| => (kept[i].0, kept[i].1 / s)))
  }

  /** remove_spike fails exactly when what is left is non-empty and sums to
      0; otherwise the values left are rescaled to sum to 1. */
  lemma RemoveSpikeSpec(d: Dict)
    ensures var kept := DropKeys(d, Spike);
      (RemoveSpike(d).Err? <==> kept != [] && RSum(Vals(kept)) == 0.0) &&
      (RemoveSpike(d).Ok? && kept != [] ==>
        RSum(Vals(RemoveSpike(d).value)) == 1.0 &&
        forall i :: 0 <= i < |kept| ==> RemoveSpike(d).value[i].1 == kept[i].1 / RSum(Vals(kept)))
  {
    var kept := DropKeys(d, Spike);
    var s := RSum(Vals(kept));
    if kept != [] && s != 0.0 {
      var r := RemoveSpike(d).value;
      assert Vals(r) == Abundance.Scaled(Vals(kept), s);
      Abundance.RSumScaled(Vals(kept), s);
      Abundance.DivSelf(s);
    }
  }

  /** A kraken row with its zero counts dropped never makes remove_spike
      divide by zero: whatever is left sums to more than 0. */
  lemma PositiveRemoveSpikeOk(d: Dict)
    ensures RemoveSpike(Positive(d)).Ok?
  {
    var kept := DropKeys(Positive(d), Spike);
    if kept != [] {
      forall i | 0 <= i < |kept| ensures kept[i].1 > 0.0 {
        assert kept[i] in kept;
        DropKeysSpec(Positive(d), Spike, kept[i]);
        var j := IndexOf(Positive(d), kept[i]);
      }
      PositiveSum(Vals(kept));
    }
  }

  lemma {:induction false} PositiveSum(v: seq<real>)
    requires v != [] && forall i :: 0 <= i < |v| ==> v[i] > 0.0
    ensures RSum(v) > 0.0
  {
    var n := |v| - 1;
    if n > 0 {
      PositiveSum(v[..n]);
    }
  }

  /** Every key remove_spike keeps is a key of its input and no spike-in. */
  lemma RemoveSpikeKeys(d: Dict, x: (string, real))
    requires RemoveSpike(d).Ok? && x in RemoveSpike(d).value
    ensures x.0 !in Spike && exists y :: y in d && y.0 == x.0
  {
    var r := RemoveSpike(d).value;
    var kept := DropKeys(d, Spike);
    var i :| 0 <= i < |r| && r[i] == x;
    assert kept[i] in kept;
    DropKeysSpec(d, Spike, kept[i]);
  }

  /** Key `k` of a prepared row: a key of the raw row, neither a spike-in
      nor a phage genus. */
  ghost predicate Cleaned(k: string, raw: Dict, phages: set<string>) {
    k !in Spike && k !in phages && exists y :: y in raw && y.0 == k
  }

  /** One sample of main: the kraken row without its zero counts, and the
      DRAGEN row, each with the spike-ins removed and rescaled, then with
      the phage genera dropped. Only the DRAGEN row can fail to rescale. */
  function Prepared(krkRow: Dict, drgRow: Dict, phages: set<string>): (r: Result<(Dict, Dict), DragenError>)
    ensures r.Ok? <==> RemoveSpike(drgRow).Ok?
    ensures r.Ok? ==> forall x :: x in r.value.0 ==> x.1 > 0.0 && Cleaned(x.0, krkRow, phages)
    ensures r.Ok? ==> forall x :: x in r.value.1 ==> Cleaned(x.0, drgRow, phages)
  {
    PositiveRemoveSpikeOk(krkRow);
    var a := RemoveSpike(Positive(krkRow));
    var b := RemoveSpike(drgRow);
    if b.Err? then Err(b.error)
    else
      var r := (DropKeys(a.value, phages), DropKeys(b.value, phages));
      assert forall x :: x in r.0 ==> x.1 > 0.0 && Cleaned(x.0, krkRow, phages) by {
        forall x | x in r.0 ensures x.1 > 0.0 && Cleaned(x.0, krkRow, phages) {
          DropKeysSpec(a.value, phages, x);
          RemoveSpikeKeys(Positive(krkRow), x);
          var y :| y in Positive(krkRow) && y.0 == x.0;
          PositiveSubset(krkRow, y);
          RemoveSpikePositive(Positive(krkRow), x);
        }
      }
      assert forall x :: x in r.1 ==> Cleaned(x.0, drgRow, phages) by {
        forall x | x in r.1 ensures Cleaned(x.0, drgRow, phages) {
          DropKeysSpec(b.value, phages, x);
          RemoveSpikeKeys(drgRow, x);
        }
      }
      Ok(r)
  }

  /** Rescaling positive values by their positive sum keeps them positive. */
  lemma RemoveSpikePositive(d: Dict, x: (string, real))
    requires forall i :: 0 <= i < |d| ==> d[i].1 > 0.0
    requires RemoveSpike(d).Ok? && x in RemoveSpike(d).value
    ensures x.1 > 0.0
  {
    var kept := DropKeys(d, Spike);
    var r := RemoveSpike(d).value;
    var i :| 0 <= i < |r| && r[i] == x;
    assert kept[i] in kept;
    DropKeysSpec(d, Spike, kept[i]);
    var j :| 0 <= j < |d| && d[j] == kept[i];
    PositiveSum(Vals(kept)) by {
      forall k | 0 <= k < |kept| ensures Vals(kept)[k] > 0.0 {
        assert kept[k] in kept;
        DropKeysSpec(d, Spike, kept[k]);
      }
    }
  }

  /** The keys of a dictionary, in its order. */
  function Keys(d: Dict): (r: seq<string>)
    ensures |r| == |d| && forall i :: 0 <= i < |d| ==> r[i] == d[i].0
  {
    seq(|d|, i requires 0 <= i < |d| => d[i].0)
  }

  /** A key is left after dropping `ks` exactly when it is not in `ks` and
      some entry of `d` has it. */
  lemma DroppedKeys(d: Dict, ks: set<string>, k: string)
    ensures k in Keys(DropKeys(d, ks)) <==> k !in ks && exists x :: x in d && x.0 == k
  {
    var a := DropKeys(d, ks);
    if k in Keys(a) {
      var i :| 0 <= i < |a| && Keys(a)[i] == k;
      assert a[i] in a;
      DropKeysSpec(d, ks, a[i]);
    }
    if k !in ks && exists x :: x in d && x.0 == k {
      var x :| x in d && x.0 == k;
      DropKeysSpec(d, ks, x);
      var i :| 0 <= i < |a| && a[i] == x;
      assert Keys(a)[i] == k;
    }
  }

  /** The keys of both maps once the phage genera are dropped, sorted and
      without repeats: the species axis of the comparison. */
  method Species(dkrk: Dict, ddrg: Dict, phages: set<string>) returns (species: seq<string>)
    ensures KrkTax.StrictlySorted(species)
    ensures forall k :: k in species <==>
      k !in phages && ((exists x :: x in dkrk && x.0 == k) || (exists x :: x in ddrg && x.0 == k))
  {
    var ka := Keys(DropKeys(dkrk, phages));
    var kb := Keys(DropKeys(ddrg, phages));
    species := KrkTax.SortedDistinct(ka + kb);
    forall k ensures k in species <==>
      k !in phages && ((exists x :: x in dkrk && x.0 == k) || (exists x :: x in ddrg && x.0 == k))
    {
      assert k in species <==> k in Elems(species);
      assert k in ka + kb <==> k in Elems(ka + kb);
      assert k in ka + kb <==> k in ka || k in kb;
      DroppedKeys(dkrk, phages, k);
      DroppedKeys(ddrg, phages, k);
    }
  }

  // ---------------------------------------------------------------------
  // Phage genera: walking up the kraken taxonomy

  type Taxonomy = map<string, KrkTax.TaxEntry>

  predicate SpeciesOrGenus(level: string)
    requires level != ""
  {
    level[0] == 'S' || level[0] == 'G'
  }

  /** A walk starting point: a species or genus whose name mentions a phage. */
  predicate IsPhage(e: KrkTax.TaxEntry) {
    e.level != "" && SpeciesOrGenus(e.level) && Contains(ToLower(e.name), "phage")
  }

  /** The walk goes on from `p`: an entry that is not a genus but whose level
      starts with S or G. */
  predicate Continues(d: Taxonomy, p: string) {
    p in d && d[p].level != "G" && d[p].level != "" && SpeciesOrGenus(d[p].level)
  }

  /** How the walk ends at `p`: the name of a genus, None at a level that
      is neither species nor genus, or the KeyError or IndexError Python
      raises. */
  function Outcome(d: Taxonomy, p: string): Result<Option<string>, DragenError>
    requires !Continues(d, p)
  {
    if p !in d then Err(KeyError(p))
    else if d[p].level == "G" then Ok(Some(d[p].name))
    else if d[p].level == "" then Err(IndexError)
    else Ok(None)
  }

  /** A path of the walk from `s`: each step leaves a continuing entry for
      its parent. */
  predicate IsWalk(d: Taxonomy, s: string, path: seq<string>) {
    |path| >= 1 && path[0] == s &&
    forall i :: 0 <= i < |path| - 1 ==> Continues(d, path[i]) && path[i + 1] == d[path[i]].parent
  }

  /** The walk from `s` ends with `o`. */
  ghost predicate Ends(d: Taxonomy, s: string, o: Result<Option<string>, DragenError>) {
    exists path :: IsWalk(d, s, path) && !Continues(d, path[|path| - 1]) && Outcome(d, path[|path| - 1]) == o
  }

  /** Parents rank below children along continuing entries, so the walk
      ends. The source has no such guard: on a cycle of species it loops. */
  ghost predicate ParentRanked(d: Taxonomy, h: map<string, nat>) {
    forall k :: Continues(d, k) ==> k in h && (d[k].parent in d ==> d[k].parent in h && h[d[k].parent] < h[k])
  }

  /** The while/else loop of load_phage_genera for one starting point. */
  method WalkToGenus(d: Taxonomy, s: string) returns (r: Result<Option<string>, DragenError>)
    requires exists h :: ParentRanked(d, h)
    ensures Ends(d, s, r)
  {
    ghost var h :| ParentRanked(d, h);
    var p := s;
    ghost var path := [s];
    while true
      invariant IsWalk(d, s, path) && path[|path| - 1] == p
      decreases if p in d && p in h then h[p] + 1 else 0
    {
      if p !in d {
        return Err(KeyError(p));
      }
      if d[p].level == "G" {
        return Ok(Some(d[p].name));
      }
      if d[p].level == "" {
        return Err(IndexError);
      }
      if !SpeciesOrGenus(d[p].level) {
        return Ok(None);
      }
      p := d[p].parent;
      path := path + [p];
    }
  }

  /** The walk is deterministic: it has one outcome. */
  lemma {:induction false} WalksAgree(d: Taxonomy, s: string, p1: seq<string>, p2: seq<string>)
    requires IsWalk(d, s, p1) && !Continues(d, p1[|p1| - 1])
    requires IsWalk(d, s, p2) && !Continues(d, p2[|p2| - 1])
    ensures p1 == p2
    decreases |p1|
  {
    if |p1| > 1 && |p2| > 1 {
      var t := d[s].parent;
      assert IsWalk(d, t, p1[1..]) by {
        forall i | 0 <= i < |p1[1..]| - 1 ensures Continues(d, p1[1..][i]) && p1[1..][i + 1] == d[p1[1..][i]].parent {
          assert p1[1..][i] == p1[i + 1] && p1[1..][i + 1] == p1[i + 2];
        }
      }
      assert IsWalk(d, t, p2[1..]) by {
        forall i | 0 <= i < |p2[1..]| - 1 ensures Continues(d, p2[1..][i]) && p2[1..][i + 1] == d[p2[1..][i]].parent {
          assert p2[1..][i] == p2[i + 1] && p2[1..][i + 1] == p2[i + 2];
        }
      }
      WalksAgree(d, t, p1[1..], p2[1..]);
      assert p1 == [s] + p1[1..] && p2 == [s] + p2[1..];
    }
  }

  lemma EndsUnique(d: Taxonomy, s: string, o1: Result<Option<string>, DragenError>, o2: Result<Option<string>, DragenError>)
    requires Ends(d, s, o1) && Ends(d, s, o2)
    ensures o1 == o2
  {
    var p1 :| IsWalk(d, s, p1) && !Continues(d, p1[|p1| - 1]) && Outcome(d, p1[|p1| - 1]) == o1;
    var p2 :| IsWalk(d, s, p2) && !Continues(d, p2[|p2| - 1]) && Outcome(d, p2[|p2| - 1]) == o2;
    WalksAgree(d, s, p1, p2);
  }

  /** The keys of `ks` that are phage starting points, in order. */
  function PhageKeys(d: Taxonomy, ks: seq<string>): (r: seq<string>)
    requires forall k :: k in ks ==> k in d && d[k].level != ""
    ensures forall k :: k in r <==> k in ks && IsPhage(d[k])
  {
    if ks == [] then []
    else
      var n := |ks| - 1;
      assert ks == ks[..n] + [ks[n]];
      PhageKeys(d, ks[..n]) + (if IsPhage(d[ks[n]]) then [ks[n]] else [])
  }

  /** Every entry has a level, so its first character can be read. */
  predicate AllLeveled(d: Taxonomy) {
    forall k :: k in d ==> d[k].level != ""
  }

  /** The first loop of load_phage_genera: every level's first character
      is read, so an empty level anywhere is an IndexError; the phages are
      collected in the order of the keys. */
  method PhageStarts(d: Taxonomy, order: seq<string>) returns (r: Result<seq<string>, DragenError>)
    requires Elems(order) == d.Keys
    ensures r.Err? <==> !AllLeveled(d)
    ensures r.Err? ==> r.error == IndexError
    ensures r.Ok? ==> forall k :: k in r.value <==> k in d && IsPhage(d[k])
  {
    var phages: seq<string> := [];
    for i := 0 to |order|
      invariant forall j :: 0 <= j < i ==> order[j] in d && d[order[j]].level != ""
      invariant phages == PhageKeys(d, order[..i])
    {
      assert order[i] in Elems(order);
      assert order[..i + 1] == order[..i] + [order[i]];
      if d[order[i]].level == "" {
        return Err(IndexError);
      }
      if IsPhage(d[order[i]]) {
        phages := phages + [order[i]];
      }
    }
    assert order[..|order|] == order;
    forall k | k in d ensures d[k].level != "" {
      assert k in Elems(order);
    }
    r := Ok(phages);
  }

  /** `outs[j]` is the outcome of the walk from `phages[j]`, and none raised. */
  ghost predicate Walked(d: Taxonomy, phages: seq<string>, outs: seq<Result<Option<string>, DragenError>>) {
    |outs| <= |phages| && forall j :: 0 <= j < |outs| ==> outs[j].Ok? && Ends(d, phages[j], outs[j])
  }

  lemma WalkedStep(d: Taxonomy, phages: seq<string>, outs: seq<Result<Option<string>, DragenError>>, w: Result<Option<string>, DragenError>)
    requires Walked(d, phages, outs) && |outs| < |phages|
    requires w.Ok? && Ends(d, phages[|outs|], w)
    ensures Walked(d, phages, outs + [w])
  {
  }

  lemma WalkedOutcomes(d: Taxonomy, phages: seq<string>, outs: seq<Result<Option<string>, DragenError>>)
    requires Walked(d, phages, outs) && |outs| == |phages|
    ensures forall j, o :: 0 <= j < |phages| && Ends(d, phages[j], o) ==> o.Ok? && o == outs[j]
  {
    forall j, o | 0 <= j < |phages| && Ends(d, phages[j], o) ensures o == outs[j] {
      EndsUnique(d, phages[j], o, outs[j]);
    }
  }

  /** The second loop of load_phage_genera: each phage walked to its genus,
      the first walk that raises ending the loop. */
  method GeneraOf(d: Taxonomy, phages: seq<string>) returns (r: Result<set<string>, DragenError>)
    requires exists h :: ParentRanked(d, h)
    ensures r.Ok? ==> forall n :: n in r.value <==> exists j :: 0 <= j < |phages| && Ends(d, phages[j], Ok(Some(n)))
    ensures r.Ok? ==> forall j, o :: 0 <= j < |phages| && Ends(d, phages[j], o) ==> o.Ok?
    ensures r.Err? ==> exists j :: 0 <= j < |phages| && Ends(d, phages[j], Err(r.error))
  {
    var genera: set<string> := {};
    ghost var outs: seq<Result<Option<string>, DragenError>> := [];
    for i := 0 to |phages|
      invariant |outs| == i && Walked(d, phages, outs)
      invariant forall n :: n in genera <==> exists j :: 0 <= j < i && outs[j] == Ok(Some(n))
    {
      var w := WalkToGenus(d, phages[i]);
      if w.Err? {
        assert Ends(d, phages[i], Err(w.error));
        return Err(w.error);
      }
      ghost var genera0 := genera;
      if w.value.Some? {
        genera := genera + {w.value.value};
      }
      WalkedStep(d, phages, outs, w);
      outs := outs + [w];
      forall n ensures n in genera <==> exists j :: 0 <= j < i + 1 && outs[j] == Ok(Some(n)) {
        assert n in genera <==> n in genera0 || w == Ok(Some(n));
        if n in genera0 {
          var j :| 0 <= j < i && outs[j] == Ok(Some(n));
          assert outs[j] == Ok(Some(n));
        }
      }
    }
    WalkedOutcomes(d, phages, outs);
    r := Ok(genera);
  }

  /** load_phage_genera without reading the file. The dictionary is `d`,
      visited in the order `order` of its keys. */
  method LoadPhageGenera(d: Taxonomy, order: seq<string>) returns (r: Result<set<string>, DragenError>)
    requires NoDuplicates(order) && Elems(order) == d.Keys
    requires exists h :: ParentRanked(d, h)
    ensures !AllLeveled(d) ==> r == Err(IndexError)
    ensures r.Ok? ==> AllLeveled(d)
    ensures r.Ok? ==> forall n :: n in r.value <==> exists k :: k in d && IsPhage(d[k]) && Ends(d, k, Ok(Some(n)))
    ensures r.Ok? ==> forall k, o :: k in d && IsPhage(d[k]) && Ends(d, k, o) ==> o.Ok?
    ensures r.Err? && r.error != IndexError ==> AllLeveled(d)
    ensures r.Err? && r.error != IndexError ==> exists k :: k in d && IsPhage(d[k]) && Ends(d, k, Err(r.error))
  {
    var starts := PhageStarts(d, order);
    if starts.Err? {
      return Err(IndexError);
    }
    var phages := starts.value;
    r := GeneraOf(d, phages);
    if r.Ok? {
      forall n ensures n in r.value <==> exists k :: k in d && IsPhage(d[k]) && Ends(d, k, Ok(Some(n))) {
        if n in r.value {
          ghost var j :| 0 <= j < |phages| && Ends(d, phages[j], Ok(Some(n)));
          assert phages[j] in phages;
        }
        if exists k :: k in d && IsPhage(d[k]) && Ends(d, k, Ok(Some(n))) {
          var k :| k in d && IsPhage(d[k]) && Ends(d, k, Ok(Some(n)));
          var j :| 0 <= j < |phages| && phages[j] == k;
        }
      }
      forall k, o | k in d && IsPhage(d[k]) && Ends(d, k, o) ensures o.Ok? {
        var j :| 0 <= j < |phages| && phages[j] == k;
      }
    } else {
      ghost var j :| 0 <= j < |phages| && Ends(d, phages[j], Err(r.error));
      assert phages[j] in phages;
    }
  }
}
