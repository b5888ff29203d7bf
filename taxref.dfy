/** Choosing the reference genomes of the enriched taxa: every accession of
    a top species, and the enriched accessions of the other VSP2 species,
    mapped to their tax ID. */
module TaxRef {
  import opened Wrappers
  import opened Seqs
  import RefSeq

  /** The two species sets of the coverage step. */
  datatype CovSpecies = CovSpecies(top: set<string>, vsp2: set<string>)

  datatype TaxRefError = DuplicateTid(acc: string, first: string, second: string)

  // ---------------------------------------------------------------------
  // The enriched accessions

  /** The accessions listed under any key. */
  ghost function EnrichedOf(raw: map<string, seq<string>>): set<string> {
    set k, acc | k in raw && acc in raw[k] :: acc
  }

  /** The union of all accession lists, one list at a time. */
  method EnrichedAccs(raw: map<string, seq<string>>) returns (s: set<string>)
    ensures forall acc :: acc in s <==> exists k :: k in raw && acc in raw[k]
    ensures s == EnrichedOf(raw)
  {
    s := {};
    var todo := raw.Keys;
    while todo != {}
      invariant todo <= raw.Keys
      invariant forall acc :: acc in s <==> exists k :: k in raw && k !in todo && acc in raw[k]
      decreases |todo|
    {
      var k :| k in todo;
      s := s + Elems(raw[k]);
      todo := todo - {k};
    }
  }

  // ---------------------------------------------------------------------
  // The (accession, tax ID) assignments, in map iteration order

  /** The accessions of one list that get assigned: all of them for a top
      species, the enriched ones otherwise. */
  function SelAccs(tid: string, accs: seq<string>, top: set<string>, enriched: set<string>): seq<(string, string)> {
    if accs == [] then []
    else
      var n := |accs| - 1;
      SelAccs(tid, accs[..n], top, enriched) +
        (if tid in top || accs[n] in enriched then [(accs[n], tid)] else [])
  }

  /** The assignments of one tax ID; none when it is in neither set. */
  function SelEntry(e: (string, seq<string>), cov: CovSpecies, enriched: set<string>): seq<(string, string)> {
    if e.0 !in cov.top && e.0 !in cov.vsp2 then [] else SelAccs(e.0, e.1, cov.top, enriched)
  }

  /** All assignments, over the entries in the order visited. */
  function Selected(es: seq<(string, seq<string>)>, cov: CovSpecies, enriched: set<string>): seq<(string, string)> {
    if es == [] then []
    else
      var n := |es| - 1;
      Selected(es[..n], cov, enriched) + SelEntry(es[n], cov, enriched)
  }

  /** The tax IDs given to some accession. */
  function TidsOf(ps: seq<(string, string)>): set<string> {
    if ps == [] then {}
    else
      var n := |ps| - 1;
      TidsOf(ps[..n]) + {ps[n].1}
  }

  lemma {:induction false} TidsOfSpec(ps: seq<(string, string)>, t: string)
    ensures t in TidsOf(ps) <==> exists i :: 0 <= i < |ps| && ps[i].1 == t
  {
    if ps != [] {
      var n := |ps| - 1;
      TidsOfSpec(ps[..n], t);
      if exists i :: 0 <= i < |ps| && ps[i].1 == t {
        var i :| 0 <= i < |ps| && ps[i].1 == t;
        if i < n {
          assert ps[..n][i] == ps[i];
        }
      }
      if exists i :: 0 <= i < n && ps[..n][i].1 == t {
        var i :| 0 <= i < n && ps[..n][i].1 == t;
        assert ps[i] == ps[..n][i];
      }
    }
  }

  /** An accession of a list is assigned exactly when its tax ID is a top
      species, or is a VSP2 species and the accession is enriched. */
  lemma {:induction false} SelAccsSpec(tid: string, accs: seq<string>, top: set<string>, enriched: set<string>, p: (string, string))
    ensures p in SelAccs(tid, accs, top, enriched) <==>
      p.1 == tid && p.0 in accs && (tid in top || p.0 in enriched)
  {
    if accs != [] {
      var n := |accs| - 1;
      SelAccsSpec(tid, accs[..n], top, enriched, p);
      assert accs == accs[..n] + [accs[n]];
    }
  }

  lemma {:induction false} SelectedSpec(es: seq<(string, seq<string>)>, cov: CovSpecies, enriched: set<string>, p: (string, string))
    ensures p in Selected(es, cov, enriched) <==>
      exists i :: (0 <= i < |es| && es[i].0 == p.1 && p.0 in es[i].1 &&
                   (p.1 in cov.top || (p.1 in cov.vsp2 && p.0 in enriched)))
  {
    if es != [] {
      var n := |es| - 1;
      SelectedSpec(es[..n], cov, enriched, p);
      SelAccsSpec(es[n].0, es[n].1, cov.top, enriched, p);
      if exists i :: (0 <= i < |es| && es[i].0 == p.1 && p.0 in es[i].1 &&
                      (p.1 in cov.top || (p.1 in cov.vsp2 && p.0 in enriched))) {
        var i :| 0 <= i < |es| && es[i].0 == p.1 && p.0 in es[i].1 &&
                 (p.1 in cov.top || (p.1 in cov.vsp2 && p.0 in enriched));
        if i < n {
          assert es[..n][i] == es[i];
        }
      }
      if exists i :: (0 <= i < n && es[..n][i].0 == p.1 && p.0 in es[..n][i].1 &&
                      (p.1 in cov.top || (p.1 in cov.vsp2 && p.0 in enriched))) {
        var i :| 0 <= i < n && es[..n][i].0 == p.1 && p.0 in es[..n][i].1 &&
                 (p.1 in cov.top || (p.1 in cov.vsp2 && p.0 in enriched));
        assert es[i] == es[..n][i];
      }
    }
  }

  lemma {:induction false} SelAccsPrefix(tid: string, accs: seq<string>, top: set<string>, enriched: set<string>, k: nat)
    requires k <= |accs|
    ensures SelAccs(tid, accs[..k], top, enriched) <= SelAccs(tid, accs, top, enriched)
    decreases |accs| - k
  {
    if k < |accs| {
      SelAccsPrefix(tid, accs, top, enriched, k + 1);
      assert accs[..k + 1][..k] == accs[..k];
    } else {
      assert accs[..k] == accs;
    }
  }

  lemma {:induction false} SelectedPrefix(es: seq<(string, seq<string>)>, cov: CovSpecies, enriched: set<string>, i: nat)
    requires i <= |es|
    ensures Selected(es[..i], cov, enriched) <= Selected(es, cov, enriched)
    decreases |es| - i
  {
    if i < |es| {
      SelectedPrefix(es, cov, enriched, i + 1);
      assert es[..i + 1][..i] == es[..i];
    } else {
      assert es[..i] == es;
    }
  }

  /** What has been assigned before visiting accession `k` of entry `i`
      starts the whole assignment sequence. */
  lemma InnerPrefix(es: seq<(string, seq<string>)>, cov: CovSpecies, enriched: set<string>, i: nat, k: nat)
    requires i < |es| && k <= |es[i].1| && (es[i].0 in cov.top || es[i].0 in cov.vsp2)
    ensures Selected(es[..i], cov, enriched) + SelAccs(es[i].0, es[i].1[..k], cov.top, enriched) <= Selected(es, cov, enriched)
  {
    SelectedPrefix(es, cov, enriched, i + 1);
    assert es[..i + 1][..i] == es[..i];
    SelAccsPrefix(es[i].0, es[i].1, cov.top, enriched, k);
  }

  lemma FlaggedIn(ps: seq<(string, string)>, qs: seq<(string, string)>, acc: string)
    requires ps <= qs && acc in RefSeq.Flagged(ps)
    ensures acc in RefSeq.Flagged(qs)
  {
    assert qs[..|ps|] == ps;
    RefSeq.FlaggedPrefix(qs, |ps|);
  }

  /** An accession selected at position `k` that is already assigned stays
      flagged once the rest of the list is selected. */
  lemma ConflictFlagged(before: seq<(string, string)>, tid: string, accs: seq<string>, top: set<string>,
                        enriched: set<string>, k: nat)
    requires k < |accs| && (tid in top || accs[k] in enriched)
    requires accs[k] in RefSeq.Flagged(before + SelAccs(tid, accs[..k], top, enriched) + [(accs[k], tid)])
    ensures accs[k] in RefSeq.Flagged(before + SelAccs(tid, accs, top, enriched))
  {
    var ps := before + SelAccs(tid, accs[..k], top, enriched) + [(accs[k], tid)];
    SelAccsStep(tid, accs, top, enriched, k);
    SelAccsPrefix(tid, accs, top, enriched, k + 1);
    PrefixExtend(before, SelAccs(tid, accs[..k + 1], top, enriched), SelAccs(tid, accs, top, enriched));
    assert ps == before + SelAccs(tid, accs[..k + 1], top, enriched);
    FlaggedIn(ps, before + SelAccs(tid, accs, top, enriched), accs[k]);
  }

  lemma PrefixExtend<T>(pre: seq<T>, a: seq<T>, b: seq<T>)
    requires a <= b
    ensures pre + a <= pre + b
  {
    assert (pre + b)[..|pre + a|] == pre + a;
  }

  /** The mapping and the found tax IDs after the assignments `ps`, none of
      which raised an error. */
  predicate Mapped(mapping: map<string, string>, found: set<string>, ps: seq<(string, string)>) {
    mapping == RefSeq.Assigned(ps) && RefSeq.Flagged(ps) == {} && found == TidsOf(ps)
  }

  lemma MappedStep(m: map<string, string>, found: set<string>, ps: seq<(string, string)>, p: (string, string))
    requires Mapped(m, found, ps) && RefSeq.Lookup(m, p.0) == ""
    ensures Mapped(m[p.0 := p.1], found + {p.1}, ps + [p])
  {
    RefSeq.AssignStep(ps, p);
    assert (ps + [p])[..|ps|] == ps;
  }

  lemma SelectedStep(es: seq<(string, seq<string>)>, cov: CovSpecies, enriched: set<string>, i: nat)
    requires i < |es|
    ensures Selected(es[..i + 1], cov, enriched) == Selected(es[..i], cov, enriched) + SelEntry(es[i], cov, enriched)
  {
    assert es[..i + 1][..i] == es[..i];
  }

  lemma SelAccsStep(tid: string, accs: seq<string>, top: set<string>, enriched: set<string>, k: nat)
    requires k < |accs|
    ensures SelAccs(tid, accs[..k + 1], top, enriched) ==
      SelAccs(tid, accs[..k], top, enriched) + (if tid in top || accs[k] in enriched then [(accs[k], tid)] else [])
  {
    assert accs[..k + 1][..k] == accs[..k];
  }

  /** The nested loop of main: each selected accession gets its tax ID,
      which is marked found; an accession that already holds a non-empty
      tax ID is an error. The entries are tid2nc in the order Go's map
      iteration happens to visit it. */
  method Assign(es: seq<(string, seq<string>)>, cov: CovSpecies, enriched: set<string>)
    returns (r: Result<(map<string, string>, set<string>), TaxRefError>)
    ensures r.Ok? <==> RefSeq.Flagged(Selected(es, cov, enriched)) == {}
    ensures r.Ok? ==> r.value.0 == RefSeq.Assigned(Selected(es, cov, enriched)) &&
                      r.value.1 == TidsOf(Selected(es, cov, enriched))
    ensures r.Err? ==> r.error.acc in RefSeq.Flagged(Selected(es, cov, enriched)) && r.error.first != ""
  {
    var mapping: map<string, string> := map[];
    var foundTIDs: set<string> := {};
    for i := 0 to |es|
      invariant Mapped(mapping, foundTIDs, Selected(es[..i], cov, enriched))
    {
      SelectedStep(es, cov, enriched, i);
      var (tid, accs) := es[i];
      if tid !in cov.top && tid !in cov.vsp2 {
        assert Selected(es[..i + 1], cov, enriched) == Selected(es[..i], cov, enriched);
        continue;
      }
      assert Selected(es[..i + 1], cov, enriched) == Selected(es[..i], cov, enriched) + SelAccs(tid, accs, cov.top, enriched);
      var res := AssignList(mapping, foundTIDs, Selected(es[..i], cov, enriched), tid, accs, cov.top, enriched);
      if res.Err? {
        InnerPrefix(es, cov, enriched, i, |accs|);
        assert accs[..|accs|] == accs;
        FlaggedIn(Selected(es[..i + 1], cov, enriched), Selected(es, cov, enriched), res.error.acc);
        return Err(res.error);
      }
      mapping, foundTIDs := res.value.0, res.value.1;
      assert Mapped(mapping, foundTIDs, Selected(es[..i + 1], cov, enriched));
    }
    assert es[..|es|] == es;
    r := Ok((mapping, foundTIDs));
  }

  /** The inner loop, over the accessions of one tax ID. */
  method AssignList(mapping: map<string, string>, foundTIDs: set<string>, ghost before: seq<(string, string)>,
                    tid: string, accs: seq<string>, top: set<string>, enriched: set<string>)
    returns (r: Result<(map<string, string>, set<string>), TaxRefError>)
    requires Mapped(mapping, foundTIDs, before)
    ensures r.Ok? <==> RefSeq.Flagged(before + SelAccs(tid, accs, top, enriched)) == {}
    ensures r.Ok? ==> r.value.0 == RefSeq.Assigned(before + SelAccs(tid, accs, top, enriched)) &&
                      r.value.1 == TidsOf(before + SelAccs(tid, accs, top, enriched))
    ensures r.Err? ==> r.error.acc in RefSeq.Flagged(before + SelAccs(tid, accs, top, enriched)) && r.error.first != ""
  {
    var m := mapping;
    var found := foundTIDs;
    ghost var cur := before;
    for k := 0 to |accs|
      invariant cur == before + SelAccs(tid, accs[..k], top, enriched)
      invariant Mapped(m, found, cur)
    {
      SelAccsStep(tid, accs, top, enriched, k);
      var acc := accs[k];
      if tid !in top && acc !in enriched {
        assert SelAccs(tid, accs[..k + 1], top, enriched) == SelAccs(tid, accs[..k], top, enriched);
        continue;
      }
      if RefSeq.Lookup(m, acc) != "" {
        RefSeq.AssignStep(cur, (acc, tid));
        ConflictFlagged(before, tid, accs, top, enriched, k);
        return Err(DuplicateTid(acc, m[acc], tid));
      }
      MappedStep(m, found, cur, (acc, tid));
      m := m[acc := tid];
      found := found + {tid};
      cur := cur + [(acc, tid)];
      assert cur == before + SelAccs(tid, accs[..k + 1], top, enriched);
    }
    assert accs[..|accs|] == accs;
    r := Ok((m, found));
  }

  /** When no error is raised, every selected accession maps to the tax ID
      it was selected under, unless that tax ID is empty. */
  lemma MappedSpec(es: seq<(string, seq<string>)>, cov: CovSpecies, enriched: set<string>, acc: string, tid: string)
    requires RefSeq.Flagged(Selected(es, cov, enriched)) == {}
    requires (acc, tid) in Selected(es, cov, enriched) && tid != ""
    ensures acc in RefSeq.Assigned(Selected(es, cov, enriched))
    ensures RefSeq.Assigned(Selected(es, cov, enriched))[acc] == tid
  {
    var ps := Selected(es, cov, enriched);
    var i :| 0 <= i < |ps| && ps[i] == (acc, tid);
    RefSeq.AssignedSpec(ps, acc);
    RefSeq.FlaggedSpec(ps, acc);
    var j :| 0 <= j < |ps| && ps[j] == (acc, RefSeq.Assigned(ps)[acc]) && forall m :: j < m < |ps| ==> ps[m].0 != acc;
    assert i == j;
  }

  /** main without the file I/O and printing: the accession to tax ID
      mapping, and the top and VSP2 species that received no accession. The
      order is the iteration order of tid2nc, a permutation of its keys. */
  method Run(tid2nc: map<string, seq<string>>, order: seq<string>, enrichedRaw: map<string, seq<string>>, cov: CovSpecies)
    returns (r: Result<(map<string, string>, set<string>, set<string>), TaxRefError>)
    requires NoDuplicates(order) && Elems(order) == tid2nc.Keys
    ensures var es := seq(|order|, i requires 0 <= i < |order| => (order[i], tid2nc[order[i]]));
      var sel := Selected(es, cov, EnrichedOf(enrichedRaw));
      (r.Ok? <==> RefSeq.Flagged(sel) == {}) &&
      (r.Ok? ==> r.value.0 == RefSeq.Assigned(sel) && r.value.1 == cov.top - TidsOf(sel) &&
                 r.value.2 == cov.vsp2 - TidsOf(sel))
  {
    var enriched := EnrichedAccs(enrichedRaw);
    var es := seq(|order|, i requires 0 <= i < |order| => (order[i], tid2nc[order[i]]));
    var a := Assign(es, cov, enriched);
    if a.Err? {
      return Err(a.error);
    }
    var (mapping, found) := a.value;
    r := Ok((mapping, cov.top - found, cov.vsp2 - found));
  }
}
