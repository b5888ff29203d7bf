/**
 * coverage_plot2.py's load_data: the per-species coverage vectors of many
 * `*.cov.json` files folded into one dictionary, each vector summed element by
 * element with the shorter side counting as zero-padded.
 *
 * A file is its parsed JSON object, a map from species to a vector of
 * non-negative counts (array('Q') refuses negative numbers). The dictionary
 * built is a map variable that the loops reassign.
 */
module CoveragePlot2 {
  import opened Seqs
  import opened Padded

  /** The vectors that `files` hold for key `k`, in file order. */
  function VectorsOf(files: seq<map<string, seq<nat>>>, k: string): seq<seq<int>> {
    if files == [] then []
    else
      var last := files[|files| - 1];
      VectorsOf(files[..|files| - 1], k) + Held(last, k)
  }

  /** The vector `j` holds for `k`, as a list of zero or one vectors. */
  function Held(j: map<string, seq<nat>>, k: string): seq<seq<int>> {
    if k in j then var v: seq<int> := j[k]; [v] else []
  }

  /** The keys of all of `files`. */
  function AllKeys(files: seq<map<string, seq<nat>>>): set<string> {
    if files == [] then {} else AllKeys(files[..|files| - 1]) + files[|files| - 1].Keys
  }

  /** A key has vectors exactly when some file holds it. */
  lemma {:induction false} VectorsOfEmpty(files: seq<map<string, seq<nat>>>, k: string)
    ensures VectorsOf(files, k) == [] <==> k !in AllKeys(files)
  {
    if files != [] {
      VectorsOfEmpty(files[..|files| - 1], k);
    }
  }

  /** A key is in AllKeys exactly when some file holds it. */
  lemma {:induction false} AllKeysSpec(files: seq<map<string, seq<nat>>>, k: string)
    ensures k in AllKeys(files) <==> exists f :: 0 <= f < |files| && k in files[f]
  {
    if files != [] {
      var init := files[..|files| - 1];
      AllKeysSpec(init, k);
      if k in AllKeys(init) {
        var f :| 0 <= f < |init| && k in init[f];
        assert files[f] == init[f];
      }
      if exists f :: 0 <= f < |files| && k in files[f] {
        var f :| 0 <= f < |files| && k in files[f];
        if f < |init| {
          assert init[f] == files[f];
        }
      }
    }
  }

  /** The accumulation of one vector into a stored one: the stored vector is
      zero-extended to the incoming length when shorter, then element i grows
      by v[i]. */
  method AddInto(dk: seq<int>, v: seq<nat>) returns (r: seq<int>)
    ensures IsPadSum(r, dk, v)
  {
    r := dk;
    if |r| < |v| {
      var dif := |v| - |r|;
      r := r + Zeros(dif);
    }
    for i := 0 to |v|
      invariant |r| == Max(|dk|, |v|)
      invariant forall k :: 0 <= k < |r| ==> r[k] == At(dk, k) + (if k < i then v[k] else 0)
    {
      r := r[i := r[i] + v[i]];
    }
  }

  /** `d` holds, for every key of `files`, the padded total of its vectors. */
  predicate Loaded(d: map<string, seq<int>>, files: seq<map<string, seq<nat>>>) {
    d.Keys == AllKeys(files) && forall k :: k in d ==> IsTotal(d[k], VectorsOf(files, k))
  }

  lemma VectorsOfSnoc(files: seq<map<string, seq<nat>>>, j: map<string, seq<nat>>, k: string)
    ensures VectorsOf(files + [j], k) == VectorsOf(files, k) + Held(j, k)
  {
    assert (files + [j])[..|files|] == files;
  }

  /** `d` is `d0` with the keys `done` of file `j` already folded in. */
  predicate Partial(d: map<string, seq<int>>, d0: map<string, seq<int>>,
                    files: seq<map<string, seq<nat>>>, j: map<string, seq<nat>>, done: set<string>) {
    done <= j.Keys && d.Keys == d0.Keys + done &&
    (forall k :: k in d && k !in done ==> d[k] == d0[k]) &&
    (forall k :: k in done ==> IsTotal(d[k], VectorsOf(files + [j], k)))
  }

  lemma PartialStep(d: map<string, seq<int>>, d0: map<string, seq<int>>,
                    files: seq<map<string, seq<nat>>>, j: map<string, seq<nat>>, done: set<string>,
                    k: string, v: seq<int>)
    requires Partial(d, d0, files, j, done) && k in j && k !in done
    requires IsTotal(v, VectorsOf(files + [j], k))
    ensures Partial(d[k := v], d0, files, j, done + {k})
  {
  }

  lemma PartialDone(d: map<string, seq<int>>, d0: map<string, seq<int>>,
                    files: seq<map<string, seq<nat>>>, j: map<string, seq<nat>>)
    requires Loaded(d0, files) && Partial(d, d0, files, j, j.Keys)
    ensures Loaded(d, files + [j])
  {
    assert (files + [j])[..|files|] == files;
    assert AllKeys(files + [j]) == AllKeys(files) + j.Keys;
    forall k | k in d ensures IsTotal(d[k], VectorsOf(files + [j], k)) {
      if k !in j.Keys {
        VectorsOfSnoc(files, j, k);
        assert Held(j, k) == [];
        assert VectorsOf(files + [j], k) == VectorsOf(files, k);
        assert d[k] == d0[k];
      }
    }
  }

  /** One file folded into the dictionary: the inner loop of load_data. */
  method LoadFile(d0: map<string, seq<int>>, j: map<string, seq<nat>>, ghost files: seq<map<string, seq<nat>>>)
    returns (d: map<string, seq<int>>)
    requires Loaded(d0, files)
    ensures Loaded(d, files + [j])
  {
    d := d0;
    var todo := j.Keys;
    while todo != {}
      invariant todo <= j.Keys
      invariant Partial(d, d0, files, j, j.Keys - todo)
      decreases todo
    {
      var k :| k in todo;
      var v := j[k];
      VectorsOfSnoc(files, j, k);
      if k !in d {
        VectorsOfEmpty(files, k);
        TotalSingle(v);
        PartialStep(d, d0, files, j, j.Keys - todo, k, v);
        d := d[k := v];
      } else {
        var dk := AddInto(d[k], v);
        TotalSnoc(d[k], VectorsOf(files, k), v, dk);
        PartialStep(d, d0, files, j, j.Keys - todo, k, dk);
        d := d[k := dk];
      }
      assert j.Keys - (todo - {k}) == (j.Keys - todo) + {k};
      todo := todo - {k};
    }
    PartialDone(d, d0, files, j);
  }

  /** load_data over already parsed files: the keys are the union of the
      files' keys, and each key's vector is as long as its longest vector,
      element i the sum over the files of their element i (0 past a file's
      end). */
  method LoadData(files: seq<map<string, seq<nat>>>) returns (d: map<string, seq<int>>)
    ensures Loaded(d, files)
  {
    d := map[];
    for f := 0 to |files|
      invariant Loaded(d, files[..f])
    {
      assert files[..f + 1] == files[..f] + [files[f]];
      d := LoadFile(d, files[f], files[..f]);
    }
    assert files[..|files|] == files;
  }

  /** The result's keys are exactly those some file holds. */
  lemma LoadedKeys(d: map<string, seq<int>>, files: seq<map<string, seq<nat>>>, k: string)
    requires Loaded(d, files)
    ensures k in d <==> exists f :: 0 <= f < |files| && k in files[f]
  {
    AllKeysSpec(files, k);
  }

  /** Loaded fixes the result: two loaded dictionaries of the same files are
      equal, whatever order the keys were visited in. */
  lemma LoadedUnique(d1: map<string, seq<int>>, d2: map<string, seq<int>>, files: seq<map<string, seq<nat>>>)
    requires Loaded(d1, files) && Loaded(d2, files)
    ensures d1 == d2
  {
    forall k | k in d1 ensures d1[k] == d2[k] {
      var vs := VectorsOf(files, k);
      assert |d1[k]| == |d2[k]| == MaxLen(vs);
      assert forall i :: 0 <= i < |d1[k]| ==> d1[k][i] == Total(vs, i) == d2[k][i];
    }
  }
}
