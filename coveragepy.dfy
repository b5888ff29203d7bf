/**
 * coverage.py: the helpers behind the coverage plots of the summed
 * `*.covs.json` files. Species names come from file names, group vectors are
 * NumPy arrays summed in place, and the inputs of Kendall's tau are the
 * positions where either vector is non-zero.
 *
 * A NumPy array is a Dafny `array<int>`, so that the in-place `+=` of mysum
 * and the aliasing it causes are visible; Python's None is `None`.
 */
module CoveragePy {
  import opened Wrappers
  import opened Strs
  import opened Seqs
  import opened Padded
  import SampleNaming

  // ---------------------------------------------------------------------
  // Species names

  /** extract_species: the base name with ".json", ".cov" and ".nz" each
      removed at most once, in that order. */
  function ExtractSpecies(f: string): (r: string)
    ensures HasPrefix(PyBasename(f), r)
  {
    TrimSuffixes(PyBasename(f), [".json", ".cov", ".nz"])
  }

  /** The per-sample input of coveragesum, dir/spc.cov.json, and its
      non-zero-share output, dir/spc.nz.json, both give back the species. */
  lemma ExtractSpeciesCovAndNz(dir: string, spc: string)
    requires '/' !in spc && '.' !in spc
    ensures ExtractSpecies(dir + "/" + spc + ".cov" + ".json") == spc
    ensures ExtractSpecies(dir + "/" + spc + ".nz" + ".json") == spc
  {
    var t := BaseOf(dir, spc, ".cov");
    TrimOff(t, ".json");
    TrimOff(spc, ".cov");
    NoDotNoSuffix(spc, ".nz");
    Unfold3(t + ".json", ".json", ".cov", ".nz");
    t := BaseOf(dir, spc, ".nz");
    TrimOff(t, ".json");
    LastDiffers(t, ".cov");
    TrimOff(spc, ".nz");
    Unfold3(t + ".json", ".json", ".cov", ".nz");
  }

  /** The base name of dir/spc + ext + ".json", as the name without ".json". */
  lemma BaseOf(dir: string, spc: string, ext: string) returns (t: string)
    requires '/' !in spc && ext in [".cov", ".covs", ".nz"]
    ensures t == spc + ext && PyBasename(dir + "/" + spc + ext + ".json") == t + ".json"
  {
    t := spc + ext;
    var name := t + ".json";
    assert dir + "/" + spc + ext + ".json" == dir + "/" + name;
    assert '/' !in name;
    AfterLastSlashOf(dir, name);
  }

  /** As written, the summed coverage file dir/spc.covs.json that the plots
      read gives the species key "spc.covs", not "spc". */
  lemma ExtractSpeciesKeepsCovs(dir: string, spc: string)
    requires '/' !in spc && '.' !in spc
    ensures ExtractSpecies(dir + "/" + spc + ".covs" + ".json") == spc + ".covs"
  {
    var t := BaseOf(dir, spc, ".covs");
    TrimOff(t, ".json");
    LastDiffers(t, ".cov");
    LastDiffers(t, ".nz");
    Unfold3(t + ".json", ".json", ".cov", ".nz");
  }

  /** extract_species as evidently intended: ".covs" is removed too, so the
      key matches the species named in the file name. */
  function ExtractSpeciesIntended(f: string): (r: string)
    ensures HasPrefix(PyBasename(f), r)
  {
    TrimSuffixes(PyBasename(f), [".json", ".covs", ".cov", ".nz"])
  }

  /** Each of coveragesum's file names gives back its species. */
  lemma ExtractSpeciesIntendedRoundTrip(dir: string, spc: string)
    requires '/' !in spc && '.' !in spc
    ensures ExtractSpeciesIntended(dir + "/" + spc + ".cov" + ".json") == spc
    ensures ExtractSpeciesIntended(dir + "/" + spc + ".covs" + ".json") == spc
    ensures ExtractSpeciesIntended(dir + "/" + spc + ".nz" + ".json") == spc
  {
    var t := BaseOf(dir, spc, ".cov");
    TrimOff(t, ".json");
    LastDiffers(t, ".covs");
    TrimOff(spc, ".cov");
    NoDotNoSuffix(spc, ".nz");
    Unfold4(t + ".json", ".json", ".covs", ".cov", ".nz");

    t := BaseOf(dir, spc, ".covs");
    TrimOff(t, ".json");
    TrimOff(spc, ".covs");
    NoDotNoSuffix(spc, ".cov");
    NoDotNoSuffix(spc, ".nz");
    Unfold4(t + ".json", ".json", ".covs", ".cov", ".nz");

    t := BaseOf(dir, spc, ".nz");
    TrimOff(t, ".json");
    LastDiffers(t, ".covs");
    LastDiffers(t, ".cov");
    TrimOff(spc, ".nz");
    Unfold4(t + ".json", ".json", ".covs", ".cov", ".nz");
  }

  // ---------------------------------------------------------------------
  // In-place sums (mysum, sum_species)

  /** NumPy's ValueError when the right operand of `+=` cannot be broadcast
      to the shape of the left one. */
  datatype ShapeError = ShapeMismatch(left: nat, right: nat)

  /** The arrays among `a`, in order, its None entries skipped. */
  function Present(a: seq<Option<array<int>>>): seq<array<int>> {
    if a == [] then []
    else Present(a[..|a| - 1]) + (if a[|a| - 1].Some? then [a[|a| - 1].value] else [])
  }

  lemma {:induction false} PresentAppend(a: seq<Option<array<int>>>, b: seq<Option<array<int>>>)
    ensures Present(a + b) == Present(a) + Present(b)
    decreases |b|
  {
    if b == [] {
      assert a + b == a;
    } else {
      var b' := b[..|b| - 1];
      assert (a + b)[..|a + b| - 1] == a + b';
      PresentAppend(a, b');
    }
  }

  /** Present is empty exactly when every entry is None. */
  lemma {:induction false} PresentEmpty(a: seq<Option<array<int>>>)
    ensures Present(a) == [] <==> forall j :: 0 <= j < |a| ==> a[j].None?
  {
    if a != [] {
      var init := a[..|a| - 1];
      PresentEmpty(init);
      assert forall j :: 0 <= j < |init| ==> init[j] == a[j];
    }
  }

  /** The only array mysum may change: the first present one. */
  function FirstPresent(a: seq<Option<array<int>>>): set<array<int>> {
    if Present(a) == [] then {} else {Present(a)[0]}
  }

  /** One operand of a later `+=`: None when it is the accumulator itself,
      otherwise the array's contents. */
  type Operand = Option<seq<int>>

  /** `s += w` is allowed: the operand is the accumulator, as long, or of
      length one (broadcast). */
  predicate Fits(n: nat, w: Operand) {
    w.None? || |w.value| == n || |w.value| == 1
  }

  /** The contents after `s += w`. */
  function Add1(s: seq<int>, w: Operand): (r: seq<int>)
    requires Fits(|s|, w)
    ensures |r| == |s|
    ensures forall i :: 0 <= i < |s| ==>
      r[i] == s[i] + (if w.None? then s[i] else if |w.value| == 1 then w.value[0] else w.value[i])
  {
    seq(|s|, i requires 0 <= i < |s| =>
      s[i] + (if w.None? then s[i] else if |w.value| == 1 then w.value[0] else w.value[i]))
  }

  /** The contents after `s += w` for every `w` of `ws` in turn. */
  function AddAll(s: seq<int>, ws: seq<Operand>): (r: seq<int>)
    requires forall j :: 0 <= j < |ws| ==> Fits(|s|, ws[j])
    ensures |r| == |s|
  {
    if ws == [] then s else Add1(AddAll(s, ws[..|ws| - 1]), ws[|ws| - 1])
  }

  /** The position of the first operand that does not fit, or |ws|. */
  function Misfit(n: nat, ws: seq<Operand>): (m: nat)
    ensures m <= |ws| && forall j :: 0 <= j < m ==> Fits(n, ws[j])
    ensures m < |ws| ==> !Fits(n, ws[m]) && ws[m].Some?
  {
    if ws == [] || !Fits(n, ws[0]) then 0 else 1 + Misfit(n, ws[1..])
  }

  /** The operands that `xs` supply to an accumulator `first`. */
  ghost function Snapshot(xs: seq<array<int>>, first: array<int>): (r: seq<Operand>)
    reads xs
    ensures |r| == |xs|
    ensures forall j :: 0 <= j < |xs| ==> r[j] == if xs[j] == first then None else Some(xs[j][..])
  {
    seq(|xs|, j reads xs requires 0 <= j < |xs| => if xs[j] == first then None else Some(xs[j][..]))
  }

  /** What mysum does to the arrays `p` (None entries already skipped): the
      first one's contents afterwards, and the error raised, if any. */
  ghost function Outcome(p: seq<array<int>>): (seq<int>, Option<ShapeError>)
    requires p != []
    reads p
  {
    var n := p[0].Length;
    var ws := Snapshot(p[1..], p[0]);
    var m := Misfit(n, ws);
    (AddAll(p[0][..], ws[..m]), if m < |ws| then Some(ShapeMismatch(n, |ws[m].value|)) else None)
  }

  /** `s += x` on NumPy arrays that broadcast; `x` may be `s` itself. */
  method AddInPlace(s: array<int>, x: array<int>)
    requires x == s || x.Length == s.Length || x.Length == 1
    modifies s
    ensures s[..] == Add1(old(s[..]), if x == s then None else Some(old(x[..])))
  {
    for i := 0 to s.Length
      invariant forall j :: 0 <= j < i ==>
        s[j] == old(s[j]) + (if x == s then old(s[j]) else if x.Length == 1 then old(x[0]) else old(x[j]))
      invariant forall j :: i <= j < s.Length ==> s[j] == old(s[j])
    {
      var add := if x.Length == 1 then x[0] else x[i];
      s[i] := s[i] + add;
    }
  }

  /** Present grows by the entry at `k`, when there is one. */
  lemma PresentStep(a: seq<Option<array<int>>>, k: nat)
    requires k < |a|
    ensures Present(a[..k + 1]) == Present(a[..k]) + (if a[k].Some? then [a[k].value] else [])
  {
    assert a[..k + 1] == a[..k] + [a[k]];
    PresentLast(a[..k + 1], a[..k], a[k]);
  }

  /** The arrays of a prefix of `a` are a prefix of those of `a`. */
  lemma PresentPrefix(a: seq<Option<array<int>>>, k: nat)
    requires k <= |a|
    ensures Present(a[..k]) <= Present(a)
  {
    assert a == a[..k] + a[k..];
    PresentAppend(a[..k], a[k..]);
  }

  lemma PresentLast(b: seq<Option<array<int>>>, pre: seq<Option<array<int>>>, x: Option<array<int>>)
    requires b == pre + [x]
    ensures Present(b) == Present(pre) + (if x.Some? then [x.value] else [])
  {
    assert b[..|b| - 1] == pre;
  }

  /** `cur` is the accumulator after the first `m` operands, all of which fit. */
  predicate Accumulated(cur: seq<int>, s0: seq<int>, ws: seq<Operand>, m: nat) {
    m <= |ws| && (forall j :: 0 <= j < m ==> Fits(|s0|, ws[j])) && cur == AddAll(s0, ws[..m])
  }

  lemma AccumulatedStart(cur: seq<int>, s0: seq<int>, ws: seq<Operand>)
    requires cur == s0
    ensures Accumulated(cur, s0, ws, 0)
  {
    assert ws[..0] == [];
  }

  lemma AccumulatedStep(cur: seq<int>, s0: seq<int>, ws: seq<Operand>, m: nat)
    requires Accumulated(cur, s0, ws, m) && m < |ws| && Fits(|s0|, ws[m])
    ensures Accumulated(Add1(cur, ws[m]), s0, ws, m + 1)
  {
    assert ws[..m + 1][..m] == ws[..m];
  }

  /** Misfit is the first operand that does not fit. */
  lemma {:induction false} MisfitIs(n: nat, ws: seq<Operand>, m: nat)
    requires m <= |ws| && forall j :: 0 <= j < m ==> Fits(n, ws[j])
    requires m < |ws| ==> !Fits(n, ws[m])
    ensures Misfit(n, ws) == m
  {
    if m > 0 {
      MisfitIs(n, ws[1..], m - 1);
    }
  }

  /** The state of mysum's loop after `k` entries of `a`, `n` of them
      arrays of `p`: the accumulator is the first of them, holding the
      total of the operands so far; until then the first array is untouched. */
  ghost predicate SumState(a: seq<Option<array<int>>>, p: seq<array<int>>, s0: seq<int>, ws: seq<Operand>,
                           k: nat, n: nat, acc: Option<array<int>>)
    reads p
  {
    k <= |a| && n <= |p| && Present(a[..k]) == p[..n] &&
    (acc.None? <==> n == 0) &&
    (n == 0 && p != [] ==> p[0][..] == s0) &&
    (acc.Some? ==> acc.value == p[0] && Accumulated(p[0][..], s0, ws, n - 1))
  }

  lemma SumSkip(a: seq<Option<array<int>>>, p: seq<array<int>>, s0: seq<int>, ws: seq<Operand>,
                k: nat, n: nat, acc: Option<array<int>>)
    requires SumState(a, p, s0, ws, k, n, acc) && k < |a| && a[k].None?
    ensures SumState(a, p, s0, ws, k + 1, n, acc)
  {
    PresentStep(a, k);
  }

  lemma SumFirst(a: seq<Option<array<int>>>, p: seq<array<int>>, s0: seq<int>, ws: seq<Operand>, k: nat)
    requires SumState(a, p, s0, ws, k, 0, None) && k < |a| && a[k].Some? && p == Present(a)
    ensures SumState(a, p, s0, ws, k + 1, 1, a[k])
  {
    PresentStep(a, k);
    PresentPrefix(a, k + 1);
    assert p[..1] == [a[k].value];
    AccumulatedStart(p[0][..], s0, ws);
  }

  lemma SumNext(a: seq<Option<array<int>>>, p: seq<array<int>>, s0: seq<int>, ws: seq<Operand>,
                k: nat, n: nat, s: array<int>)
    requires SumState(a, p, s0, ws, k, n, Some(s)) && k < |a| && a[k].Some? && p == Present(a)
    requires |ws| == |p| - 1
    ensures n < |p| && p[n] == a[k].value && Present(a[..k + 1]) == p[..n + 1]
    ensures s == p[0] && Accumulated(s[..], s0, ws, n - 1) && n - 1 < |ws|
  {
    PresentStep(a, k);
    PresentPrefix(a, k + 1);
    assert p[..n + 1] == p[..n] + [a[k].value];
  }

  lemma SumAdded(a: seq<Option<array<int>>>, p: seq<array<int>>, s0: seq<int>, ws: seq<Operand>, k: nat, n: nat)
    requires k < |a| && 0 < n < |p| && Present(a[..k + 1]) == p[..n + 1]
    requires Accumulated(p[0][..], s0, ws, n)
    ensures SumState(a, p, s0, ws, k + 1, n + 1, Some(p[0]))
  {
  }

  /** One `s += x` of mysum, when the shapes broadcast; `s` already holds
      the total of the first `m` operands. */
  method AddOperand(s: array<int>, x: array<int>, ghost s0: seq<int>, ghost ws: seq<Operand>, ghost m: nat) returns (fits: bool)
    requires Accumulated(s[..], s0, ws, m) && m < |ws|
    requires ws[m] == if x == s then None else Some(x[..])
    modifies s
    ensures fits <==> Fits(|s0|, ws[m])
    ensures fits ==> Accumulated(s[..], s0, ws, m + 1)
    ensures !fits ==> s[..] == old(s[..])
  {
    fits := x == s || x.Length == s.Length || x.Length == 1;
    if fits {
      AccumulatedStep(s[..], s0, ws, m);
      AddInPlace(s, x);
    }
  }

  /** mysum: None entries are skipped; with no arrays the result is None.
      Otherwise every later array is added with `+=` into the first one,
      which is changed in place and returned; a shape that does not
      broadcast raises, after the earlier additions were made. */
  method MySum(a: seq<Option<array<int>>>) returns (r: Result<Option<array<int>>, ShapeError>)
    modifies FirstPresent(a)
    ensures Present(a) == [] ==> r == Ok(None)
    ensures Present(a) != [] ==>
      var p := Present(a);
      var out := old(Outcome(p));
      p[0][..] == out.0 &&
      r == (if out.1.None? then Ok(Some(p[0])) else Err(out.1.value))
  {
    ghost var p := Present(a);
    ghost var ws: seq<Operand> := [];
    ghost var s0: seq<int> := [];
    if p != [] {
      ws := Snapshot(p[1..], p[0]);
      s0 := p[0][..];
    }
    var acc: Option<array<int>> := None;
    ghost var n := 0;
    for k := 0 to |a|
      invariant SumState(a, p, s0, ws, k, n, acc)
    {
      match a[k] {
        case None =>
          SumSkip(a, p, s0, ws, k, n, acc);
        case Some(x) =>
          if acc.None? {
            acc := Some(x);
            SumFirst(a, p, s0, ws, k);
          } else {
            var s := acc.value;
            SumNext(a, p, s0, ws, k, n, s);
            assert ws[n - 1] == if x == s then None else Some(x[..]);
            var fits := AddOperand(s, x, s0, ws, n - 1);
            if !fits {
              MisfitIs(|s0|, ws, n - 1);
              r := Err(ShapeMismatch(s.Length, x.Length));
              return;
            }
            SumAdded(a, p, s0, ws, k, n);
          }
          n := n + 1;
      }
    }
    assert a[..|a|] == a;
    r := Ok(acc);
    if p != [] {
      MisfitIs(|s0|, ws, |ws|);
      assert ws[..|ws|] == ws;
    }
  }

  /** The contents of operands that are all other arrays. */
  function Contents(ws: seq<Operand>): (vs: seq<seq<int>>)
    requires forall j :: 0 <= j < |ws| ==> ws[j].Some?
    ensures |vs| == |ws| && forall j :: 0 <= j < |ws| ==> vs[j] == ws[j].value
  {
    seq(|ws|, j requires 0 <= j < |ws| => ws[j].value)
  }

  /** Adding equally long other arrays into an accumulator gives their
      element-wise total, the accumulator's own start included. */
  lemma {:induction false} AddAllTotal(s0: seq<int>, ws: seq<Operand>)
    requires forall j :: 0 <= j < |ws| ==> ws[j].Some? && |ws[j].value| == |s0|
    ensures IsTotal(AddAll(s0, ws), [s0] + Contents(ws))
  {
    if ws == [] {
      TotalSingle(s0);
      assert [s0] + Contents(ws) == [s0];
    } else {
      var init := ws[..|ws| - 1];
      var v := ws[|ws| - 1].value;
      AddAllTotal(s0, init);
      var cur := AddAll(s0, init);
      assert IsPadSum(Add1(cur, Some(v)), cur, v);
      TotalSnoc(cur, [s0] + Contents(init), v, Add1(cur, Some(v)));
      assert [s0] + Contents(ws) == [s0] + Contents(init) + [v];
    }
  }

  /** mysum of distinct arrays of one length never raises, and leaves in the
      first array the element-wise total of all of them. */
  lemma OutcomeEqualLengths(p: seq<array<int>>)
    requires p != [] && forall j :: 0 < j < |p| ==> p[j] != p[0] && p[j].Length == p[0].Length
    ensures Outcome(p).1 == None
    ensures IsTotal(Outcome(p).0, seq(|p|, j reads p requires 0 <= j < |p| => p[j][..]))
  {
    var ws := Snapshot(p[1..], p[0]);
    MisfitIs(p[0].Length, ws, |ws|);
    assert ws[..|ws|] == ws;
    AddAllTotal(p[0][..], ws);
    assert [p[0][..]] + Contents(ws) == seq(|p|, j reads p requires 0 <= j < |p| => p[j][..]);
  }

  // ---------------------------------------------------------------------
  // sum_species

  /** The values of the entries of `d` whose key starts with `g`, in order:
      what sum_species hands to mysum for group `g`. */
  function Matching(d: seq<(string, Option<array<int>>)>, g: string): seq<Option<array<int>>> {
    if d == [] then []
    else Matching(d[..|d| - 1], g) + (if HasPrefix(d[|d| - 1].0, g) then [d[|d| - 1].1] else [])
  }

  /** Every array that group `g` sums comes from an entry whose key starts with `g`. */
  lemma {:induction false} MatchingFrom(d: seq<(string, Option<array<int>>)>, g: string, x: array<int>)
    requires x in Present(Matching(d, g))
    ensures exists i :: 0 <= i < |d| && d[i].1 == Some(x) && HasPrefix(d[i].0, g)
  {
    var init := d[..|d| - 1];
    var tail := if HasPrefix(d[|d| - 1].0, g) then [d[|d| - 1].1] else [];
    PresentAppend(Matching(init, g), tail);
    if x in Present(Matching(init, g)) {
      MatchingFrom(init, g, x);
      var i :| 0 <= i < |init| && init[i].1 == Some(x) && HasPrefix(init[i].0, g);
      assert d[i] == init[i];
    } else {
      assert tail != [] && Present(tail) == Present([] + tail);
      assert tail[..0] == [];
    }
  }

  /** Each array of `d` is a different object. */
  predicate DistinctArrays(d: seq<(string, Option<array<int>>)>) {
    forall i, j :: 0 <= i < j < |d| && d[i].1.Some? && d[j].1.Some? ==> d[i].1.value != d[j].1.value
  }

  /** No two of `groups` start one key: a key belongs to at most one group. */
  ghost predicate PrefixFree(groups: seq<string>) {
    forall k: string, i, j ::
      (0 <= i < |groups| && 0 <= j < |groups| && HasPrefix(k, groups[i]) && HasPrefix(k, groups[j])) ==> i == j
  }

  lemma GroupsDistinct(G: seq<string>, i: nat, j: nat)
    requires PrefixFree(G) && i < j < |G|
    ensures G[i] != G[j]
  {
    assert HasPrefix(G[j], G[j]);
  }

  /** No LUNA group starts another. */
  lemma LunaGroupsPrefixFree()
    ensures PrefixFree(SampleNaming.LunaGroups)
  {
    var G := SampleNaming.LunaGroups;
    forall k: string, i, j | 0 <= i < |G| && 0 <= j < |G| && HasPrefix(k, G[i]) && HasPrefix(k, G[j])
      ensures i == j
    {
      assert G[i][0] == k[0] == G[j][0] && G[i][2] == k[2] == G[j][2];
    }
  }

  /** Different groups sum different arrays. */
  lemma GroupsDisjoint(d: seq<(string, Option<array<int>>)>, G: seq<string>, i: nat, j: nat, x: array<int>)
    requires DistinctArrays(d) && PrefixFree(G) && i < |G| && j < |G|
    requires x in Present(Matching(d, G[i]))
    requires x in Present(Matching(d, G[j]))
    ensures i == j
  {
    MatchingFrom(d, G[i], x);
    MatchingFrom(d, G[j], x);
    var a :| 0 <= a < |d| && d[a].1 == Some(x) && HasPrefix(d[a].0, G[i]);
    var b :| 0 <= b < |d| && d[b].1 == Some(x) && HasPrefix(d[b].0, G[j]);
    assert a == b;
    assert HasPrefix(d[a].0, G[i]) && HasPrefix(d[a].0, G[j]);
  }

  /** The arrays mysum may change for the first `n` groups. */
  function Firsts(d: seq<(string, Option<array<int>>)>, G: seq<string>, n: nat): set<array<int>>
    requires n <= |G|
  {
    if n == 0 then {} else Firsts(d, G, n - 1) + FirstPresent(Matching(d, G[n - 1]))
  }

  lemma {:induction false} FirstsGrow(d: seq<(string, Option<array<int>>)>, G: seq<string>, m: nat, n: nat)
    requires m <= n <= |G|
    ensures Firsts(d, G, m) <= Firsts(d, G, n)
    decreases n
  {
    if m < n {
      FirstsGrow(d, G, m, n - 1);
    }
  }

  /** The arrays of group `n` are none of the earlier groups' first arrays. */
  lemma {:induction false} FirstsOutside(d: seq<(string, Option<array<int>>)>, G: seq<string>, n: nat, m: nat, x: array<int>)
    requires DistinctArrays(d) && PrefixFree(G) && m <= n < |G|
    requires x in Present(Matching(d, G[n]))
    ensures x !in Firsts(d, G, m)
    decreases m
  {
    if m > 0 {
      FirstsOutside(d, G, n, m - 1, x);
      NotFirstOf(d, G, m - 1, n, x);
    }
  }

  /** An array of group `n` is not the first array of an earlier group. */
  lemma NotFirstOf(d: seq<(string, Option<array<int>>)>, G: seq<string>, i: nat, n: nat, x: array<int>)
    requires DistinctArrays(d) && PrefixFree(G) && i < n < |G|
    requires x in Present(Matching(d, G[n]))
    ensures x !in FirstPresent(Matching(d, G[i]))
  {
    var p := Present(Matching(d, G[i]));
    if p != [] && x == p[0] {
      assert p[0] in p;
      GroupsDisjoint(d, G, i, n, x);
    }
  }

  /** The arrays of `d`. */
  function ArraysOf(d: seq<(string, Option<array<int>>)>): set<array<int>> {
    set i | 0 <= i < |d| && d[i].1.Some? :: d[i].1.value
  }

  lemma MatchingIn(d: seq<(string, Option<array<int>>)>, g: string)
    ensures forall x :: x in Present(Matching(d, g)) ==> x in ArraysOf(d)
  {
    forall x | x in Present(Matching(d, g)) ensures x in ArraysOf(d) {
      MatchingFrom(d, g, x);
    }
  }

  /** What mysum does for group `g`: None when the group has no arrays. */
  ghost function GroupOutcome(d: seq<(string, Option<array<int>>)>, g: string): Option<(seq<int>, Option<ShapeError>)>
    reads ArraysOf(d)
  {
    MatchingIn(d, g);
    var p := Present(Matching(d, g));
    if p == [] then None else Some(Outcome(p))
  }

  /** The contents of the arrays of group `g`, in order. */
  ghost function GroupContents(d: seq<(string, Option<array<int>>)>, g: string): (cs: seq<seq<int>>)
    reads ArraysOf(d)
    ensures |cs| == |Present(Matching(d, g))|
    ensures forall j :: 0 <= j < |cs| ==> cs[j] == Present(Matching(d, g))[j][..]
  {
    MatchingIn(d, g);
    var p := Present(Matching(d, g));
    seq(|p|, j reads p requires 0 <= j < |p| => p[j][..])
  }

  /** The error mysum raises for group `g`, if any. */
  ghost function GroupError(d: seq<(string, Option<array<int>>)>, g: string): Option<ShapeError>
    reads ArraysOf(d)
  {
    var o := GroupOutcome(d, g);
    if o.None? then None else o.value.1
  }

  /** The outcomes of all of `G`. */
  ghost function GroupOutcomes(d: seq<(string, Option<array<int>>)>, G: seq<string>): (os: seq<Option<(seq<int>, Option<ShapeError>)>>)
    reads ArraysOf(d)
    ensures |os| == |G| && forall m :: 0 <= m < |G| ==> os[m] == GroupOutcome(d, G[m])
  {
    seq(|G|, m reads ArraysOf(d) requires 0 <= m < |G| => GroupOutcome(d, G[m]))
  }

  /** A group with arrays `p`, now holding `cs`, whose mysum had outcome
      `o`, was summed without error into `res`: None when there are no
      arrays, otherwise the first array, now holding the sum. */
  predicate Summed(res: Option<array<int>>, p: seq<array<int>>, cs: seq<seq<int>>, o: Option<(seq<int>, Option<ShapeError>)>) {
    if p == [] then res == None && o == None
    else res == Some(p[0]) && |cs| > 0 && o.Some? && o.value.1 == None && cs[0] == o.value.0
  }

  /** Group `g` was summed without error into `res`. */
  twostate predicate GroupSummed(d: seq<(string, Option<array<int>>)>, g: string, new res: Option<array<int>>)
    reads ArraysOf(d)
  {
    Summed(res, Present(Matching(d, g)), GroupContents(d, g), old(GroupOutcome(d, g)))
  }

  /** The groups from `n` on still have their starting outcomes `outs`. */
  ghost predicate Pending(d: seq<(string, Option<array<int>>)>, G: seq<string>, n: nat, outs: seq<Option<(seq<int>, Option<ShapeError>)>>)
    requires n <= |G| == |outs|
    reads ArraysOf(d)
  {
    forall m :: n <= m < |G| ==> GroupOutcome(d, G[m]) == outs[m]
  }

  /** The groups before `n` were summed into `dd` without error. */
  ghost predicate Done(d: seq<(string, Option<array<int>>)>, G: seq<string>, n: nat,
                       dd: map<string, Option<array<int>>>, outs: seq<Option<(seq<int>, Option<ShapeError>)>>)
    requires n <= |G| == |outs|
    reads ArraysOf(d)
  {
    dd.Keys == (set i | 0 <= i < n :: G[i]) &&
    forall i :: 0 <= i < n ==> Summed(dd[G[i]], Present(Matching(d, G[i])), GroupContents(d, G[i]), outs[i])
  }

  /** Outcome depends only on the contents of the arrays. */
  twostate lemma OutcomeUnchanged(p: seq<array<int>>)
    requires p != [] && forall j :: 0 <= j < |p| ==> old(p[j][..]) == p[j][..]
    ensures Outcome(p) == old(Outcome(p))
  {
    assert Snapshot(p[1..], p[0]) == old(Snapshot(p[1..], p[0]));
  }

  /** mysum of group `n` of `G`: no other group's arrays change. */
  method GroupSum(d: seq<(string, Option<array<int>>)>, G: seq<string>, n: nat) returns (s: Result<Option<array<int>>, ShapeError>)
    requires DistinctArrays(d) && PrefixFree(G) && n < |G|
    modifies FirstPresent(Matching(d, G[n]))
    ensures var p := Present(Matching(d, G[n]));
      (p == [] ==> s == Ok(None)) &&
      (p != [] ==> p[0][..] == old(Outcome(p)).0 &&
                   s == (if old(Outcome(p)).1.None? then Ok(Some(p[0])) else Err(old(Outcome(p)).1.value)))
    ensures forall m :: 0 <= m < |G| && m != n ==>
      GroupOutcome(d, G[m]) == old(GroupOutcome(d, G[m])) && GroupContents(d, G[m]) == old(GroupContents(d, G[m]))
  {
    var a := Matching(d, G[n]);
    forall m, x | 0 <= m < |G| && m != n && x in FirstPresent(a) ensures x !in Present(Matching(d, G[m])) {
      if x in Present(Matching(d, G[m])) {
        GroupsDisjoint(d, G, m, n, x);
      }
    }
    s := MySum(a);
    forall m | 0 <= m < |G| && m != n
      ensures GroupOutcome(d, G[m]) == old(GroupOutcome(d, G[m]))
      ensures GroupContents(d, G[m]) == old(GroupContents(d, G[m]))
    {
      var p := Present(Matching(d, G[m]));
      if p != [] {
        OutcomeUnchanged(p);
      }
    }
  }

  /** The contents of the arrays of every group of `G`. */
  ghost function AllContents(d: seq<(string, Option<array<int>>)>, G: seq<string>): (cs: seq<seq<seq<int>>>)
    reads ArraysOf(d)
    ensures |cs| == |G| && forall m :: 0 <= m < |G| ==> cs[m] == GroupContents(d, G[m])
  {
    seq(|G|, m reads ArraysOf(d) requires 0 <= m < |G| => GroupContents(d, G[m]))
  }

  /** Storing the sum of group `n` extends Done by one group, once no other
      group's contents moved away from `cs`. */
  lemma DoneStep(d: seq<(string, Option<array<int>>)>, G: seq<string>, n: nat,
                 dd: map<string, Option<array<int>>>, outs: seq<Option<(seq<int>, Option<ShapeError>)>>,
                 cs: seq<seq<seq<int>>>, res: Option<array<int>>)
    requires PrefixFree(G) && n < |G| == |outs| == |cs|
    requires dd.Keys == (set i | 0 <= i < n :: G[i])
    requires forall i :: 0 <= i < n ==> Summed(dd[G[i]], Present(Matching(d, G[i])), cs[i], outs[i])
    requires forall m :: 0 <= m < |G| && m != n ==> GroupContents(d, G[m]) == cs[m]
    requires Summed(res, Present(Matching(d, G[n])), GroupContents(d, G[n]), outs[n])
    ensures Done(d, G, n + 1, dd[G[n] := res], outs)
  {
    forall i | 0 <= i < n ensures G[i] != G[n] {
      GroupsDistinct(G, i, n);
    }
    assert (set i | 0 <= i < n + 1 :: G[i]) == (set i | 0 <= i < n :: G[i]) + {G[n]};
  }

  /** The outcomes after group `n` are still `outs` once no other group's
      outcome moved away from `os`. */
  lemma PendingStep(d: seq<(string, Option<array<int>>)>, G: seq<string>, n: nat,
                    outs: seq<Option<(seq<int>, Option<ShapeError>)>>, os: seq<Option<(seq<int>, Option<ShapeError>)>>)
    requires n < |G| == |outs| == |os|
    requires forall m :: n <= m < |G| ==> os[m] == outs[m]
    requires forall m :: 0 <= m < |G| && m != n ==> GroupOutcome(d, G[m]) == os[m]
    ensures Pending(d, G, n + 1, outs)
  {
  }

  /** One turn of sum_species: mysum of group `n`, its result stored under
      the group's name. */
  method SumGroup(d: seq<(string, Option<array<int>>)>, G: seq<string>, n: nat,
                  dd: map<string, Option<array<int>>>, ghost outs: seq<Option<(seq<int>, Option<ShapeError>)>>)
    returns (r: Result<map<string, Option<array<int>>>, ShapeError>)
    requires DistinctArrays(d) && PrefixFree(G) && n < |G| == |outs|
    requires Pending(d, G, n, outs) && Done(d, G, n, dd, outs)
    modifies FirstPresent(Matching(d, G[n]))
    ensures r.Ok? ==> Pending(d, G, n + 1, outs) && Done(d, G, n + 1, r.value, outs)
    ensures r.Err? ==> outs[n].Some? && outs[n].value.1 == Some(r.error)
  {
    assert GroupOutcome(d, G[n]) == outs[n];
    ghost var cs := AllContents(d, G);
    ghost var os := GroupOutcomes(d, G);
    assert forall i :: 0 <= i < n ==> Summed(dd[G[i]], Present(Matching(d, G[i])), cs[i], outs[i]);
    var s := GroupSum(d, G, n);
    if s.Err? {
      r := Err(s.error);
      return;
    }
    PendingStep(d, G, n, outs, os);
    DoneStep(d, G, n, dd, outs, cs, s.value);
    r := Ok(dd[G[n] := s.value]);
  }

  /** sum_species over the entries of a parsed `*.covs.json` file, in
      dictionary order, and the groups `G` (LUNA_GROUPS, see
      LunaGroupsPrefixFree): for each group, mysum of the values whose key
      starts with it. A shape error of any group stops it. */
  method SumSpecies(d: seq<(string, Option<array<int>>)>, G: seq<string>) returns (r: Result<map<string, Option<array<int>>>, ShapeError>)
    requires DistinctArrays(d) && PrefixFree(G)
    modifies Firsts(d, G, |G|)
    ensures r.Ok? <==> forall i :: 0 <= i < |G| ==> old(GroupError(d, G[i])).None?
    ensures r.Ok? ==> r.value.Keys == Elems(G)
    ensures r.Ok? ==> forall i :: 0 <= i < |G| ==> GroupSummed(d, G[i], r.value[G[i]])
    ensures r.Err? ==> exists i :: 0 <= i < |G| && old(GroupError(d, G[i])) == Some(r.error)
  {
    ghost var outs := GroupOutcomes(d, G);
    var dd := map[];
    for n := 0 to |G|
      invariant Pending(d, G, n, outs) && Done(d, G, n, dd, outs)
    {
      FirstsGrow(d, G, n + 1, |G|);
      var s := SumGroup(d, G, n, dd, outs);
      if s.Err? {
        r := Err(s.error);
        return;
      }
      dd := s.value;
    }
    assert dd.Keys == Elems(G);
    r := Ok(dd);
  }

  // ---------------------------------------------------------------------
  // tau_wrapper

  /** Python's IndexError. */
  datatype IndexError = IndexError

  /** The comprehension over range(n) keeping i when a[i] != 0 or b[i] != 0;
      b[i] is read only when a[i] is 0, and raises past the end of b. */
  function NonZeroUpTo(a: seq<int>, b: seq<int>, n: nat): Result<seq<nat>, IndexError>
    requires n <= |a|
  {
    if n == 0 then Ok([])
    else
      match NonZeroUpTo(a, b, n - 1)
      case Err(e) => Err(e)
      case Ok(nz) =>
        var i := n - 1;
        if a[i] != 0 then Ok(nz + [i])
        else if i >= |b| then Err(IndexError)
        else if b[i] != 0 then Ok(nz + [i])
        else Ok(nz)
  }

  /** NumPy's `x[idx]` with a list of indices: IndexError when one is out of range. */
  function Take(x: seq<int>, idx: seq<nat>): (r: Result<seq<int>, IndexError>)
    ensures r.Ok? <==> forall j :: 0 <= j < |idx| ==> idx[j] < |x|
    ensures r.Ok? ==> |r.value| == |idx| && forall j :: 0 <= j < |idx| ==> r.value[j] == x[idx[j]]
  {
    if forall j :: 0 <= j < |idx| ==> idx[j] < |x| then
      Ok(seq(|idx|, j requires 0 <= j < |idx| => x[idx[j]]))
    else Err(IndexError)
  }

  /** tau_wrapper up to the call of kendalltau: None when either vector is
      None, otherwise both vectors cut down to the kept positions. */
  function TauInputs(a: Option<seq<int>>, b: Option<seq<int>>): Option<Result<(seq<int>, seq<int>), IndexError>> {
    if a.None? || b.None? then None
    else
      match NonZeroUpTo(a.value, b.value, |a.value|)
      case Err(e) => Some(Err(e))
      case Ok(nz) =>
        match Take(a.value, nz)
        case Err(e) => Some(Err(e))
        case Ok(x) =>
          match Take(b.value, nz)
          case Err(e) => Some(Err(e))
          case Ok(y) => Some(Ok((x, y)))
  }

  /** The comprehension keeps, in ascending order, exactly the positions
      where a or b is non-zero; it succeeds exactly when every position at or
      past the end of b has a[i] != 0. */
  lemma {:induction false} NonZeroUpToSpec(a: seq<int>, b: seq<int>, n: nat)
    requires n <= |a|
    ensures NonZeroUpTo(a, b, n).Ok? <==> forall i :: |b| <= i < n ==> a[i] != 0
    ensures NonZeroUpTo(a, b, n).Ok? ==>
      var nz := NonZeroUpTo(a, b, n).value;
      (forall j, k :: 0 <= j < k < |nz| ==> nz[j] < nz[k]) &&
      (forall j :: 0 <= j < |nz| ==> nz[j] < n) &&
      (forall i :: 0 <= i < n ==> (i in nz <==> a[i] != 0 || (i < |b| && b[i] != 0)))
  {
    if n > 0 {
      NonZeroUpToSpec(a, b, n - 1);
    }
  }

  /** tau_wrapper raises IndexError exactly when b is shorter than a. */
  lemma TauInputsError(a: seq<int>, b: seq<int>)
    ensures TauInputs(Some(a), Some(b)).value.Err? <==> |b| < |a|
  {
    NonZeroUpToSpec(a, b, |a|);
    var r := NonZeroUpTo(a, b, |a|);
    if |b| < |a| && r.Ok? {
      assert |b| in r.value;
    }
  }

  /** With b at least as long as a, tau_wrapper keeps the positions where a
      or b is non-zero, in order, and no kept position is zero in both. */
  lemma TauInputsKeep(a: seq<int>, b: seq<int>)
    requires |b| >= |a|
    ensures NonZeroUpTo(a, b, |a|).Ok?
    ensures var nz := NonZeroUpTo(a, b, |a|).value;
      (forall j, k :: 0 <= j < k < |nz| ==> nz[j] < nz[k]) &&
      (forall j :: 0 <= j < |nz| ==> nz[j] < |a|) &&
      (forall i :: 0 <= i < |a| ==> (i in nz <==> a[i] != 0 || b[i] != 0)) &&
      TauInputs(Some(a), Some(b)) ==
        Some(Ok((seq(|nz|, j requires 0 <= j < |nz| => a[nz[j]]), seq(|nz|, j requires 0 <= j < |nz| => b[nz[j]]))))
    ensures var t := TauInputs(Some(a), Some(b)).value.value;
      |t.0| == |t.1| && forall j :: 0 <= j < |t.0| ==> t.0[j] != 0 || t.1[j] != 0
  {
    NonZeroUpToSpec(a, b, |a|);
    var nz := NonZeroUpTo(a, b, |a|).value;
    var x := Take(a, nz).value;
    var y := Take(b, nz).value;
    assert x == seq(|nz|, j requires 0 <= j < |nz| => a[nz[j]]);
    assert y == seq(|nz|, j requires 0 <= j < |nz| => b[nz[j]]);
    forall j | 0 <= j < |x| ensures x[j] != 0 || y[j] != 0 {
      assert nz[j] in nz;
    }
  }

  // ---------------------------------------------------------------------
  // Title annotations

  /** COV_ANNOT: the title suffix for a species in the top list, the VSP v2
      list, both or neither. */
  function CovAnnot(top: bool, vsp: bool): (r: string)
    ensures r == "" <==> !top && !vsp
  {
    match (top, vsp)
    case (false, false) => ""
    case (true, false) => " (top)"
    case (false, true) => " (vsp)"
    case (true, true) => " (top,vsp)"
  }

  /** The suffix looked up for a species key: its membership in both lists. */
  function TitleSuffix(key: string, top: set<string>, vsp: set<string>): string {
    CovAnnot(key in top, key in vsp)
  }

  /** Each membership combination has its own suffix, so the suffix tells
      both memberships apart. */
  lemma TitleSuffixMarks(key: string, top: set<string>, vsp: set<string>)
    ensures HasPrefix(TitleSuffix(key, top, vsp), " (top") <==> key in top
    ensures HasSuffix(TitleSuffix(key, top, vsp), "vsp)") <==> key in vsp
  {
    var r := TitleSuffix(key, top, vsp);
    if key !in top && r != "" {
      assert r == " (vsp)" && r[2] == 'v';
    }
    if key !in vsp && r != "" {
      assert r == " (top)" && r[|r| - 2] == 'p';
    }
  }
}
