/** The sample grouping behind the PERMANOVA tests of the abundance
  * comparison: for each of three name patterns, the samples whose name
  * matches are selected, the matched text is turned into a dense group id
  * by an enumerator, and the distance matrix is cut down to the selected
  * samples. The distances themselves (Bray-Curtis), PCA, MDS, PERMANOVA
  * and the plots are outside this model. */
module CompareAbnd {
  import opened Seqs
  import opened Wrappers
  import Strs
  import Common

  // ---------------------------------------------------------------------
  // The enumerator

  /** The distinct values of xs, in order of first appearance. */
  function Firsts(xs: seq<string>): (r: seq<string>)
    ensures NoDuplicates(r) && Elems(r) == Elems(xs)
  {
    if xs == [] then []
    else
      var init := xs[..|xs| - 1];
      var x := xs[|xs| - 1];
      assert xs == init + [x];
      var p := Firsts(init);
      assert Elems(xs) == Elems(init) + {x};
      if x in p then p
      else
        assert x !in p;
        p + [x]
  }

  /** Firsts only grows as values are added. */
  lemma {:induction false} FirstsPrefix(xs: seq<string>, ys: seq<string>)
    ensures Firsts(xs) <= Firsts(xs + ys)
    decreases |ys|
  {
    if ys == [] {
      assert xs + ys == xs;
    } else {
      var init := ys[..|ys| - 1];
      FirstsPrefix(xs, init);
      assert xs + ys == (xs + init) + [ys[|ys| - 1]];
      assert (xs + ys)[..|xs + ys| - 1] == xs + init;
    }
  }

  /** The id the enumerator gives each of xs, in turn. */
  function Ids(xs: seq<string>): (r: seq<nat>)
    ensures |r| == |xs|
  {
    seq(|xs|, k requires 0 <= k < |xs| => assert xs[k] in Elems(xs); IndexOf(Firsts(xs), xs[k]))
  }

  /** Giving one more value keeps the earlier ids and gives the new one its
    * place among the first appearances. */
  lemma IdsSnoc(xs: seq<string>, x: string)
    ensures Ids(xs + [x]) == Ids(xs) + [IndexOf(Firsts(xs + [x]), x)]
  {
    FirstsPrefix(xs, [x]);
    var f := Firsts(xs);
    var g := Firsts(xs + [x]);
    forall k | 0 <= k < |xs| ensures xs[k] in f && xs[k] in g && IndexOf(g, xs[k]) == IndexOf(f, xs[k]) {
      assert xs[k] in Elems(xs) && (xs + [x])[k] == xs[k];
      assert xs[k] in Elems(xs + [x]);
      var j := IndexOf(f, xs[k]);
      assert g[j] == xs[k];
      IndexOfDistinct(g, j);
    }
  }

  /** In a list without repeats, the first position of s[j] is j. */
  lemma IndexOfDistinct(s: seq<string>, j: nat)
    requires NoDuplicates(s) && j < |s|
    ensures IndexOf(s, s[j]) == j
  {
  }

  /** Ids are equal exactly for equal values, a value seen before keeps its
    * id, a new value gets the number of distinct values before it, and the
    * ids used are exactly 0 .. k-1 for k distinct values. */
  lemma IdsSpec(xs: seq<string>)
    ensures forall a, b :: 0 <= a < |xs| && 0 <= b < |xs| ==> (Ids(xs)[a] == Ids(xs)[b] <==> xs[a] == xs[b])
    ensures forall k :: 0 <= k < |xs| && xs[k] !in xs[..k] ==> Ids(xs)[k] == |Firsts(xs[..k])|
    ensures forall i :: i in Ids(xs) <==> 0 <= i < |Firsts(xs)|
  {
    var f := Firsts(xs);
    forall k | 0 <= k < |xs| && xs[k] !in xs[..k] ensures Ids(xs)[k] == |Firsts(xs[..k])| {
      var pre := xs[..k];
      assert xs[..k + 1] == pre + [xs[k]];
      assert xs[k] !in Elems(pre);
      FirstsPrefix(xs[..k + 1], xs[k + 1..]);
      assert xs[..k + 1] + xs[k + 1..] == xs;
      var g := Firsts(xs[..k + 1]);
      assert g == Firsts(pre) + [xs[k]];
      assert f[|Firsts(pre)|] == xs[k];
      IndexOfDistinct(f, |Firsts(pre)|);
    }
    forall i | 0 <= i < |f| ensures i in Ids(xs) {
      assert f[i] in Elems(xs);
      var k :| 0 <= k < |xs| && xs[k] == f[i];
      IndexOfDistinct(f, i);
      assert Ids(xs)[k] == i;
    }
  }

  /** The enumerator's map after `ins`: every value seen, at its first
    * appearance's place. */
  predicate EnumMap(ins: seq<string>, e: map<string, nat>) {
    e.Keys == Elems(ins) &&
    forall x :: x in e ==> e[x] == IndexOf(Firsts(ins), x)
  }

  /** A new value goes in at the next id. */
  lemma EnumNew(ins: seq<string>, e: map<string, nat>, x: string)
    requires EnumMap(ins, e) && x !in e
    ensures EnumMap(ins + [x], e[x := |e|])
    ensures IndexOf(Firsts(ins + [x]), x) == |e|
  {
    FirstsNew(ins, x);
    EnumSize(ins, e);
    ElemsSnoc(ins, x);
    IndexExtend(Firsts(ins), e, x);
  }

  /** A value not seen before is appended to the first appearances. */
  lemma FirstsNew(ins: seq<string>, x: string)
    requires x !in Elems(ins)
    ensures Firsts(ins + [x]) == Firsts(ins) + [x]
  {
    assert (ins + [x])[..|ins|] == ins;
  }

  /** A map from the values of a list to their first positions, extended
    * by one new value at the end. */
  lemma IndexExtend(f: seq<string>, e: map<string, nat>, x: string)
    requires x !in f && |e| == |f|
    requires e.Keys == Elems(f) && forall y :: y in e ==> e[y] == IndexOf(f, y)
    ensures e[x := |e|].Keys == Elems(f + [x])
    ensures forall y :: y in e[x := |e|] ==> e[x := |e|][y] == IndexOf(f + [x], y)
  {
    ElemsSnoc(f, x);
    var e' := e[x := |e|];
    forall y | y in e' ensures e'[y] == IndexOf(f + [x], y) {
      IndexAppend(f, x, y);
    }
  }

  lemma ElemsSnoc(f: seq<string>, x: string)
    ensures Elems(f + [x]) == Elems(f) + {x}
  {
  }

  /** Appending `x` keeps the first positions of the values already there
    * and puts a new `x` at the end. */
  lemma IndexAppend(f: seq<string>, x: string, y: string)
    requires y in f || y == x
    ensures y in f ==> IndexOf(f + [x], y) == IndexOf(f, y)
    ensures y !in f ==> IndexOf(f + [x], y) == |f|
  {
    var g := f + [x];
    if y in f {
      var j := IndexOf(f, y);
      assert g[..j] == f[..j];
      IndexOfIs(g, y, j);
    } else {
      assert g[..|f|] == f;
      IndexOfIs(g, x, |f|);
    }
  }

  /** The first position of `y` is the `j` where it occurs with none before. */
  lemma IndexOfIs(s: seq<string>, y: string, j: nat)
    requires j < |s| && s[j] == y && y !in s[..j]
    ensures IndexOf(s, y) == j
  {
    var i := IndexOf(s, y);
    assert forall k :: 0 <= k < j ==> s[k] == s[..j][k];
    assert forall k :: 0 <= k < i ==> s[k] == s[..i][k];
  }

  /** The map holds one entry per distinct value. */
  lemma EnumSize(ins: seq<string>, e: map<string, nat>)
    requires EnumMap(ins, e)
    ensures |e| == |Firsts(ins)|
  {
    var f := Firsts(ins);
    Common.DistinctElems(f);
    assert e.Keys == Elems(f);
  }

  /** A value seen before keeps the map as it is. */
  lemma EnumOld(ins: seq<string>, e: map<string, nat>, x: string)
    requires EnumMap(ins, e) && x in e
    ensures EnumMap(ins + [x], e)
  {
    assert Firsts(ins + [x]) == Firsts(ins) by {
      assert (ins + [x])[..|ins|] == ins;
    }
  }

  /** The enumerator: each new value gets the next id, a known value its
    * old one. */
  class Enumerator {
    var e: map<string, nat>
    /** All values given so far. */
    ghost var inputs: seq<string>

    ghost predicate Valid()
      reads this
    {
      EnumMap(inputs, e)
    }

    constructor ()
      ensures Valid() && inputs == [] && e == map[]
    {
      e := map[];
      inputs := [];
    }

    /** The id of x, giving it the next one, len(e), when new. */
    method Id(x: string) returns (id: nat)
      requires Valid()
      modifies this
      ensures Valid() && inputs == old(inputs) + [x]
      ensures id == Ids(inputs)[|inputs| - 1]
      ensures x in old(e) ==> id == old(e)[x] && e == old(e)
      ensures x !in old(e) ==> id == |old(e)| && e == old(e)[x := id]
    {
      IdsSnoc(inputs, x);
      if x !in e {
        EnumNew(inputs, e, x);
        e := e[x := |e|];
      } else {
        EnumOld(inputs, e, x);
      }
      inputs := inputs + [x];
      id := e[x];
    }
  }

  // ---------------------------------------------------------------------
  // The patterns

  /** A pattern that is one capture group around an alternation of
    * literals, either anchored at the start of the name (^(a|b)) or not
    * ((a|b)). */
  datatype Pattern = Anchored(alts: seq<string>) | Unanchored(alts: seq<string>)

  /** The three groupings compared: visit, patient group, and site. */
  const Patterns: seq<Pattern> := [
    Anchored(["1.", "2."]),
    Unanchored(["Euro", "Inh"]),
    Unanchored(["_LB_", "_Tur_", "_Wod_"])
  ]

  /** The first alternative that is a prefix of x. */
  function AtStart(x: string, alts: seq<string>): (r: Option<string>)
    ensures r.Some? ==> r.value in alts && Strs.HasPrefix(x, r.value)
    ensures r.None? <==> forall a :: a in alts ==> !Strs.HasPrefix(x, a)
  {
    if alts == [] then None
    else if Strs.HasPrefix(x, alts[0]) then Some(alts[0])
    else AtStart(x, alts[1..])
  }

  /** The text of the leftmost match: at the first position where some
    * alternative occurs, the first alternative that does. */
  function Leftmost(x: string, alts: seq<string>): Option<string>
  {
    match AtStart(x, alts)
    case Some(a) => Some(a)
    case None => if x == [] then None else Leftmost(x[1..], alts)
  }

  /** The leftmost match is an alternative occurring at a position before
    * which none occurs; there is none exactly when no alternative occurs. */
  lemma {:induction false} LeftmostSpec(x: string, alts: seq<string>)
    ensures Leftmost(x, alts).None? <==> forall a, i :: a in alts && 0 <= i <= |x| ==> !Strs.OccursAt(x, a, i)
    ensures Leftmost(x, alts).Some? ==> (Leftmost(x, alts).value in alts &&
      exists i :: 0 <= i <= |x| && Strs.OccursAt(x, Leftmost(x, alts).value, i) &&
        forall a, j :: a in alts && 0 <= j < i ==> !Strs.OccursAt(x, a, j))
  {
    var r := AtStart(x, alts);
    if r.Some? {
      assert Strs.OccursAt(x, r.value, 0);
    } else if x != [] {
      LeftmostSpec(x[1..], alts);
      if Leftmost(x[1..], alts).Some? {
        var v := Leftmost(x[1..], alts).value;
        var i :| 0 <= i <= |x[1..]| && Strs.OccursAt(x[1..], v, i) &&
          forall a, j :: a in alts && 0 <= j < i ==> !Strs.OccursAt(x[1..], a, j);
        LeftmostStepSome(x, alts, v, i);
      } else {
        LeftmostStepNone(x, alts);
      }
    } else {
      forall a, i | a in alts && 0 <= i <= |x| ensures !Strs.OccursAt(x, a, i) {
        assert !Strs.HasPrefix(x, a);
      }
    }
  }

  /** An occurrence at `i + 1` in `x` is one at `i` in its tail. */
  lemma OccursTail(x: string, a: string, i: nat)
    requires x != []
    ensures Strs.OccursAt(x, a, i + 1) <==> Strs.OccursAt(x[1..], a, i)
  {
    if i + 1 + |a| <= |x| {
      assert x[i + 1..i + 1 + |a|] == x[1..][i..i + |a|];
    }
  }

  /** No alternative occurs at the start of `x` when none is a prefix. */
  lemma NoneAtStart(x: string, alts: seq<string>)
    requires AtStart(x, alts).None?
    ensures forall a :: a in alts ==> !Strs.OccursAt(x, a, 0)
  {
    forall a | a in alts ensures !Strs.OccursAt(x, a, 0) {
      assert !Strs.HasPrefix(x, a);
    }
  }

  /** The leftmost match in the tail, shifted by one, is the leftmost in `x`. */
  lemma LeftmostStepSome(x: string, alts: seq<string>, v: string, i: nat)
    requires x != [] && AtStart(x, alts).None? && i <= |x| - 1
    requires Strs.OccursAt(x[1..], v, i)
    requires forall a, j :: a in alts && 0 <= j < i ==> !Strs.OccursAt(x[1..], a, j)
    ensures Strs.OccursAt(x, v, i + 1)
    ensures forall a, j :: a in alts && 0 <= j < i + 1 ==> !Strs.OccursAt(x, a, j)
  {
    OccursTail(x, v, i);
    NoneAtStart(x, alts);
    forall a, j | a in alts && 1 <= j < i + 1 ensures !Strs.OccursAt(x, a, j) {
      OccursTail(x, a, j - 1);
    }
  }

  /** No match in the tail and none at the start: no match in `x`. */
  lemma LeftmostStepNone(x: string, alts: seq<string>)
    requires x != [] && AtStart(x, alts).None?
    requires forall a, i :: a in alts && 0 <= i <= |x[1..]| ==> !Strs.OccursAt(x[1..], a, i)
    ensures forall a, i :: a in alts && 0 <= i <= |x| ==> !Strs.OccursAt(x, a, i)
  {
    NoneAtStart(x, alts);
    forall a, i | a in alts && 1 <= i <= |x| ensures !Strs.OccursAt(x, a, i) {
      OccursTail(x, a, i - 1);
    }
  }

  /** The first element of findall: the group of the leftmost match. */
  function Find(p: Pattern, x: string): Option<string>
  {
    match p
    case Anchored(alts) => AtStart(x, alts)
    case Unanchored(alts) => Leftmost(x, alts)
  }

  /** The pattern as a matcher over names. */
  function Matcher(p: Pattern): string -> Option<string>
  {
    x => Find(p, x)
  }

  // ---------------------------------------------------------------------
  // Selecting the samples

  /** The positions of the names `find` matches, ascending. */
  function Selected(names: seq<string>, find: string -> Option<string>): (r: seq<nat>)
    ensures forall k :: 0 <= k < |r| ==> r[k] < |names|
    ensures forall a, b :: 0 <= a < b < |r| ==> r[a] < r[b]
  {
    if names == [] then []
    else
      Selected(names[..|names| - 1], find) +
      (if find(names[|names| - 1]).Some? then [|names| - 1] else [])
  }

  /** The matched texts of those names, in the same order. */
  function Keys(names: seq<string>, find: string -> Option<string>): (r: seq<string>)
    ensures |r| == |Selected(names, find)|
  {
    if names == [] then []
    else
      var m := find(names[|names| - 1]);
      Keys(names[..|names| - 1], find) + (if m.Some? then [m.value] else [])
  }

  /** The selected positions are exactly those of the names `find`
    * matches. */
  lemma {:induction false} SelectedMembers(names: seq<string>, find: string -> Option<string>)
    ensures forall i :: i in Selected(names, find) <==> 0 <= i < |names| && find(names[i]).Some?
  {
    if names != [] {
      var pre := names[..|names| - 1];
      SelectedMembers(pre, find);
      forall i | 0 <= i < |pre| ensures names[i] == pre[i] { }
    }
  }

  /** Each key is the match of the name at the same selected position. */
  lemma {:induction false} KeysMatch(names: seq<string>, find: string -> Option<string>)
    ensures forall k :: 0 <= k < |Selected(names, find)| ==>
      find(names[Selected(names, find)[k]]) == Some(Keys(names, find)[k])
  {
    if names != [] {
      var pre := names[..|names| - 1];
      KeysMatch(pre, find);
      forall i | 0 <= i < |pre| ensures names[i] == pre[i] { }
    }
  }

  /** The group ids and positions of the names `find` matches. */
  method Grouping(names: seq<string>, find: string -> Option<string>) returns (grouping: seq<nat>, indexes: seq<nat>)
    ensures indexes == Selected(names, find)
    ensures grouping == Ids(Keys(names, find))
  {
    var enm := new Enumerator();
    grouping := [];
    indexes := [];
    for i := 0 to |names|
      invariant enm.Valid() && enm.inputs == Keys(names[..i], find)
      invariant indexes == Selected(names[..i], find)
      invariant grouping == Ids(Keys(names[..i], find))
    {
      assert names[..i + 1][..i] == names[..i];
      var m := find(names[i]);
      if m.None? {
        continue;
      }
      var id := enm.Id(m.value);
      grouping := grouping + [id];
      indexes := indexes + [i];
      IdsSnoc(Keys(names[..i], find), m.value);
    }
    assert names[..|names|] == names;
  }

  // ---------------------------------------------------------------------
  // The distance submatrix

  /** A square matrix of side n. */
  predicate Square(d: seq<seq<real>>, n: nat)
  {
    |d| == n && forall i :: 0 <= i < n ==> |d[i]| == n
  }

  /** A distance matrix: square, zero on the diagonal, symmetric. */
  predicate IsDistanceMatrix(d: seq<seq<real>>)
  {
    Square(d, |d|) &&
    (forall i :: 0 <= i < |d| ==> d[i][i] == 0.0) &&
    (forall i, j :: 0 <= i < |d| && 0 <= j < |d| ==> d[i][j] == d[j][i])
  }

  /** d restricted to the given positions on both axes: the distances
    * between the selected samples, a distance matrix again when d is one. */
  function Sub(d: seq<seq<real>>, idx: seq<nat>): (r: seq<seq<real>>)
    requires Square(d, |d|) && forall k :: 0 <= k < |idx| ==> idx[k] < |d|
    ensures Square(r, |idx|)
    ensures forall a, b :: 0 <= a < |idx| && 0 <= b < |idx| ==> r[a][b] == d[idx[a]][idx[b]]
    ensures IsDistanceMatrix(d) ==> IsDistanceMatrix(r)
  {
    seq(|idx|, a requires 0 <= a < |idx| => seq(|idx|, b requires 0 <= b < |idx| => d[idx[a]][idx[b]]))
  }

  /** The input of one PERMANOVA test. */
  datatype Test = Test(grouping: seq<nat>, dist: seq<seq<real>>)

  /** For each pattern, the group ids of the matching samples and the
    * distances between them. */
  method Run(names: seq<string>, d: seq<seq<real>>) returns (tests: seq<Test>)
    requires Square(d, |names|)
    ensures |tests| == |Patterns|
    ensures forall p :: 0 <= p < |Patterns| ==>
      tests[p].grouping == Ids(Keys(names, Matcher(Patterns[p]))) &&
      tests[p].dist == Sub(d, Selected(names, Matcher(Patterns[p])))
  {
    tests := [];
    for p := 0 to |Patterns|
      invariant |tests| == p
      invariant forall q :: 0 <= q < p ==>
        tests[q].grouping == Ids(Keys(names, Matcher(Patterns[q]))) &&
        tests[q].dist == Sub(d, Selected(names, Matcher(Patterns[q])))
    {
      var grouping, indexes := Grouping(names, Matcher(Patterns[p]));
      tests := tests + [Test(grouping, Sub(d, indexes))];
    }
  }
}
