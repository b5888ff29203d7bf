/** The table helpers of the abundance plots: grouping sample positions by
  * a key, choosing the most abundant columns, and dropping the samples with
  * too few reads. The plots, the distance computations and reading the
  * read-count JSON file are outside this model; the read counts are given
  * as a map. */
module Jason2 {
  import opened Seqs
  import opened Wrappers

  // ---------------------------------------------------------------------
  // group_indices

  /** The positions i of `a` with f(a[i]) == Some(k), ascending. */
  function Positions(a: seq<string>, f: string -> Option<string>, k: string): (r: seq<nat>)
    ensures forall j :: 0 <= j < |r| ==> r[j] < |a|
  {
    if a == [] then []
    else Positions(a[..|a| - 1], f, k) + (if f(a[|a| - 1]) == Some(k) then [|a| - 1] else [])
  }

  /** A group list ascends strictly and holds exactly the positions whose
    * key is k. */
  lemma {:induction false} PositionsSpec(a: seq<string>, f: string -> Option<string>, k: string)
    ensures forall x, y :: 0 <= x < y < |Positions(a, f, k)| ==> Positions(a, f, k)[x] < Positions(a, f, k)[y]
    ensures forall i :: i in Positions(a, f, k) <==> 0 <= i < |a| && f(a[i]) == Some(k)
  {
    if a != [] {
      var pre := a[..|a| - 1];
      PositionsSpec(pre, f, k);
      var p := Positions(pre, f, k);
      assert forall j :: 0 <= j < |p| ==> p[j] in p;
      forall i | 0 <= i < |pre| ensures a[i] == pre[i] { }
    }
  }

  /** d maps each key met in the first n elements to its positions there. */
  ghost predicate GroupedUpTo(d: map<string, seq<nat>>, a: seq<string>, f: string -> Option<string>, n: nat)
    requires n <= |a|
  {
    forall k :: (k in d <==> Positions(a[..n], f, k) != []) &&
                (k in d ==> d[k] == Positions(a[..n], f, k))
  }

  /** Groups the positions of `a` by their key, skipping those whose key is
    * None. */
  method GroupIndices(a: seq<string>, f: string -> Option<string>) returns (d: map<string, seq<nat>>)
    ensures forall k :: k in d <==> exists i :: 0 <= i < |a| && f(a[i]) == Some(k)
    ensures forall k :: k in d ==> d[k] == Positions(a, f, k)
  {
    d := map[];
    for i := 0 to |a|
      invariant GroupedUpTo(d, a, f, i)
    {
      assert a[..i + 1][..i] == a[..i];
      var fx := f(a[i]);
      if fx.None? {
        continue;
      }
      d := d[fx.value := (if fx.value in d then d[fx.value] else []) + [i]];
    }
    assert a[..|a|] == a;
    forall k ensures k in d <==> exists i :: 0 <= i < |a| && f(a[i]) == Some(k) {
      PositionsSpec(a, f, k);
      if k in d {
        assert Positions(a, f, k)[0] in Positions(a, f, k);
      }
      if exists i :: 0 <= i < |a| && f(a[i]) == Some(k) {
        var i :| 0 <= i < |a| && f(a[i]) == Some(k);
        assert i in Positions(a, f, k);
      }
    }
  }

  /** Each position with a key is in exactly one group, the one of its
    * key, and the positions without a key are in none. */
  lemma GroupsPartition(a: seq<string>, f: string -> Option<string>, d: map<string, seq<nat>>, i: nat, k: string)
    requires forall k :: k in d ==> d[k] == Positions(a, f, k)
    requires forall k :: k in d <==> exists i :: 0 <= i < |a| && f(a[i]) == Some(k)
    ensures k in d && i in d[k] <==> i < |a| && f(a[i]) == Some(k)
  {
    PositionsSpec(a, f, k);
  }

  // ---------------------------------------------------------------------
  // df_top

  /** A column of the table: its name and its values over the samples. */
  datatype Column = Column(name: string, values: seq<real>)

  function ColSum(c: Column): real
  {
    RSum(c.values)
  }

  /** Larger sums first. */
  function ByDescendingSum(): (Column, Column) -> bool
  {
    (a: Column, b: Column) => ColSum(a) >= ColSum(b)
  }

  lemma ByDescendingSumTotal()
    ensures TotalPreorder(ByDescendingSum())
  {
  }

  /** The value of the ALT_TOP run parameter: None, an int, a list of
    * names, or a value of any other type with its truth value. */
  datatype AltTop = NoAlt | IntTop(n: int) | ListTop(names: seq<string>) | OtherTop(truthy: bool)

  predicate Truthy(alt: AltTop)
  {
    match alt
    case NoAlt => false
    case IntTop(n) => n != 0
    case ListTop(names) => names != []
    case OtherTop(t) => t
  }

  /** Python's l[:n]: a negative n counts from the end. */
  function SliceTo<T>(l: seq<T>, n: int): (r: seq<T>)
    ensures r <= l
    ensures |r| == if n >= 0 then Min(n, |l|) else Max(|l| + n, 0)
  {
    if n >= |l| then l
    else if n >= 0 then l[..n]
    else if |l| + n >= 0 then l[..|l| + n]
    else []
  }

  /** list.remove(x) when x is present: drops its first occurrence. */
  function RemoveFirst(l: seq<string>, x: string): (r: seq<string>)
    ensures x in l ==> |r| == |l| - 1 && multiset(r) == multiset(l) - multiset{x}
    ensures x !in l ==> r == l
  {
    if x in l then
      var i := IndexOf(l, x);
      assert l == l[..i] + [x] + l[i + 1..];
      l[..i] + l[i + 1..]
    else l
  }

  datatype TopError = BadType

  function Names(cs: seq<Column>): (r: seq<string>)
    ensures |r| == |cs| && forall i :: 0 <= i < |cs| ==> r[i] == cs[i].name
  {
    if cs == [] then [] else Names(cs[..|cs| - 1]) + [cs[|cs| - 1].name]
  }

  /** The names of the columns with the largest sums, largest first: ten of
    * them, or the number or list ALT_TOP gives; a truthy ALT_TOP of any
    * other type is an error. 'Other' is left out. */
  method DfTop(cols: seq<Column>, alt: AltTop) returns (r: Result<seq<string>, TopError>)
    ensures r.Err? <==> Truthy(alt) && alt.OtherTop?
    ensures r.Ok? && Truthy(alt) && alt.ListTop? ==> r.value == RemoveFirst(alt.names, "Other")
    ensures r.Ok? && !(Truthy(alt) && alt.ListTop?) ==>
      var n := if Truthy(alt) then alt.n else 10;
      r.value == RemoveFirst(Names(SliceTo(Sort(cols, ByDescendingSum()), n)), "Other")
  {
    var sums := Sort(cols, ByDescendingSum());
    var tops := Names(SliceTo(sums, 10));
    if Truthy(alt) {
      match alt {
        case IntTop(n) =>
          tops := Names(SliceTo(sums, n));
        case ListTop(names) =>
          tops := names;
        case _ =>
          return Err(BadType);
      }
    }
    if "Other" in tops {
      tops := RemoveFirst(tops, "Other");
    }
    r := Ok(tops);
  }

  /** The chosen columns, before 'Other' is dropped, are a prefix of the
    * columns sorted by decreasing sum: their sums decrease, and no column
    * left out has a larger sum than a chosen one. */
  lemma TopsAreLargest(cols: seq<Column>, n: int)
    ensures var s := Sort(cols, ByDescendingSum());
      var t := SliceTo(s, n);
      multiset(s) == multiset(cols) &&
      (forall i, j :: 0 <= i < j < |t| ==> ColSum(t[i]) >= ColSum(t[j])) &&
      (forall i, j :: 0 <= i < |t| <= j < |s| ==> ColSum(t[i]) >= ColSum(s[j]))
  {
    ByDescendingSumTotal();
    SortSorted(cols, ByDescendingSum());
  }

  /** With distinct names, 'Other' is never among the result. */
  lemma NoOther(l: seq<string>)
    ensures NoDuplicates(l) ==> "Other" !in RemoveFirst(l, "Other")
  {
    if NoDuplicates(l) && "Other" in l {
      var i := IndexOf(l, "Other");
      var r := RemoveFirst(l, "Other");
      assert r == l[..i] + l[i + 1..];
      forall j | 0 <= j < |r| ensures r[j] != "Other" {
        if j < i { assert r[j] == l[j]; } else { assert r[j] == l[j + 1]; }
      }
    }
  }

  // ---------------------------------------------------------------------
  // filter_by_read_count

  /** The elements of rows satisfying keep, in order. */
  function Kept<R>(rows: seq<R>, keep: R -> bool): (r: seq<R>)
    ensures |r| <= |rows|
  {
    if rows == [] then []
    else Kept(rows[..|rows| - 1], keep) + (if keep(rows[|rows| - 1]) then [rows[|rows| - 1]] else [])
  }

  /** Filtering keeps each element satisfying keep as often as it occurs,
    * and drops every other one. */
  lemma {:induction false} KeptCount<R>(rows: seq<R>, keep: R -> bool)
    ensures forall x :: multiset(Kept(rows, keep))[x] == if keep(x) then multiset(rows)[x] else 0
  {
    if rows != [] {
      var pre := rows[..|rows| - 1];
      KeptCount(pre, keep);
      assert rows == pre + [rows[|rows| - 1]];
      assert multiset(rows) == multiset(pre) + multiset{rows[|rows| - 1]};
    }
  }

  /** Filtering keeps the order: it distributes over concatenation. */
  lemma {:induction false} KeptAppend<R>(rows: seq<R>, more: seq<R>, keep: R -> bool)
    ensures Kept(rows + more, keep) == Kept(rows, keep) + Kept(more, keep)
  {
    if more == [] {
      assert rows + more == rows;
    } else {
      var init := more[..|more| - 1];
      KeptAppend(rows, init, keep);
      assert rows + more == (rows + init) + [more[|more| - 1]];
      assert (rows + more)[..|rows + more| - 1] == rows + init;
    }
  }

  /** A sample of the table: its name and its row. */
  datatype Sample = Sample(name: string, row: seq<real>)

  /** The position of the first sample without a read count. */
  function FirstMissing(rows: seq<Sample>, rc: map<string, int>): (r: Option<nat>)
    ensures r.None? <==> forall i :: 0 <= i < |rows| ==> rows[i].name in rc
    ensures r.Some? ==> (r.value < |rows| && rows[r.value].name !in rc &&
      forall i :: 0 <= i < r.value ==> rows[i].name in rc)
  {
    if rows == [] then None
    else if rows[0].name !in rc then Some(0)
    else
      match FirstMissing(rows[1..], rc)
      case None => None
      case Some(i) => Some(i + 1)
  }

  /** The sample has a read count of at least minCount. */
  function Enough(rc: map<string, int>, minCount: int): Sample -> bool
  {
    (s: Sample) => s.name in rc && rc[s.name] >= minCount
  }

  /** The samples with at least minCount reads; a sample missing from the
    * read counts is a KeyError naming it. */
  function FilterByReadCount(rows: seq<Sample>, rc: map<string, int>, minCount: int): (r: Result<seq<Sample>, string>)
    ensures r.Err? <==> exists i :: 0 <= i < |rows| && rows[i].name !in rc
    ensures r.Ok? ==> r.value == Kept(rows, Enough(rc, minCount))
  {
    match FirstMissing(rows, rc)
    case Some(i) => Err(rows[i].name)
    case None => Ok(Kept(rows, Enough(rc, minCount)))
  }

  /** On success, a sample is kept, as often as it occurs, exactly when its
    * read count is at least minCount. */
  lemma FilterByReadCountSpec(rows: seq<Sample>, rc: map<string, int>, minCount: int)
    requires FilterByReadCount(rows, rc, minCount).Ok?
    ensures forall s :: s in rows ==> s.name in rc
    ensures forall s :: s in rows ==> multiset(FilterByReadCount(rows, rc, minCount).value)[s] == (if rc[s.name] >= minCount then multiset(rows)[s] else 0)
    ensures forall s :: s !in rows ==> s !in FilterByReadCount(rows, rc, minCount).value
  {
    KeptCount(rows, Enough(rc, minCount));
    var r := FilterByReadCount(rows, rc, minCount).value;
    forall s | s in rows ensures s.name in rc {
      var i :| 0 <= i < |rows| && rows[i] == s;
    }
    forall s | s !in rows ensures s !in r {
      assert multiset(rows)[s] == 0;
      assert multiset(r)[s] == 0;
    }
  }
}
