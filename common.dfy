/**
 * Deduplication helpers (common/common.go). Go's maps.Keys returns keys in a
 * random order, so the deduplicated order is chosen nondeterministically.
 */
module Common {
  import opened Seqs

  /** `r` is an acceptable deduplication of `a`: `a` itself when it has at
      most one element, otherwise its distinct elements in some order. */
  predicate IsDedupOf<T(==)>(r: seq<T>, a: seq<T>) {
    if |a| <= 1 then r == a else NoDuplicates(r) && Elems(r) == Elems(a)
  }

  /** The elements of `s`, in an arbitrary order (Go's maps.Keys over a set). */
  method SetToSeq<T(==)>(s: set<T>) returns (r: seq<T>)
    ensures NoDuplicates(r) && Elems(r) == s
  {
    r := [];
    var rest := s;
    while rest != {}
      invariant Elems(r) + rest == s && Elems(r) !! rest
      invariant NoDuplicates(r)
      decreases |rest|
    {
      var x :| x in rest;
      assert x !in Elems(r);
      r := r + [x];
      rest := rest - {x};
    }
  }

  /** common.Dedup. */
  method Dedup<T(==)>(a: seq<T>) returns (r: seq<T>)
    ensures IsDedupOf(r, a)
    ensures |r| <= |a|
  {
    if |a| <= 1 {
      return a;
    }
    r := SetToSeq(Elems(a));
    DistinctCount(a);
    DistinctElems(r);
  }

  lemma {:induction false} DistinctElems<T>(r: seq<T>)
    requires NoDuplicates(r)
    ensures |Elems(r)| == |r|
  {
    if r != [] {
      var init := r[..|r| - 1];
      DistinctElems(init);
      assert Elems(r) == Elems(init) + {r[|r| - 1]} by {
        assert r == init + [r[|r| - 1]];
      }
      assert r[|r| - 1] !in Elems(init);
    }
  }

  lemma {:induction false} DistinctCount<T>(a: seq<T>)
    ensures |Elems(a)| <= |a|
  {
    if a != [] {
      var init := a[..|a| - 1];
      DistinctCount(init);
      assert Elems(a) == Elems(init) + {a[|a| - 1]} by {
        assert a == init + [a[|a| - 1]];
      }
    }
  }

  /** common.DedupSlice: every inner slice is replaced by its deduplication. */
  method DedupSlice<T(==)>(a: array<seq<T>>)
    modifies a
    ensures forall i :: 0 <= i < a.Length ==> IsDedupOf(a[i], old(a[i]))
  {
    var i := 0;
    while i < a.Length
      invariant 0 <= i <= a.Length
      invariant forall k :: 0 <= k < i ==> IsDedupOf(a[k], old(a[k]))
      invariant forall k :: i <= k < a.Length ==> a[k] == old(a[k])
    {
      a[i] := Dedup(a[i]);
      i := i + 1;
    }
  }

  /** common.DedupValues: the key set is kept and every value list is deduplicated. */
  method DedupValues<K(==), V(==)>(m: map<K, seq<V>>) returns (r: map<K, seq<V>>)
    ensures r.Keys == m.Keys
    ensures forall k :: k in m ==> IsDedupOf(r[k], m[k])
  {
    r := m;
    var todo := m.Keys;
    while todo != {}
      invariant todo <= m.Keys && r.Keys == m.Keys
      invariant forall k :: k in m && k !in todo ==> IsDedupOf(r[k], m[k])
      invariant forall k :: k in todo ==> r[k] == m[k]
      decreases |todo|
    {
      var k :| k in todo;
      var d := Dedup(m[k]);
      r := r[k := d];
      todo := todo - {k};
    }
  }
}
