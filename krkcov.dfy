/** Kraken coverage filter: the tax IDs under a given tax ID, found by a
    breadth-first walk down the child links of the linked Kraken taxonomy,
    and the records whose Kraken tax ID is among them. */
module KrkCov {
  import opened Wrappers
  import opened Strs
  import KrkTax

  type Taxonomy = map<string, KrkTax.TaxEntry>

  // ---------------------------------------------------------------------
  // Reachability down the child links

  /** `p` is a walk from p[0] to its last element, every step going from an
      entry of the taxonomy to one of its listed children. */
  predicate IsPath(m: Taxonomy, p: seq<string>) {
    |p| >= 1 &&
    forall i :: 0 <= i < |p| - 1 ==> p[i] in m && p[i + 1] in m[p[i]].children
  }

  /** `t` can be reached from `root` down the child links. */
  ghost predicate Reachable(m: Taxonomy, root: string, t: string) {
    exists p :: IsPath(m, p) && p[0] == root && p[|p| - 1] == t
  }

  /** A set that holds `root` and every child of its members. */
  predicate ClosedFrom(m: Taxonomy, root: string, s: set<string>) {
    root in s &&
    forall t :: t in s ==> t in m && forall c :: c in m[t].children ==> c in s
  }

  /** A closed set holds everything reachable from its root. */
  lemma {:induction false} ClosedHoldsReachable(m: Taxonomy, root: string, s: set<string>, p: seq<string>)
    requires ClosedFrom(m, root, s) && IsPath(m, p) && p[0] == root
    ensures p[|p| - 1] in s
    decreases |p|
  {
    if |p| > 1 {
      var q := p[..|p| - 1];
      assert IsPath(m, q) by {
        forall i | 0 <= i < |q| - 1 ensures q[i] in m && q[i + 1] in m[q[i]].children {
          assert q[i] == p[i] && q[i + 1] == p[i + 1];
        }
      }
      ClosedHoldsReachable(m, root, s, q);
      assert p[|p| - 2] == q[|q| - 1];
    }
  }

  lemma PathSnoc(m: Taxonomy, p: seq<string>, c: string)
    requires IsPath(m, p) && p[|p| - 1] in m && c in m[p[|p| - 1]].children
    ensures IsPath(m, p + [c])
  {
    var q := p + [c];
    forall i | 0 <= i < |q| - 1 ensures q[i] in m && q[i + 1] in m[q[i]].children {
      if i < |p| - 1 {
        assert q[i] == p[i] && q[i + 1] == p[i + 1];
      }
    }
  }

  // ---------------------------------------------------------------------
  // Termination: the walk has no visited check, so a tax ID is dequeued once
  // per path that leads to it; this count is finite when the child links
  // have no cycle, which a ranking that drops along every link witnesses.

  /** Every child that is itself an entry has a smaller rank than its
      parent. */
  predicate Ranked(m: Taxonomy, h: map<string, nat>) {
    forall t :: t in m ==> t in h && forall c :: c in m[t].children && c in m ==> c in h && h[c] < h[t]
  }

  /** A walk that comes back to where it started has no ranking: every step
      would have to lower the rank. */
  lemma {:induction false} CycleUnranked(m: Taxonomy, h: map<string, nat>, p: seq<string>)
    requires Ranked(m, h) && IsPath(m, p) && |p| >= 2 && p[|p| - 1] in m
    ensures h[p[|p| - 1]] < h[p[0]]
    decreases |p|
  {
    if |p| > 2 {
      var tail := p[1..];
      assert IsPath(m, tail) by {
        forall i | 0 <= i < |tail| - 1 ensures tail[i] in m && tail[i + 1] in m[tail[i]].children {
          assert tail[i] == p[i + 1] && tail[i + 1] == p[i + 2];
        }
      }
      CycleUnranked(m, h, tail);
    }
  }

  /** So the walk is only known to end when the child links have no cycle. */
  lemma CycleHasNoRanking(m: Taxonomy, p: seq<string>)
    requires IsPath(m, p) && |p| >= 2 && p[|p| - 1] == p[0]
    ensures forall h :: !Ranked(m, h)
  {
    forall h | Ranked(m, h) ensures false {
      CycleUnranked(m, h, p);
    }
  }

  /** How many times the walk dequeues something when it starts from `t`:
      once for `t` and, when `t` is an entry, the counts of its children. */
  function Visits(m: Taxonomy, h: map<string, nat>, t: string): nat
    requires Ranked(m, h)
    decreases if t in m then h[t] else 0, 1, 0
  {
    if t !in m then 1 else 1 + VisitsAll(m, h, m[t].children, h[t])
  }

  /** The visit counts of a queue of tax IDs, each of whose entries ranks
      below `bound`. */
  function VisitsAll(m: Taxonomy, h: map<string, nat>, q: seq<string>, bound: nat): nat
    requires Ranked(m, h)
    requires forall c :: c in q && c in m ==> h[c] < bound
    decreases bound, 0, |q|
  {
    if q == [] then 0
    else
      var last := q[|q| - 1];
      VisitsAll(m, h, q[..|q| - 1], bound) + (if last in m then Visits(m, h, last) else 1)
  }

  lemma {:induction false} VisitsAllBound(m: Taxonomy, h: map<string, nat>, q: seq<string>, b1: nat, b2: nat)
    requires Ranked(m, h)
    requires forall c :: c in q && c in m ==> h[c] < b1
    requires forall c :: c in q && c in m ==> h[c] < b2
    ensures VisitsAll(m, h, q, b1) == VisitsAll(m, h, q, b2)
  {
    if q != [] {
      VisitsAllBound(m, h, q[..|q| - 1], b1, b2);
    }
  }

  lemma {:induction false} VisitsAllAppend(m: Taxonomy, h: map<string, nat>, a: seq<string>, b: seq<string>, bound: nat)
    requires Ranked(m, h)
    requires forall c :: c in a + b && c in m ==> h[c] < bound
    ensures VisitsAll(m, h, a + b, bound) == VisitsAll(m, h, a, bound) + VisitsAll(m, h, b, bound)
    decreases |b|
  {
    if b == [] {
      assert a + b == a;
    } else {
      assert (a + b)[..|a + b| - 1] == a + b[..|b| - 1];
      VisitsAllAppend(m, h, a, b[..|b| - 1], bound);
    }
  }

  lemma VisitsAllHead(m: Taxonomy, h: map<string, nat>, q: seq<string>, bound: nat)
    requires Ranked(m, h) && q != []
    requires forall c :: c in q && c in m ==> h[c] < bound
    ensures VisitsAll(m, h, q, bound) == Visits(m, h, q[0]) + VisitsAll(m, h, q[1..], bound)
  {
    assert q == [q[0]] + q[1..];
    VisitsAllAppend(m, h, [q[0]], q[1..], bound);
    assert [q[0]][..0] == [];
  }

  /** The queue's total visit count, with a bound above every rank in it. */
  function QueueVisits(m: Taxonomy, h: map<string, nat>, q: seq<string>): nat
    requires Ranked(m, h)
  {
    var bound := MaxRank(m, h, q) + 1;
    VisitsAll(m, h, q, bound)
  }

  function MaxRank(m: Taxonomy, h: map<string, nat>, q: seq<string>): (b: nat)
    requires Ranked(m, h)
    ensures forall c :: c in q && c in m ==> h[c] <= b
  {
    if q == [] then 0
    else
      var b := MaxRank(m, h, q[..|q| - 1]);
      var last := q[|q| - 1];
      assert forall c :: c in q ==> c in q[..|q| - 1] || c == last;
      if last in m && h[last] > b then h[last] else b
  }

  /** Dequeuing `q[0]` and enqueuing its children lowers the total by one. */
  lemma DequeueStep(m: Taxonomy, h: map<string, nat>, q: seq<string>)
    requires Ranked(m, h) && q != [] && q[0] in m
    ensures QueueVisits(m, h, q[1..] + m[q[0]].children) + 1 == QueueVisits(m, h, q)
  {
    var x := q[0];
    var q' := q[1..] + m[x].children;
    var b := MaxRank(m, h, q) + 1;
    var b' := MaxRank(m, h, q') + 1;
    var hi := b + b';
    assert forall c :: c in q[1..] ==> c in q;
    VisitsAllHead(m, h, q, hi);
    VisitsAllAppend(m, h, q[1..], m[x].children, hi);
    VisitsAllBound(m, h, m[x].children, hi, h[x]);
    VisitsAllBound(m, h, q, b, hi);
    VisitsAllBound(m, h, q', b', hi);
  }

  // ---------------------------------------------------------------------
  // childrenOf

  datatype ChildrenError = TIDNotFound(tid: string)

  /** The breadth-first walk from `tid`: every dequeued tax ID must be in the
      taxonomy; the result is the set of dequeued tax IDs. It terminates only
      when the child links have no cycle, which is what the ranking states. */
  method ChildrenOf(m: Taxonomy, tid: string) returns (r: Result<set<string>, ChildrenError>)
    requires exists h :: Ranked(m, h)
    ensures r.Ok? ==> ClosedFrom(m, tid, r.value) && forall t :: t in r.value ==> Reachable(m, tid, t)
    ensures r.Err? ==> r.error.tid !in m && Reachable(m, tid, r.error.tid)
  {
    ghost var h :| Ranked(m, h);
    var s: set<string> := {};
    var q := [tid];
    assert IsPath(m, [tid]);
    while q != []
      invariant forall t :: t in s ==> t in m && Reachable(m, tid, t)
      invariant forall t :: t in q ==> Reachable(m, tid, t)
      invariant tid in s || tid in q
      invariant forall t, c :: t in s && c in m[t].children ==> c in s || c in q
      decreases QueueVisits(m, h, q)
    {
      var x := q[0];
      if x !in m {
        return Err(TIDNotFound(x));
      }
      s := s + {x};
      DequeueStep(m, h, q);
      forall c | c in m[x].children ensures Reachable(m, tid, c) {
        var p :| IsPath(m, p) && p[0] == tid && p[|p| - 1] == x;
        PathSnoc(m, p, c);
        assert (p + [c])[0] == tid;
      }
      q := q[1..] + m[x].children;
    }
    r := Ok(s);
  }

  /** childrenOf succeeds exactly when every tax ID reachable from `tid` is in
      the taxonomy; the set it gives is then exactly the reachable tax IDs. */
  lemma ChildrenOfSpec(m: Taxonomy, tid: string, s: set<string>)
    requires ClosedFrom(m, tid, s) && forall t :: t in s ==> Reachable(m, tid, t)
    ensures forall t :: t in s <==> Reachable(m, tid, t)
    ensures forall t :: Reachable(m, tid, t) ==> t in m
  {
    forall t | Reachable(m, tid, t) ensures t in s {
      var p :| IsPath(m, p) && p[0] == tid && p[|p| - 1] == t;
      ClosedHoldsReachable(m, tid, s, p);
    }
  }

  // ---------------------------------------------------------------------
  // The read filter

  const TaxIDTag := "kraken:taxid|"

  /** The tag starts at `i` and a digit follows it. */
  predicate TagAt(name: string, i: nat) {
    OccursAt(name, TaxIDTag, i) && i + |TaxIDTag| < |name| && IsDigit(name[i + |TaxIDTag|])
  }

  /** The digits that follow a tag at `i`. */
  function DigitsAfterTag(name: string, i: nat): (d: string)
    requires TagAt(name, i)
    ensures d != [] && AllDigits(d)
  {
    var k := i + |TaxIDTag|;
    name[k..k + RunLength(name, k, IsDigit)]
  }

  /** The first match of kraken:taxid|<digits> at or after `from`, read as
      its digits. */
  function FindTaxIDFrom(name: string, from: nat): (r: Option<string>)
    requires from <= |name|
    ensures r.Some? ==> r.value != [] && AllDigits(r.value)
    decreases |name| - from
  {
    if TagAt(name, from) then Some(DigitsAfterTag(name, from))
    else if from == |name| then None
    else FindTaxIDFrom(name, from + 1)
  }

  /** The search finds nothing exactly when no tag that a digit follows
      starts at or after `from`. */
  lemma {:induction false} FindTaxIDFromNone(name: string, from: nat)
    requires from <= |name|
    ensures FindTaxIDFrom(name, from).None? <==> forall i :: from <= i <= |name| ==> !TagAt(name, i)
    decreases |name| - from
  {
    if !TagAt(name, from) && from < |name| {
      FindTaxIDFromNone(name, from + 1);
    }
  }

  /** A found tax ID is read after the leftmost tag that a digit follows. */
  lemma {:induction false} FindTaxIDFromSome(name: string, from: nat)
    requires from <= |name| && FindTaxIDFrom(name, from).Some?
    ensures exists i :: (from <= i < |name| && TagAt(name, i) && FindTaxIDFrom(name, from).value == DigitsAfterTag(name, i) &&
                         forall j :: from <= j < i ==> !TagAt(name, j))
    decreases |name| - from
  {
    if TagAt(name, from) {
      assert from < |name|;
    } else {
      FindTaxIDFromSome(name, from + 1);
      var i :| from + 1 <= i < |name| && TagAt(name, i) && FindTaxIDFrom(name, from + 1).value == DigitsAfterTag(name, i) &&
               forall j :: from + 1 <= j < i ==> !TagAt(name, j);
    }
  }

  /** The tax ID the Kraken classification wrote into a read name: the
      digits after the leftmost "kraken:taxid|" that a digit follows. */
  function FindTaxID(name: string): (r: Option<string>)
    ensures r.Some? ==> r.value != [] && AllDigits(r.value)
  {
    FindTaxIDFrom(name, 0)
  }

  /** No tax ID exactly when the name has no tag followed by a digit;
      otherwise the digits after the leftmost such tag. */
  lemma FindTaxIDSpec(name: string)
    ensures FindTaxID(name).None? <==> forall i :: 0 <= i <= |name| ==> !TagAt(name, i)
    ensures FindTaxID(name).Some? ==>
      exists i :: (0 <= i < |name| && TagAt(name, i) && FindTaxID(name).value == DigitsAfterTag(name, i) &&
                   forall j :: 0 <= j < i ==> !TagAt(name, j))
  {
    FindTaxIDFromNone(name, 0);
    if FindTaxID(name).Some? {
      FindTaxIDFromSome(name, 0);
    }
  }

  lemma NoTagBefore(pre: string, rest: string)
    requires forall i :: 0 <= i < |pre| ==> !OccursAt(pre + TaxIDTag, TaxIDTag, i)
    ensures forall j :: 0 <= j < |pre| ==> !TagAt(pre + TaxIDTag + rest, j)
  {
    var name := pre + TaxIDTag + rest;
    var head := pre + TaxIDTag;
    assert name[..|head|] == head;
    forall j | 0 <= j < |pre| ensures !OccursAt(name, TaxIDTag, j) {
      if OccursAt(name, TaxIDTag, j) {
        assert name[j..j + |TaxIDTag|] == name[..|head|][j..j + |TaxIDTag|];
        assert OccursAt(head, TaxIDTag, j);
      }
    }
  }

  lemma TagThenDigits(pre: string, tid: string, post: string)
    requires tid != [] && AllDigits(tid) && (post == [] || !IsDigit(post[0]))
    ensures TagAt(pre + TaxIDTag + tid + post, |pre|)
    ensures DigitsAfterTag(pre + TaxIDTag + tid + post, |pre|) == tid
  {
    var name := pre + TaxIDTag + tid + post;
    var k := |pre| + |TaxIDTag|;
    assert name[|pre|..k] == TaxIDTag;
    assert forall j :: k <= j < k + |tid| ==> name[j] == tid[j - k];
    RunLengthIs(name, k, IsDigit, |tid|);
    assert name[k..k + |tid|] == tid;
  }

  /** A read name carrying the tag once, before the first digit run, finds
      exactly that run. */
  lemma FindTaxIDOf(pre: string, tid: string, post: string)
    requires forall i :: 0 <= i < |pre| ==> !OccursAt(pre + TaxIDTag, TaxIDTag, i)
    requires tid != [] && AllDigits(tid) && (post == [] || !IsDigit(post[0]))
    ensures FindTaxID(pre + TaxIDTag + tid + post) == Some(tid)
  {
    var name := pre + TaxIDTag + tid + post;
    NoTagBefore(pre, tid + post);
    assert pre + TaxIDTag + (tid + post) == name;
    TagThenDigits(pre, tid, post);
    FindTaxIDSpec(name);
  }

  datatype Read = Read(name: string, sequence: string, quals: string)

  datatype FilterError = NoTaxID(name: string)

  /** The tax ID of each read, in input order. */
  function TaxIDsOf(records: seq<Read>): (ts: seq<Option<string>>)
    ensures |ts| == |records| && forall i :: 0 <= i < |records| ==> ts[i] == FindTaxID(records[i].name)
  {
    seq(|records|, i requires 0 <= i < |records| => FindTaxID(records[i].name))
  }

  /** The reads whose tax ID `ts` gives and is in the set, in input order. */
  function Kept(records: seq<Read>, ts: seq<Option<string>>, taxids: set<string>): seq<Read>
    requires |ts| == |records|
  {
    if records == [] then []
    else
      var n := |records| - 1;
      Kept(records[..n], ts[..n], taxids) + (if ts[n].Some? && ts[n].value in taxids then [records[n]] else [])
  }

  /** The reads that main writes out. */
  function KeptReads(records: seq<Read>, taxids: set<string>): seq<Read> {
    Kept(records, TaxIDsOf(records), taxids)
  }

  /** The loop of main: a read without a Kraken tax ID stops the run with an
      error; otherwise each read is written when its tax ID is in the set. */
  method FilterReads(records: seq<Read>, taxids: set<string>) returns (r: Result<seq<Read>, FilterError>)
    ensures r.Ok? <==> forall i :: 0 <= i < |records| ==> FindTaxID(records[i].name).Some?
    ensures r.Ok? ==> r.value == KeptReads(records, taxids)
    ensures r.Err? ==> exists i :: (0 <= i < |records| && r.error == NoTaxID(records[i].name) &&
                                    FindTaxID(records[i].name).None? && forall j :: 0 <= j < i ==> FindTaxID(records[j].name).Some?)
  {
    ghost var ts := TaxIDsOf(records);
    var out: seq<Read> := [];
    for i := 0 to |records|
      invariant forall j :: 0 <= j < i ==> ts[j].Some?
      invariant out == Kept(records[..i], ts[..i], taxids)
    {
      assert records[..i + 1][..i] == records[..i] && ts[..i + 1][..i] == ts[..i];
      var m := FindTaxID(records[i].name);
      assert m == ts[i];
      if m.None? {
        r := Err(NoTaxID(records[i].name));
        assert forall j :: 0 <= j < i ==> FindTaxID(records[j].name).Some?;
        return;
      }
      if m.value in taxids {
        out := out + [records[i]];
      }
    }
    assert records[..|records|] == records && ts[..|ts|] == ts;
    r := Ok(out);
  }

  /** A read is kept exactly when its tax ID is in the set, and the kept
      records keep their input order. */
  lemma {:induction false} KeptSpec(records: seq<Read>, ts: seq<Option<string>>, taxids: set<string>)
    requires |ts| == |records|
    ensures forall x :: x in Kept(records, ts, taxids) <==>
      exists i :: 0 <= i < |records| && records[i] == x && ts[i].Some? && ts[i].value in taxids
    ensures |Kept(records, ts, taxids)| <= |records|
  {
    if records != [] {
      var n := |records| - 1;
      KeptSpec(records[..n], ts[..n], taxids);
      forall x | x in Kept(records, ts, taxids)
        ensures exists i :: 0 <= i < |records| && records[i] == x && ts[i].Some? && ts[i].value in taxids
      {
        if x in Kept(records[..n], ts[..n], taxids) {
          var i :| 0 <= i < n && records[..n][i] == x && ts[..n][i].Some? && ts[..n][i].value in taxids;
          assert records[i] == x && ts[i] == ts[..n][i];
        }
      }
      forall i | 0 <= i < n && ts[i].Some? && ts[i].value in taxids
        ensures records[i] in Kept(records[..n], ts[..n], taxids)
      {
        assert records[..n][i] == records[i] && ts[..n][i] == ts[i];
      }
    }
  }

  /** A read is kept exactly when its tax ID is found and is in the set. */
  lemma KeptReadsSpec(records: seq<Read>, taxids: set<string>)
    ensures forall x :: x in KeptReads(records, taxids) <==>
      x in records && FindTaxID(x.name).Some? && FindTaxID(x.name).value in taxids
    ensures |KeptReads(records, taxids)| <= |records|
  {
    KeptSpec(records, TaxIDsOf(records), taxids);
  }

  /** Jouyvirus, the tax ID whose descendants main keeps. */
  const Jouyvirus := "2843396"

  datatype KrkCovError = Children(children: ChildrenError) | Filter(filter: FilterError)

  /** main: the records classified under Jouyvirus. The walk fails when a
      descendant of Jouyvirus is missing from the taxonomy, and the filter
      when a read has no tax ID; otherwise the reads whose tax ID descends
      from Jouyvirus are kept, in input order and with their repeats. */
  method Run(m: Taxonomy, records: seq<Read>) returns (r: Result<seq<Read>, KrkCovError>, ghost desc: set<string>)
    requires exists h :: Ranked(m, h)
    ensures r.Ok? <==>
      (forall t :: Reachable(m, Jouyvirus, t) ==> t in m) &&
      (forall i :: 0 <= i < |records| ==> FindTaxID(records[i].name).Some?)
    ensures r.Err? ==> (r.error.Children? <==> exists t :: Reachable(m, Jouyvirus, t) && t !in m)
    ensures r.Ok? ==> (forall t :: t in desc <==> Reachable(m, Jouyvirus, t)) && r.value == KeptReads(records, desc)
    ensures r.Ok? ==> forall x :: x in r.value <==>
      x in records && FindTaxID(x.name).Some? && Reachable(m, Jouyvirus, FindTaxID(x.name).value)
  {
    desc := {};
    var c := ChildrenOf(m, Jouyvirus);
    if c.Err? {
      return Err(Children(c.error)), desc;
    }
    ChildrenOfSpec(m, Jouyvirus, c.value);
    desc := c.value;
    var f := FilterReads(records, c.value);
    if f.Err? {
      return Err(Filter(f.error)), desc;
    }
    KeptReadsSpec(records, c.value);
    r := Ok(f.value);
  }
}
