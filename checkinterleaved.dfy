/** The interleaving check over the read names of a FASTQ file: mates must
  * come as consecutive records with the same name. The reader's records are
  * given as a sequence of results; the first parse error ends the program. */
module CheckInterleaved {
  import opened Wrappers

  /** The scan state: the name waiting for its mate ("" when none is), and
    * the number of mismatches seen. */
  datatype Pending = Pending(last: string, bad: nat)

  /** One record. */
  function Step(s: Pending, name: string): (r: Pending)
    ensures r.bad == s.bad || r.bad == s.bad + 1
    ensures r.bad == s.bad + 1 <==> s.last != "" && s.last != name
    ensures r.last == (if s.last != "" && s.last == name then "" else name)
  {
    if s.last == "" then Pending(name, s.bad)
    else if s.last != name then Pending(name, s.bad + 1)
    else Pending("", s.bad)
  }

  /** The state after all of `names`, from the initial state. */
  function Scan(names: seq<string>): Pending
  {
    if names == [] then Pending("", 0)
    else Step(Scan(names[..|names| - 1]), names[|names| - 1])
  }

  /** Every complete pair, at positions 2k and 2k+1, has equal names. */
  predicate PairsMatch(names: seq<string>)
  {
    forall i :: 0 <= i < |names| - 1 && i % 2 == 0 ==> names[i] == names[i + 1]
  }

  predicate NonEmptyNames(names: seq<string>)
  {
    forall i :: 0 <= i < |names| ==> names[i] != ""
  }

  /** Adding a name completes a pair exactly when the count so far is odd. */
  lemma PairsMatchAppend(pre: seq<string>, x: string)
    ensures PairsMatch(pre + [x]) <==>
      PairsMatch(pre) && (|pre| % 2 == 1 ==> pre[|pre| - 1] == x)
  {
    var names := pre + [x];
    if PairsMatch(names) {
      forall i | 0 <= i < |pre| - 1 && i % 2 == 0 ensures pre[i] == pre[i + 1] {
        assert names[i] == pre[i] && names[i + 1] == pre[i + 1];
      }
      if |pre| % 2 == 1 {
        assert names[|pre| - 1] == names[|pre|];
      }
    }
    if PairsMatch(pre) && (|pre| % 2 == 1 ==> pre[|pre| - 1] == x) {
      forall i | 0 <= i < |names| - 1 && i % 2 == 0 ensures names[i] == names[i + 1] {
        if i + 1 < |pre| {
          assert names[i] == pre[i] && names[i + 1] == pre[i + 1];
        }
      }
    }
  }

  /** With non-empty names, no mismatch is counted exactly when the pairs
    * match, and then the pending name is the unpaired last one, if any. */
  lemma {:induction false} ScanClean(names: seq<string>)
    requires NonEmptyNames(names)
    ensures Scan(names).bad == 0 <==> PairsMatch(names)
    ensures Scan(names).bad == 0 ==>
      Scan(names).last == (if |names| % 2 == 0 then "" else names[|names| - 1])
  {
    if names != [] {
      var pre := names[..|names| - 1];
      var x := names[|names| - 1];
      assert names == pre + [x];
      assert NonEmptyNames(pre) by {
        forall i | 0 <= i < |pre| ensures pre[i] != "" { assert pre[i] == names[i]; }
      }
      ScanClean(pre);
      PairsMatchAppend(pre, x);
      if |pre| % 2 == 1 {
        assert pre[|pre| - 1] != "";
      }
    }
  }

  /** Each name twice in a row: n1, n1, n2, n2, ... */
  function Doubled(ps: seq<string>): (r: seq<string>)
    ensures |r| == 2 * |ps|
    ensures forall i :: 0 <= i < |r| ==> r[i] == ps[i / 2]
  {
    if ps == [] then []
    else Doubled(ps[..|ps| - 1]) + [ps[|ps| - 1], ps[|ps| - 1]]
  }

  /** Properly interleaved mates leave nothing pending and no mismatch. */
  lemma DoubledClean(ps: seq<string>)
    requires NonEmptyNames(ps)
    ensures Scan(Doubled(ps)) == Pending("", 0)
  {
    var names := Doubled(ps);
    assert NonEmptyNames(names) by {
      forall i | 0 <= i < |names| ensures names[i] != "" { assert names[i] == ps[i / 2]; }
    }
    assert PairsMatch(names) by {
      forall i | 0 <= i < |names| - 1 && i % 2 == 0 ensures names[i] == names[i + 1] {
        assert (i + 1) / 2 == i / 2;
      }
    }
    ScanClean(names);
  }

  /** What the reader yields: a record name, or a parse error. */
  type Record = Result<string, string>

  predicate AllOk(rs: seq<Record>)
  {
    forall i :: 0 <= i < |rs| ==> rs[i].Ok?
  }

  function Names(rs: seq<Record>): (r: seq<string>)
    requires AllOk(rs)
    ensures |r| == |rs| && forall i :: 0 <= i < |rs| ==> r[i] == rs[i].value
  {
    if rs == [] then [] else Names(rs[..|rs| - 1]) + [rs[|rs| - 1].value]
  }

  /** The exit status: 2 after a read error, else 1 iff a mismatch was seen. */
  function Status(rs: seq<Record>): int
  {
    if !AllOk(rs) then 2 else if Scan(Names(rs)).bad > 0 then 1 else 0
  }

  /** Scans the records, stopping at the first error; `bad` is the number of
    * mismatches counted up to there. */
  method Check(records: seq<Record>) returns (status: int, bad: nat)
    ensures status == Status(records)
    ensures AllOk(records) ==> bad == Scan(Names(records)).bad
  {
    bad := 0;
    var last := "";
    var i := 0;
    while i < |records|
      invariant 0 <= i <= |records|
      invariant AllOk(records[..i])
      invariant Scan(Names(records[..i])) == Pending(last, bad)
    {
      if records[i].Err? {
        return 2, bad;
      }
      var name := records[i].value;
      assert records[..i + 1] == records[..i] + [records[i]];
      assert Names(records[..i + 1])[..i] == Names(records[..i]);
      if last == "" {
        last := name;
      } else if last != name {
        bad := bad + 1;
        last := name;
      } else {
        last := "";
      }
      i := i + 1;
    }
    assert records[..i] == records;
    status := if bad > 0 then 1 else 0;
  }

  /** The program exits with 0 exactly when every record was read and, the
    * names being non-empty, every pair of consecutive mates matches. */
  lemma StatusZero(rs: seq<Record>)
    requires AllOk(rs) ==> NonEmptyNames(Names(rs))
    ensures Status(rs) == 0 <==> AllOk(rs) && PairsMatch(Names(rs))
  {
    if AllOk(rs) {
      ScanClean(Names(rs));
    }
  }
}
