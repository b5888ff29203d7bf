/** The RefSeq viral dump reduced to what later steps need: the sequences
    under their first accession, the records without their bulky parts, and
    the tax ID to accessions and accession to tax ID maps. */
module RefSeq {
  import opened Wrappers
  import opened Strs
  import opened Seqs
  import opened GenBankPlus

  // ---------------------------------------------------------------------
  // Reading: records without a sequence are skipped

  /** A FASTA record as written to the sequence file. */
  datatype FastaOut = FastaOut(name: string, sequence: string)

  datatype RefSeqError = NoAccessions | DuplicateAcc(acc: string)

  /** The records that have a sequence, in order. */
  function WithSequence(es: seq<Plus>): (r: seq<Plus>)
    ensures |r| <= |es|
    ensures forall i :: 0 <= i < |r| ==> r[i].gb.origin != ""
  {
    if es == [] then []
    else
      var n := |es| - 1;
      WithSequence(es[..n]) + (if es[n].gb.origin != "" then [es[n]] else [])
  }

  /** Every record has an accession, and no two share their first one. */
  predicate FirstAccsDistinct(es: seq<Plus>) {
    (forall i :: 0 <= i < |es| ==> es[i].gb.accessions != []) &&
    forall i, j :: 0 <= i < j < |es| && es[i].gb.accessions != [] && es[j].gb.accessions != [] ==>
      es[i].gb.accessions[0] != es[j].gb.accessions[0]
  }

  /** The record as written to the metadata file: without its sequence,
      references, features and DB links. */
  function Stripped(e: Plus): Plus {
    e.(gb := e.gb.(origin := "", references := [], features := [], dbLink := []))
  }

  function FastaOf(e: Plus): FastaOut
    requires e.gb.accessions != []
  {
    FastaOut(e.gb.accessions[0], ToUpper(e.gb.origin))
  }

  /** The first loop of main, over the records of both files: a record
      without a sequence is counted and skipped; a record with one is
      written uppercased under its first accession, which must be new, and
      kept without its bulky parts. */
  method ReadRecords(es: seq<Plus>) returns (r: Result<(seq<FastaOut>, seq<Plus>, nat), RefSeqError>)
    ensures r.Ok? <==> FirstAccsDistinct(WithSequence(es))
    ensures r.Ok? ==> Written(r.value.0, r.value.1, WithSequence(es)) && r.value.2 == |es| - |WithSequence(es)|
    ensures r.Err? && r.error.DuplicateAcc? ==> SharedFirst(WithSequence(es), r.error.acc)
  {
    var fas: seq<FastaOut> := [];
    var ee: seq<Plus> := [];
    var noSeq := 0;
    var foundAccs: set<string> := {};
    ghost var kept: seq<Plus> := [];
    for n := 0 to |es|
      invariant ReadState(es, n, kept, foundAccs, noSeq, fas, ee)
    {
      var e := es[n];
      if e.gb.origin == "" {
        ReadSkip(es, n, kept, foundAccs, noSeq, fas, ee);
        noSeq := noSeq + 1;
        continue;
      }
      if |e.gb.accessions| == 0 {
        ReadNoAccessions(es, n, kept, foundAccs, noSeq, fas, ee);
        return Err(NoAccessions);
      }
      if e.gb.accessions[0] in foundAccs {
        ReadDuplicate(es, n, kept, foundAccs, noSeq, fas, ee);
        return Err(DuplicateAcc(e.gb.accessions[0]));
      }
      ReadKeep(es, n, kept, foundAccs, noSeq, fas, ee);
      foundAccs := foundAccs + {e.gb.accessions[0]};
      fas := fas + [FastaOf(e)];
      ee := ee + [Stripped(e)];
      kept := kept + [e];
    }
    assert es[..|es|] == es;
    r := Ok((fas, ee, noSeq));
  }

  /** The state of the first loop after `n` records. */
  ghost predicate ReadState(es: seq<Plus>, n: nat, kept: seq<Plus>, found: set<string>, noSeq: nat,
    fas: seq<FastaOut>, ee: seq<Plus>)
  {
    n <= |es| && kept == WithSequence(es[..n]) && FirstAccsDistinct(kept) &&
    found == FirstAccSet(kept) && noSeq == n - |kept| && Written(fas, ee, kept)
  }

  lemma ReadSkip(es: seq<Plus>, n: nat, kept: seq<Plus>, found: set<string>, noSeq: nat,
    fas: seq<FastaOut>, ee: seq<Plus>)
    requires n < |es| && ReadState(es, n, kept, found, noSeq, fas, ee) && es[n].gb.origin == ""
    ensures ReadState(es, n + 1, kept, found, noSeq + 1, fas, ee)
  {
    WithSequenceStep(es, n);
  }

  lemma ReadNoAccessions(es: seq<Plus>, n: nat, kept: seq<Plus>, found: set<string>, noSeq: nat,
    fas: seq<FastaOut>, ee: seq<Plus>)
    requires n < |es| && ReadState(es, n, kept, found, noSeq, fas, ee)
    requires es[n].gb.origin != "" && es[n].gb.accessions == []
    ensures !FirstAccsDistinct(WithSequence(es))
  {
    WithSequenceStep(es, n);
    assert (kept + [es[n]])[|kept|] == es[n];
    StopsAt(es, n + 1, |kept|, |kept|, "");
  }

  lemma ReadDuplicate(es: seq<Plus>, n: nat, kept: seq<Plus>, found: set<string>, noSeq: nat,
    fas: seq<FastaOut>, ee: seq<Plus>)
    requires n < |es| && ReadState(es, n, kept, found, noSeq, fas, ee)
    requires es[n].gb.origin != "" && es[n].gb.accessions != [] && es[n].gb.accessions[0] in found
    ensures !FirstAccsDistinct(WithSequence(es)) && SharedFirst(WithSequence(es), es[n].gb.accessions[0])
  {
    var e := es[n];
    WithSequenceStep(es, n);
    var i :| 0 <= i < |kept| && kept[i].gb.accessions[0] == e.gb.accessions[0];
    var kept' := kept + [e];
    assert kept'[i] == kept[i] && kept'[|kept|] == e;
    StopsAt(es, n + 1, i, |kept|, e.gb.accessions[0]);
  }

  lemma ReadKeep(es: seq<Plus>, n: nat, kept: seq<Plus>, found: set<string>, noSeq: nat,
    fas: seq<FastaOut>, ee: seq<Plus>)
    requires n < |es| && ReadState(es, n, kept, found, noSeq, fas, ee)
    requires es[n].gb.origin != "" && es[n].gb.accessions != [] && es[n].gb.accessions[0] !in found
    ensures ReadState(es, n + 1, kept + [es[n]], found + {es[n].gb.accessions[0]}, noSeq,
      fas + [FastaOf(es[n])], ee + [Stripped(es[n])])
  {
    var e := es[n];
    WithSequenceStep(es, n);
    DistinctAppend(kept, e);
    FoundStep(found, kept, e);
    WrittenStep(fas, ee, kept, e);
  }

  /** The outputs so far are those of the records kept so far. */
  predicate Written(fas: seq<FastaOut>, ee: seq<Plus>, kept: seq<Plus>)
    requires forall i :: 0 <= i < |kept| ==> kept[i].gb.accessions != []
  {
    |fas| == |ee| == |kept| &&
    forall i :: 0 <= i < |kept| ==> fas[i] == FastaOf(kept[i]) && ee[i] == Stripped(kept[i])
  }

  /** Two records with a sequence share the first accession `acc`. */
  predicate SharedFirst(ks: seq<Plus>, acc: string) {
    exists i, j :: 0 <= i < j < |ks| &&
      ks[i].gb.accessions != [] && ks[j].gb.accessions != [] &&
      ks[i].gb.accessions[0] == acc == ks[j].gb.accessions[0]
  }

  /** A record without accessions, or a repeated first accession, among the
      records with a sequence of a prefix is one among those of all. */
  lemma StopsAt(es: seq<Plus>, n: nat, i: nat, j: nat, acc: string)
    requires n <= |es| && i <= j < |WithSequence(es[..n])|
    requires var ks := WithSequence(es[..n]);
      (i == j && ks[j].gb.accessions == []) ||
      (i < j && ks[i].gb.accessions != [] && ks[j].gb.accessions != [] &&
       ks[i].gb.accessions[0] == acc == ks[j].gb.accessions[0])
    ensures !FirstAccsDistinct(WithSequence(es))
    ensures i < j ==> SharedFirst(WithSequence(es), acc)
  {
    WithSequencePrefix(es, n);
    var ks := WithSequence(es[..n]);
    var all := WithSequence(es);
    assert all[i] == ks[i] && all[j] == ks[j];
  }

  /** The first accessions of records that all have one. */
  ghost function FirstAccSet(ks: seq<Plus>): set<string>
    requires forall i :: 0 <= i < |ks| ==> ks[i].gb.accessions != []
  {
    set i | 0 <= i < |ks| :: ks[i].gb.accessions[0]
  }

  lemma FoundStep(found: set<string>, kept: seq<Plus>, e: Plus)
    requires e.gb.accessions != [] && forall i :: 0 <= i < |kept| ==> kept[i].gb.accessions != []
    requires found == FirstAccSet(kept)
    ensures forall i :: 0 <= i < |kept + [e]| ==> (kept + [e])[i].gb.accessions != []
    ensures found + {e.gb.accessions[0]} == FirstAccSet(kept + [e])
  {
    var kept' := kept + [e];
    forall i | 0 <= i < |kept'| ensures kept'[i].gb.accessions != [] {
      if i < |kept| {
        assert kept'[i] == kept[i];
      }
    }
    forall a ensures a in found + {e.gb.accessions[0]} <==> a in FirstAccSet(kept') {
      if a in found {
        var i :| 0 <= i < |kept| && kept[i].gb.accessions[0] == a;
        assert kept'[i] == kept[i];
      }
      if a == e.gb.accessions[0] {
        assert kept'[|kept|] == e;
      }
      if a in FirstAccSet(kept') {
        var i :| 0 <= i < |kept'| && kept'[i].gb.accessions[0] == a;
        if i < |kept| {
          assert kept'[i] == kept[i];
        }
      }
    }
  }

  lemma WrittenStep(fas: seq<FastaOut>, ee: seq<Plus>, kept: seq<Plus>, e: Plus)
    requires e.gb.accessions != [] && forall i :: 0 <= i < |kept| ==> kept[i].gb.accessions != []
    requires Written(fas, ee, kept)
    ensures forall i :: 0 <= i < |kept + [e]| ==> (kept + [e])[i].gb.accessions != []
    ensures Written(fas + [FastaOf(e)], ee + [Stripped(e)], kept + [e])
  {
    var kept' := kept + [e];
    forall i | 0 <= i < |kept'| ensures kept'[i].gb.accessions != [] {
      if i < |kept| {
        assert kept'[i] == kept[i];
      }
    }
    forall i | 0 <= i < |kept'|
      ensures (fas + [FastaOf(e)])[i] == FastaOf(kept'[i]) && (ee + [Stripped(e)])[i] == Stripped(kept'[i])
    {
      if i < |kept| {
        assert kept'[i] == kept[i];
      }
    }
  }

  lemma DistinctAppend(ks: seq<Plus>, e: Plus)
    requires FirstAccsDistinct(ks) && e.gb.accessions != []
    requires forall i :: 0 <= i < |ks| ==> ks[i].gb.accessions[0] != e.gb.accessions[0]
    ensures FirstAccsDistinct(ks + [e])
  {
  }

  lemma WithSequenceStep(es: seq<Plus>, n: nat)
    requires n < |es|
    ensures WithSequence(es[..n + 1]) == WithSequence(es[..n]) + (if es[n].gb.origin != "" then [es[n]] else [])
  {
    assert es[..n + 1][..n] == es[..n];
  }

  /** The records with a sequence among the first `n` start those of all. */
  lemma {:induction false} WithSequencePrefix(es: seq<Plus>, n: nat)
    requires n <= |es|
    ensures WithSequence(es[..n]) <= WithSequence(es)
    decreases |es| - n
  {
    if n < |es| {
      WithSequencePrefix(es, n + 1);
      assert es[..n + 1][..n] == es[..n];
    } else {
      assert es[..n] == es;
    }
  }

  // ---------------------------------------------------------------------
  // The tax ID to accessions map

  /** The accessions of the records with tax ID `t`, in record order. */
  function AccsOfTid(ee: seq<Plus>, t: string): seq<string> {
    if ee == [] then []
    else
      var n := |ee| - 1;
      AccsOfTid(ee[..n], t) + (if ee[n].taxID == t then ee[n].gb.accessions else [])
  }

  /** The map after appending each record's accessions under its tax ID. */
  function TidMap(ee: seq<Plus>): map<string, seq<string>> {
    if ee == [] then map[]
    else
      var n := |ee| - 1;
      var m := TidMap(ee[..n]);
      var t := ee[n].taxID;
      m[t := (if t in m then m[t] else []) + ee[n].gb.accessions]
  }

  function Get(m: map<string, seq<string>>, k: string): seq<string> {
    if k in m then m[k] else []
  }

  /** The map holds exactly the tax IDs of the records, each with the
      accessions of its records, in record order. */
  lemma {:induction false} TidMapSpec(ee: seq<Plus>, t: string)
    ensures t in TidMap(ee) <==> exists i :: 0 <= i < |ee| && ee[i].taxID == t
    ensures Get(TidMap(ee), t) == AccsOfTid(ee, t)
  {
    if ee != [] {
      var n := |ee| - 1;
      TidMapSpec(ee[..n], t);
      if t != ee[n].taxID {
        if exists i :: 0 <= i < |ee| && ee[i].taxID == t {
          var i :| 0 <= i < |ee| && ee[i].taxID == t;
          assert ee[..n][i] == ee[i];
        }
        if exists i :: 0 <= i < n && ee[..n][i].taxID == t {
          var i :| 0 <= i < n && ee[..n][i].taxID == t;
          assert ee[i] == ee[..n][i];
        }
      }
    }
  }

  /** An accession is listed under `t` exactly when a record with tax ID `t`
      has it. */
  lemma {:induction false} AccsOfTidMembers(ee: seq<Plus>, t: string, acc: string)
    ensures acc in AccsOfTid(ee, t) <==> exists i :: 0 <= i < |ee| && ee[i].taxID == t && acc in ee[i].gb.accessions
  {
    if ee != [] {
      var n := |ee| - 1;
      AccsOfTidMembers(ee[..n], t, acc);
      if exists i :: 0 <= i < |ee| && ee[i].taxID == t && acc in ee[i].gb.accessions {
        var i :| 0 <= i < |ee| && ee[i].taxID == t && acc in ee[i].gb.accessions;
        if i < n {
          assert ee[..n][i] == ee[i];
        }
      }
      if acc in AccsOfTid(ee[..n], t) {
        var i :| 0 <= i < n && ee[..n][i].taxID == t && acc in ee[..n][i].gb.accessions;
        assert ee[i] == ee[..n][i];
      }
    }
  }

  // ---------------------------------------------------------------------
  // The accession to tax ID map, with accessions assigned twice removed

  /** Every (accession, tax ID) assignment, in record and accession order. */
  function Pairs(ee: seq<Plus>): seq<(string, string)> {
    if ee == [] then []
    else
      var n := |ee| - 1;
      Pairs(ee[..n]) + PairsOf(ee[n])
  }

  function PairsOf(e: Plus): (ps: seq<(string, string)>)
    ensures |ps| == |e.gb.accessions| && forall k :: 0 <= k < |ps| ==> ps[k] == (e.gb.accessions[k], e.taxID)
  {
    seq(|e.gb.accessions|, k requires 0 <= k < |e.gb.accessions| => (e.gb.accessions[k], e.taxID))
  }

  /** Each assignment comes from an accession of a record. */
  lemma {:induction false} PairFrom(ee: seq<Plus>, k: nat)
    requires k < |Pairs(ee)|
    ensures exists i :: 0 <= i < |ee| && Pairs(ee)[k].0 in ee[i].gb.accessions && Pairs(ee)[k].1 == ee[i].taxID
  {
    var n := |ee| - 1;
    var ps := Pairs(ee[..n]);
    if k < |ps| {
      PairFrom(ee[..n], k);
      var i :| 0 <= i < n && ps[k].0 in ee[..n][i].gb.accessions && ps[k].1 == ee[..n][i].taxID;
      assert ee[i] == ee[..n][i];
    } else {
      assert Pairs(ee)[k] == PairsOf(ee[n])[k - |ps|];
    }
  }

  /** Each accession of each record is assigned that record's tax ID. */
  lemma {:induction false} PairOf(ee: seq<Plus>, i: nat, j: nat)
    requires i < |ee| && j < |ee[i].gb.accessions|
    ensures exists k :: 0 <= k < |Pairs(ee)| && Pairs(ee)[k] == (ee[i].gb.accessions[j], ee[i].taxID)
  {
    var n := |ee| - 1;
    var ps := Pairs(ee[..n]);
    if i < n {
      assert ee[..n][i] == ee[i];
      PairOf(ee[..n], i, j);
      var k :| 0 <= k < |ps| && ps[k] == (ee[i].gb.accessions[j], ee[i].taxID);
      assert Pairs(ee)[k] == ps[k];
    } else {
      assert Pairs(ee)[|ps| + j] == PairsOf(ee[n])[j];
    }
  }

  /** The map after all assignments: each accession's last tax ID. */
  function Assigned(ps: seq<(string, string)>): map<string, string> {
    if ps == [] then map[]
    else
      var n := |ps| - 1;
      Assigned(ps[..n])[ps[n].0 := ps[n].1]
  }

  /** What the map gives for `acc`: "" when it was never assigned. */
  function Lookup(m: map<string, string>, acc: string): string {
    if acc in m then m[acc] else ""
  }

  /** The accessions met again while holding a non-empty tax ID. */
  function Flagged(ps: seq<(string, string)>): set<string> {
    if ps == [] then {}
    else
      var n := |ps| - 1;
      Flagged(ps[..n]) + (if Lookup(Assigned(ps[..n]), ps[n].0) != "" then {ps[n].0} else {})
  }

  lemma AssignedSpec(ps: seq<(string, string)>, acc: string)
    ensures acc in Assigned(ps) <==> exists i :: 0 <= i < |ps| && ps[i].0 == acc
    ensures acc in Assigned(ps) ==> exists i :: (0 <= i < |ps| && ps[i] == (acc, Assigned(ps)[acc]) &&
                                                  forall j :: i < j < |ps| ==> ps[j].0 != acc)
  {
    AssignedKeys(ps, acc);
    if acc in Assigned(ps) {
      AssignedLast(ps, acc);
    }
  }

  lemma {:induction false} AssignedKeys(ps: seq<(string, string)>, acc: string)
    ensures acc in Assigned(ps) <==> exists i :: 0 <= i < |ps| && ps[i].0 == acc
  {
    if ps != [] {
      var n := |ps| - 1;
      var init := ps[..n];
      AssignedKeys(init, acc);
      if ps[n].0 != acc {
        if exists i :: 0 <= i < |ps| && ps[i].0 == acc {
          var i :| 0 <= i < |ps| && ps[i].0 == acc;
          assert init[i] == ps[i];
        }
        if exists i :: 0 <= i < n && init[i].0 == acc {
          var i :| 0 <= i < n && init[i].0 == acc;
          assert ps[i] == init[i];
        }
      }
    }
  }

  lemma {:induction false} AssignedLast(ps: seq<(string, string)>, acc: string)
    requires acc in Assigned(ps)
    ensures exists i :: 0 <= i < |ps| && ps[i] == (acc, Assigned(ps)[acc]) &&
                        forall j :: i < j < |ps| ==> ps[j].0 != acc
  {
    var n := |ps| - 1;
    var init := ps[..n];
    if ps[n].0 != acc {
      AssignedLast(init, acc);
      var i :| 0 <= i < n && init[i] == (acc, Assigned(init)[acc]) && forall j :: i < j < n ==> init[j].0 != acc;
      assert ps[i] == init[i];
      forall j | i < j < |ps| ensures ps[j].0 != acc {
        if j < n {
          assert ps[j] == init[j];
        }
      }
    } else {
      assert ps[n] == (acc, Assigned(ps)[acc]);
    }
  }

  /** An accession is flagged exactly when it occurs twice and its earlier
      occurrence carries a non-empty tax ID. */
  lemma FlaggedSpec(ps: seq<(string, string)>, acc: string)
    ensures acc in Flagged(ps) <==>
      exists i, j :: 0 <= i < j < |ps| && ps[i].0 == acc && ps[j].0 == acc && ps[i].1 != ""
  {
    if acc in Flagged(ps) {
      FlaggedSound(ps, acc);
    }
    if exists i, j :: 0 <= i < j < |ps| && ps[i].0 == acc && ps[j].0 == acc && ps[i].1 != "" {
      var i, j :| 0 <= i < j < |ps| && ps[i].0 == acc && ps[j].0 == acc && ps[i].1 != "";
      FlaggedComplete(ps, acc, i, j);
    }
  }

  lemma {:induction false} FlaggedSound(ps: seq<(string, string)>, acc: string)
    requires acc in Flagged(ps)
    ensures exists i, j :: 0 <= i < j < |ps| && ps[i].0 == acc && ps[j].0 == acc && ps[i].1 != ""
  {
    var n := |ps| - 1;
    var init := ps[..n];
    if acc in Flagged(init) {
      FlaggedSound(init, acc);
      var i, j :| 0 <= i < j < |init| && init[i].0 == acc && init[j].0 == acc && init[i].1 != "";
      assert ps[i] == init[i] && ps[j] == init[j];
    } else {
      assert ps[n].0 == acc && Lookup(Assigned(init), acc) != "";
      AssignedSpec(init, acc);
      var i :| 0 <= i < n && init[i] == (acc, Assigned(init)[acc]) && forall j :: i < j < n ==> init[j].0 != acc;
      assert ps[i] == init[i];
      assert ps[i].0 == acc && ps[n].0 == acc && ps[i].1 != "";
    }
  }

  lemma {:induction false} FlaggedComplete(ps: seq<(string, string)>, acc: string, i: nat, j: nat)
    requires i < j < |ps| && ps[i].0 == acc && ps[j].0 == acc && ps[i].1 != ""
    ensures acc in Flagged(ps)
  {
    var n := |ps| - 1;
    var init := ps[..n];
    if j < n {
      assert init[i] == ps[i] && init[j] == ps[j];
      FlaggedComplete(init, acc, i, j);
      assert Flagged(init) <= Flagged(ps);
    } else {
      NextAfterFlags(ps, acc, i);
    }
  }

  /** From an occurrence `i` with a non-empty tax ID and a later occurrence,
      the next occurrence after `i` sees that tax ID and flags the accession. */
  lemma {:induction false} NextAfterFlags(ps: seq<(string, string)>, acc: string, i: nat)
    requires i < |ps| - 1 && ps[i].0 == acc && ps[i].1 != "" && ps[|ps| - 1].0 == acc
    ensures acc in Flagged(ps)
    decreases |ps|
  {
    var n := |ps| - 1;
    var init := ps[..n];
    if exists j :: i < j < n && init[j].0 == acc {
      var j :| i < j < n && init[j].0 == acc;
      assert init[..j + 1][j] == init[j] && init[..j + 1][i] == init[i];
      NextAfterFlags(init[..j + 1], acc, i);
      FlaggedPrefix(init, j + 1);
      FlaggedPrefix(ps, n);
    } else {
      AssignedSpec(init, acc);
      assert init[i].0 == acc;
      var k :| 0 <= k < n && init[k] == (acc, Assigned(init)[acc]) && forall j :: k < j < n ==> init[j].0 != acc;
      assert k >= i;
      assert k == i;
      assert Lookup(Assigned(init), acc) == ps[i].1;
    }
  }

  lemma {:induction false} FlaggedPrefix(ps: seq<(string, string)>, m: nat)
    requires m <= |ps|
    ensures Flagged(ps[..m]) <= Flagged(ps)
    decreases |ps| - m
  {
    if m < |ps| {
      FlaggedPrefix(ps, m + 1);
      assert ps[..m + 1][..m] == ps[..m];
    } else {
      assert ps[..m] == ps;
    }
  }

  /** The extra mapping added by hand: tax ID to accession. */
  const ExtraMapping: map<string, string> := map["2844245" := "NC_049948", "1986019" := "NC_022266"]

  /** The second part of main: tid2nc gets every record's accessions under its
      tax ID and then the extra accessions; nc2tid gets every accession's last
      tax ID, then loses the accessions assigned again after a non-empty tax
      ID. The extra mapping never reaches nc2tid. */
  method BuildMaps(ee: seq<Plus>) returns (tid2nc: map<string, seq<string>>, nc2tid: map<string, string>)
    ensures tid2nc.Keys == TidMap(ee).Keys + ExtraMapping.Keys
    ensures forall t :: t in ExtraMapping ==> tid2nc[t] == Get(TidMap(ee), t) + [ExtraMapping[t]]
    ensures forall t :: t in TidMap(ee) && t !in ExtraMapping ==> tid2nc[t] == TidMap(ee)[t]
    ensures nc2tid == Assigned(Pairs(ee)) - Flagged(Pairs(ee))
  {
    tid2nc := map[];
    nc2tid := map[];
    var muktzeh: set<string> := {};
    for i := 0 to |ee|
      invariant tid2nc == TidMap(ee[..i])
      invariant nc2tid == Assigned(Pairs(ee[..i])) && muktzeh == Flagged(Pairs(ee[..i]))
    {
      assert ee[..i + 1][..i] == ee[..i];
      var e := ee[i];
      tid2nc := tid2nc[e.taxID := Get(tid2nc, e.taxID) + e.gb.accessions];
      nc2tid, muktzeh := AssignAccs(nc2tid, muktzeh, Pairs(ee[..i]), e);
    }
    assert ee[..|ee|] == ee;
    nc2tid := DeleteKeys(nc2tid, muktzeh);
    tid2nc := AddExtra(tid2nc, ExtraMapping);
  }

  /** The inner loop: each accession of `e` is assigned its tax ID, and
      flagged first when it already holds a non-empty one. */
  method AssignAccs(nc2tid: map<string, string>, muktzeh: set<string>, ghost before: seq<(string, string)>, e: Plus)
    returns (nc2tid': map<string, string>, muktzeh': set<string>)
    requires nc2tid == Assigned(before) && muktzeh == Flagged(before)
    ensures nc2tid' == Assigned(before + PairsOf(e)) && muktzeh' == Flagged(before + PairsOf(e))
  {
    nc2tid', muktzeh' := nc2tid, muktzeh;
    ghost var ps := PairsOf(e);
    ghost var cur := before;
    var accs := e.gb.accessions;
    for k := 0 to |accs|
      invariant cur == before + ps[..k]
      invariant nc2tid' == Assigned(cur) && muktzeh' == Flagged(cur)
    {
      PrefixSnoc(before, ps, k);
      var acc := accs[k];
      AssignUpdate(nc2tid', muktzeh', cur, (acc, e.taxID));
      if acc in nc2tid' && nc2tid'[acc] != "" {
        muktzeh' := muktzeh' + {acc};
      }
      nc2tid' := nc2tid'[acc := e.taxID];
      cur := cur + [(acc, e.taxID)];
    }
    assert ps[..|accs|] == ps;
  }

  /** One assignment, on the map and the flagged set that stand for `cur`. */
  lemma AssignUpdate(m: map<string, string>, f: set<string>, cur: seq<(string, string)>, p: (string, string))
    requires m == Assigned(cur) && f == Flagged(cur)
    ensures m[p.0 := p.1] == Assigned(cur + [p])
    ensures (if p.0 in m && m[p.0] != "" then f + {p.0} else f) == Flagged(cur + [p])
  {
    AssignStep(cur, p);
  }

  lemma PrefixSnoc<T>(before: seq<T>, ps: seq<T>, k: nat)
    requires k < |ps|
    ensures before + ps[..k + 1] == (before + ps[..k]) + [ps[k]]
  {
    assert ps[..k + 1] == ps[..k] + [ps[k]];
  }

  lemma AssignStep(ps: seq<(string, string)>, p: (string, string))
    ensures Assigned(ps + [p]) == Assigned(ps)[p.0 := p.1]
    ensures Flagged(ps + [p]) == Flagged(ps) + (if Lookup(Assigned(ps), p.0) != "" then {p.0} else {})
  {
    assert (ps + [p])[..|ps|] == ps;
  }

  /** Deletes every key of `ks` from `m`, one at a time. */
  method DeleteKeys(m: map<string, string>, ks: set<string>) returns (r: map<string, string>)
    ensures r == m - ks
  {
    r := m;
    var todo := ks;
    while todo != {}
      invariant todo <= ks
      invariant r == m - (ks - todo)
      decreases |todo|
    {
      var k :| k in todo;
      r := r - {k};
      todo := todo - {k};
    }
  }

  /** Appends each accession of `extra` to the list of its tax ID. */
  method AddExtra(m: map<string, seq<string>>, extra: map<string, string>) returns (r: map<string, seq<string>>)
    ensures forall t :: t in r <==> t in m || t in extra
    ensures forall t :: t in extra ==> r[t] == Get(m, t) + [extra[t]]
    ensures forall t :: t in m && t !in extra ==> r[t] == m[t]
  {
    r := m;
    var todo := extra.Keys;
    while todo != {}
      invariant todo <= extra.Keys
      invariant forall t :: t in r <==> t in m || (t in extra && t !in todo)
      invariant forall t :: t in extra && t !in todo ==> r[t] == Get(m, t) + [extra[t]]
      invariant forall t :: t in m && (t !in extra || t in todo) ==> r[t] == m[t]
      decreases |todo|
    {
      var k :| k in todo;
      r := r[k := Get(r, k) + [extra[k]]];
      todo := todo - {k};
    }
  }

  /** An accession assigned once keeps its record's tax ID. */
  lemma SingleAssignment(ps: seq<(string, string)>, i: nat)
    requires i < |ps| && forall j :: 0 <= j < |ps| && j != i ==> ps[j].0 != ps[i].0
    ensures ps[i].0 !in Flagged(ps) && ps[i].0 in Assigned(ps) && Assigned(ps)[ps[i].0] == ps[i].1
  {
    var acc := ps[i].0;
    FlaggedSpec(ps, acc);
    AssignedSpec(ps, acc);
  }

  /** main without the file writes: the sequence records, the metadata
      records, the no-sequence count and the two maps. */
  method Run(es: seq<Plus>)
    returns (r: Result<(seq<FastaOut>, seq<Plus>, nat, map<string, seq<string>>, map<string, string>), RefSeqError>)
    ensures r.Ok? <==> FirstAccsDistinct(WithSequence(es))
    ensures r.Err? && r.error.DuplicateAcc? ==> SharedFirst(WithSequence(es), r.error.acc)
    ensures r.Ok? ==>
      var ee := r.value.1;
      var tid2nc := r.value.3;
      var nc2tid := r.value.4;
      Written(r.value.0, ee, WithSequence(es)) && r.value.2 == |es| - |WithSequence(es)| &&
      (forall t :: t in tid2nc <==> (exists i :: 0 <= i < |ee| && ee[i].taxID == t) || t in ExtraMapping) &&
      (forall t :: t in tid2nc ==> tid2nc[t] == AccsOfTid(ee, t) + (if t in ExtraMapping then [ExtraMapping[t]] else [])) &&
      |ee| == |WithSequence(es)| &&
      (forall i :: 0 <= i < |ee| ==> ee[i] == Stripped(WithSequence(es)[i])) &&
      (forall acc :: acc in nc2tid <==> acc in Assigned(Pairs(ee)) && acc !in Flagged(Pairs(ee))) &&
      (forall acc :: acc in nc2tid ==> nc2tid[acc] == Assigned(Pairs(ee))[acc])
  {
    var read := ReadRecords(es);
    if read.Err? {
      return Err(read.error);
    }
    var (fas, ee, noSeq) := read.value;
    var tid2nc, nc2tid := BuildMaps(ee);
    forall t ensures (t in TidMap(ee) <==> exists i :: 0 <= i < |ee| && ee[i].taxID == t) &&
                     Get(TidMap(ee), t) == AccsOfTid(ee, t) {
      TidMapSpec(ee, t);
    }
    r := Ok((fas, ee, noSeq, tid2nc, nc2tid));
  }
}
