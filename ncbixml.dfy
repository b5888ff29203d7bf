/**
 * NCBI's XML sequence dump (ncbixml/ncbixml.go): sequences are checked for
 * nucleotide letters, each record's host is taken from its "host"
 * qualifiers, and a metadata map keyed by accession is built.
 */
module NcbiXml {
  import opened Wrappers
  import opened Strs
  import opened Seqs
  import Common
  import KrkTax

  // ---------------------------------------------------------------------
  // isNuc

  /** The letters the table marks: a, c, g, t, n in either case. */
  predicate IsNucChar(c: char) {
    c in {'a', 'A', 'c', 'C', 'g', 'G', 't', 'T', 'n', 'N'}
  }

  /** init: a 256-entry table, true exactly at the nucleotide letters. */
  method MakeNucTable() returns (t: array<bool>)
    ensures fresh(t) && t.Length == 256
    ensures forall i :: 0 <= i < 256 ==> (t[i] <==> IsNucChar(i as char))
  {
    t := new bool[256](_ => false);
    t['a' as int] := true;
    t['A' as int] := true;
    t['c' as int] := true;
    t['C' as int] := true;
    t['g' as int] := true;
    t['G' as int] := true;
    t['t' as int] := true;
    t['T' as int] := true;
    t['n' as int] := true;
    t['N' as int] := true;
  }

  /** Indexing the table with a rune past its end. */
  datatype Panic = IndexOutOfRange(rune: char)

  /** Position `i` is the first rune that is not a nucleotide letter. */
  predicate FirstNonNuc(s: string, i: int) {
    0 <= i < |s| && !IsNucChar(s[i]) && forall k :: 0 <= k < i ==> IsNucChar(s[k])
  }

  /** isNuc: true when every rune is a nucleotide letter (so "" is one);
      the scan stops at the first rune that is not, which panics when that
      rune is past the table. */
  method IsNuc(table: array<bool>, s: string) returns (r: Result<bool, Panic>)
    requires table.Length == 256
    requires forall i :: 0 <= i < 256 ==> (table[i] <==> IsNucChar(i as char))
    ensures r == NucOutcome(s)
  {
    for k := 0 to |s|
      invariant NucOutcome(s) == NucOutcome(s[k..])
    {
      var x := s[k];
      assert s[k..][1..] == s[k + 1..];
      if x as int >= table.Length {
        return Err(IndexOutOfRange(x));
      }
      if !table[x as int] {
        return Ok(false);
      }
    }
    return Ok(true);
  }

  // ---------------------------------------------------------------------
  // Records

  datatype Qualifier = Qualifier(name: string, value: string)

  datatype Feature = Feature(quals: seq<Qualifier>)

  /** One INSDSeq record; `host` starts as decoded and is filled in from
      the qualifiers. */
  datatype Item = Item(id: string, name: string, tax: string, sequence: string,
                       molType: string, features: seq<Feature>, host: string)

  /** A qualifier naming the host, in any letter case. */
  predicate IsHostName(name: string) {
    ToLower(name) == "host"
  }

  /** All qualifiers of all features, in order. */
  function Quals(fs: seq<Feature>): seq<Qualifier> {
    if fs == [] then []
    else Quals(fs[..|fs| - 1]) + fs[|fs| - 1].quals
  }

  /** The host after scanning `qs` from host `h`: each host qualifier
      replaces it. */
  function HostAfter(qs: seq<Qualifier>, h: string): string {
    if qs == [] then h
    else
      var q := qs[|qs| - 1];
      if IsHostName(q.name) then q.value else HostAfter(qs[..|qs| - 1], h)
  }

  /** Qualifier `j` is the last host qualifier of `qs`. */
  predicate LastHost(qs: seq<Qualifier>, j: int) {
    0 <= j < |qs| && IsHostName(qs[j].name) && forall k :: j < k < |qs| ==> !IsHostName(qs[k].name)
  }

  /** Without a host qualifier the starting value stays. */
  lemma {:induction false} HostAfterNone(qs: seq<Qualifier>, h: string)
    requires forall k :: 0 <= k < |qs| ==> !IsHostName(qs[k].name)
    ensures HostAfter(qs, h) == h
  {
    if qs != [] {
      var n := |qs| - 1;
      assert forall k :: 0 <= k < n ==> qs[..n][k] == qs[k];
      HostAfterNone(qs[..n], h);
    }
  }

  /** Otherwise the host is the value of the last host qualifier. */
  lemma {:induction false} HostAfterLast(qs: seq<Qualifier>, h: string, j: int)
    requires LastHost(qs, j)
    ensures HostAfter(qs, h) == qs[j].value
  {
    var n := |qs| - 1;
    if j < n {
      assert LastHost(qs[..n], j) by {
        assert forall k :: 0 <= k < n ==> qs[..n][k] == qs[k];
      }
      HostAfterLast(qs[..n], h, j);
    }
  }

  /** Scanning in two parts is scanning the whole. */
  lemma {:induction false} HostAfterAppend(a: seq<Qualifier>, b: seq<Qualifier>, h: string)
    ensures HostAfter(a + b, h) == HostAfter(b, HostAfter(a, h))
    decreases |b|
  {
    if b == [] {
      assert a + b == a;
    } else {
      var n := |b| - 1;
      assert (a + b)[..|a| + n] == a + b[..n];
      HostAfterAppend(a, b[..n], h);
    }
  }

  /** The record after extraction: the host found, the features dropped. */
  function Extracted(it: Item): Item {
    it.(host := HostAfter(Quals(it.features), it.host), features := [])
  }

  /** The number of records with a non-empty host. */
  function WithHost(items: seq<Item>): (n: nat)
    ensures n <= |items|
  {
    if items == [] then 0
    else WithHost(items[..|items| - 1]) + (if items[|items| - 1].host != "" then 1 else 0)
  }

  /** The qualifier loop of one record: its host, written in place. */
  method ScanHost(items: array<Item>, i: nat)
    modifies items
    requires i < items.Length
    ensures items[i] == old(items[i]).(host := HostAfter(Quals(old(items[i]).features), old(items[i]).host))
    ensures forall k :: 0 <= k < items.Length && k != i ==> items[k] == old(items[k])
  {
    var fs := items[i].features;
    ghost var h0 := items[i].host;
    assert fs[..0] == [];
    for f := 0 to |fs|
      invariant items[i] == old(items[i]).(host := HostAfter(Quals(fs[..f]), h0))
      invariant forall k :: 0 <= k < items.Length && k != i ==> items[k] == old(items[k])
    {
      var qs := fs[f].quals;
      ghost var pre := Quals(fs[..f]);
      assert pre + qs[..0] == pre;
      for j := 0 to |qs|
        invariant items[i] == old(items[i]).(host := HostAfter(pre + qs[..j], h0))
        invariant forall k :: 0 <= k < items.Length && k != i ==> items[k] == old(items[k])
      {
        HostStep(pre, qs, j, h0);
        if ToLower(qs[j].name) == "host" {
          items[i] := items[i].(host := qs[j].value);
        }
      }
      QualsStep(fs, f);
    }
    assert fs[..|fs|] == fs;
  }

  /** One more qualifier: a host qualifier sets the host, any other keeps it. */
  lemma HostStep(pre: seq<Qualifier>, qs: seq<Qualifier>, j: nat, h0: string)
    requires j < |qs|
    ensures HostAfter(pre + qs[..j + 1], h0) ==
      if IsHostName(qs[j].name) then qs[j].value else HostAfter(pre + qs[..j], h0)
  {
    assert (pre + qs[..j + 1])[..|pre + qs[..j + 1]| - 1] == pre + qs[..j];
    assert (pre + qs[..j + 1])[|pre + qs[..j + 1]| - 1] == qs[j];
  }

  lemma QualsStep(fs: seq<Feature>, f: nat)
    requires f < |fs|
    ensures Quals(fs[..f + 1]) == Quals(fs[..f]) + fs[f].quals[..|fs[f].quals|]
  {
    assert fs[..f + 1][..f] == fs[..f];
    assert fs[f].quals[..|fs[f].quals|] == fs[f].quals;
  }

  /** The host loop of main: every record extracted in place, and the count
      of records with a host. */
  method ExtractHosts(items: array<Item>) returns (withHost: nat)
    modifies items
    ensures forall k :: 0 <= k < items.Length ==> items[k] == Extracted(old(items[k]))
    ensures withHost == WithHost(items[..])
  {
    withHost := 0;
    for i := 0 to items.Length
      invariant forall k :: 0 <= k < i ==> items[k] == Extracted(old(items[k]))
      invariant forall k :: i <= k < items.Length ==> items[k] == old(items[k])
      invariant withHost == WithHost(items[..i])
    {
      ghost var pre := items[..i];
      ScanHost(items, i);
      items[i] := items[i].(features := []);
      assert items[..i] == pre;
      assert items[..i + 1] == pre + [items[i]];
      if items[i].host != "" {
        withHost := withHost + 1;
      }
    }
    assert items[..items.Length] == items[..];
  }

  // ---------------------------------------------------------------------
  // Bad sequences

  /** The outcome of isNuc, as a function: the first rune that is not a
      nucleotide letter decides. */
  function NucOutcome(s: string): Result<bool, Panic> {
    if s == [] then Ok(true)
    else if IsNucChar(s[0]) then NucOutcome(s[1..])
    else if s[0] as int < 256 then Ok(false)
    else Err(IndexOutOfRange(s[0]))
  }

  /** isNuc is true exactly when every rune is a nucleotide letter, false
      when the first other rune is in the table, and panics when it is past
      it. */
  lemma {:induction false} NucOutcomeSpec(s: string)
    ensures NucOutcome(s) == Ok(true) <==> forall k :: 0 <= k < |s| ==> IsNucChar(s[k])
    ensures NucOutcome(s) == Ok(false) <==> exists i :: FirstNonNuc(s, i) && s[i] as int < 256
    ensures NucOutcome(s).Err? <==> exists i :: FirstNonNuc(s, i) && s[i] as int >= 256
  {
    if s != [] && IsNucChar(s[0]) {
      var t := s[1..];
      NucOutcomeSpec(t);
      assert forall k :: 0 <= k < |t| ==> t[k] == s[k + 1];
      assert forall i :: FirstNonNuc(t, i) <==> FirstNonNuc(s, i + 1);
      if exists i :: FirstNonNuc(s, i) {
        var i :| FirstNonNuc(s, i);
        assert FirstNonNuc(t, i - 1);
      }
    } else if s != [] {
      assert FirstNonNuc(s, 0);
    }
  }

  /** The number of sequences with a letter outside the table, when no
      sequence panics first. */
  function BadSeqs(items: seq<Item>): Result<nat, Panic> {
    if items == [] then Ok(0)
    else
      match BadSeqs(items[..|items| - 1])
      case Err(e) => Err(e)
      case Ok(n) =>
        match NucOutcome(items[|items| - 1].sequence)
        case Err(e) => Err(e)
        case Ok(nuc) => Ok(n + if nuc then 0 else 1)
  }

  /** The checking loop of main: counts the sequences isNuc rejects. */
  method CountBad(table: array<bool>, items: seq<Item>) returns (r: Result<nat, Panic>)
    requires table.Length == 256
    requires forall i :: 0 <= i < 256 ==> (table[i] <==> IsNucChar(i as char))
    ensures r == BadSeqs(items)
  {
    var bad := 0;
    for i := 0 to |items|
      invariant BadSeqs(items[..i]) == Ok(bad)
    {
      assert items[..i + 1][..i] == items[..i];
      var nuc := IsNuc(table, items[i].sequence);
      if nuc.Err? {
        BadSeqsStops(items, i + 1, nuc.error);
        return Err(nuc.error);
      }
      if !nuc.value {
        bad := bad + 1;
      }
    }
    assert items[..|items|] == items;
    return Ok(bad);
  }

  /** A panic in a prefix is the outcome of the whole. */
  lemma {:induction false} BadSeqsStops(items: seq<Item>, n: nat, e: Panic)
    requires n <= |items| && BadSeqs(items[..n]) == Err(e)
    ensures BadSeqs(items) == Err(e)
    decreases |items| - n
  {
    if n < |items| {
      assert items[..n + 1][..n] == items[..n];
      BadSeqsStops(items, n + 1, e);
    } else {
      assert items[..n] == items;
    }
  }

  // ---------------------------------------------------------------------
  // Metadata

  /** The metadata of one record: name, tax and molType always, host only
      when it is non-empty. */
  function Metadata(it: Item): (m: map<string, string>)
    ensures m.Keys == if it.host != "" then {"name", "tax", "molType", "host"} else {"name", "tax", "molType"}
    ensures m["name"] == it.name && m["tax"] == it.tax && m["molType"] == it.molType
    ensures "host" in m ==> m["host"] == it.host
  {
    var m := map["name" := it.name, "tax" := it.tax, "molType" := it.molType];
    assert m.Keys == {"name", "tax", "molType"};
    if it.host != "" then m["host" := it.host] else m
  }

  /** The accessions of the records, in order. */
  function IDs(items: seq<Item>): (r: seq<string>)
    ensures |r| == |items| && forall k :: 0 <= k < |items| ==> r[k] == items[k].id
  {
    if items == [] then [] else IDs(items[..|items| - 1]) + [items[|items| - 1].id]
  }

  datatype MetaError = MismatchingLengths(items: nat, distinct: nat)

  /** `tax` is the map after the first `i` records: keyed by their
      accessions, and, while these are distinct, each holding its record's
      metadata. */
  ghost predicate MetaUpTo(items: seq<Item>, i: nat, tax: map<string, map<string, string>>)
    requires i <= |items|
  {
    tax.Keys == Elems(IDs(items[..i])) &&
    (NoDuplicates(IDs(items[..i])) ==> forall k :: 0 <= k < i ==> items[k].id in tax && tax[items[k].id] == Metadata(items[k]))
  }

  lemma MetaStep(items: seq<Item>, i: nat, tax: map<string, map<string, string>>)
    requires i < |items| && MetaUpTo(items, i, tax)
    ensures MetaUpTo(items, i + 1, tax[items[i].id := Metadata(items[i])])
  {
    IDsSnoc(items, i);
    MetaKeysStep(IDs(items[..i]), items[i].id, tax, Metadata(items[i]));
    if NoDuplicates(IDs(items[..i + 1])) {
      MetaValuesStep(items, i, tax);
    }
  }

  lemma MetaKeysStep(ids: seq<string>, id: string, tax: map<string, map<string, string>>, m: map<string, string>)
    requires tax.Keys == Elems(ids)
    ensures tax[id := m].Keys == Elems(ids + [id])
  {
    forall x ensures x in ids + [id] <==> x in ids || x == id {
    }
  }

  lemma MetaValuesStep(items: seq<Item>, i: nat, tax: map<string, map<string, string>>)
    requires i < |items| && MetaUpTo(items, i, tax)
    requires IDs(items[..i + 1]) == IDs(items[..i]) + [items[i].id]
    requires NoDuplicates(IDs(items[..i + 1]))
    ensures var tax' := tax[items[i].id := Metadata(items[i])];
      forall k :: 0 <= k < i + 1 ==> items[k].id in tax' && tax'[items[k].id] == Metadata(items[k])
  {
    var ids := IDs(items[..i]);
    var ids' := IDs(items[..i + 1]);
    assert NoDuplicates(ids) by {
      forall a, b | 0 <= a < b < |ids| ensures ids[a] != ids[b] {
        assert ids'[a] == ids[a] && ids'[b] == ids[b];
      }
    }
    forall k | 0 <= k < i ensures items[k].id != items[i].id {
      assert ids'[k] == items[k].id && ids'[i] == items[i].id;
    }
    UpdateKeeps(items, i, tax, Metadata);
  }

  /** Storing record `i`'s value under its fresh accession keeps the values
      of the records before it. */
  lemma UpdateKeeps<V>(items: seq<Item>, i: nat, tax: map<string, V>, f: Item -> V)
    requires i < |items|
    requires forall k :: 0 <= k < i ==> items[k].id in tax && tax[items[k].id] == f(items[k])
    requires forall k :: 0 <= k < i ==> items[k].id != items[i].id
    ensures var tax' := tax[items[i].id := f(items[i])];
      forall k :: 0 <= k < i + 1 ==> items[k].id in tax' && tax'[items[k].id] == f(items[k])
  {
  }

  lemma IDsSnoc(items: seq<Item>, i: nat)
    requires i < |items|
    ensures IDs(items[..i + 1]) == IDs(items[..i]) + [items[i].id]
  {
    assert items[..i + 1][..i] == items[..i];
  }

  /** The metadata loop of main: each accession maps to the metadata of its
      record; a repeated accession shrinks the map and is an error. */
  method BuildMetadata(items: seq<Item>) returns (r: Result<map<string, map<string, string>>, MetaError>)
    ensures r.Ok? <==> NoDuplicates(IDs(items))
    ensures r.Ok? ==> r.value.Keys == Elems(IDs(items))
    ensures r.Ok? ==> forall i :: 0 <= i < |items| ==> items[i].id in r.value && r.value[items[i].id] == Metadata(items[i])
    ensures r.Err? ==> r.error == MismatchingLengths(|items|, |Elems(IDs(items))|) && |Elems(IDs(items))| < |items|
  {
    var tax := map[];
    for i := 0 to |items|
      invariant MetaUpTo(items, i, tax)
    {
      MetaStep(items, i, tax);
      tax := tax[items[i].id := Metadata(items[i])];
    }
    assert items[..|items|] == items;
    Common.DistinctCount(IDs(items));
    if |tax| != |items| {
      if NoDuplicates(IDs(items)) {
        Common.DistinctElems(IDs(items));
      }
      return Err(MismatchingLengths(|items|, |tax|));
    }
    KrkTax.CardNoDup(IDs(items));
    return Ok(tax);
  }

  // ---------------------------------------------------------------------
  // main

  datatype RunError = SeqPanic(p: Panic) | Meta(m: MetaError)

  /** What main reports: the bad-sequence and with-host counts and the
      metadata map. */
  datatype Report = Report(badSeq: nat, withHost: nat, tax: map<string, map<string, string>>)

  function ExtractedAll(items: seq<Item>): seq<Item> {
    seq(|items|, i requires 0 <= i < |items| => Extracted(items[i]))
  }

  /** main after decoding: count bad sequences, extract hosts in place,
      build the metadata. */
  method Run(items: array<Item>) returns (r: Result<Report, RunError>)
    modifies items
    ensures BadSeqs(old(items[..])).Err? ==> r == Err(SeqPanic(BadSeqs(old(items[..])).error))
    ensures BadSeqs(old(items[..])).Ok? ==> items[..] == ExtractedAll(old(items[..]))
    ensures BadSeqs(old(items[..])).Ok? ==> (r.Ok? <==> NoDuplicates(IDs(old(items[..]))))
    ensures r.Ok? ==> r.value.badSeq == BadSeqs(old(items[..])).value
    ensures r.Ok? ==> r.value.withHost == WithHost(ExtractedAll(old(items[..])))
    ensures r.Ok? ==> forall i :: 0 <= i < items.Length ==>
      items[i].id in r.value.tax && r.value.tax[items[i].id] == Metadata(Extracted(old(items[i])))
  {
    var table := MakeNucTable();
    var bad := CountBad(table, items[..]);
    if bad.Err? {
      return Err(SeqPanic(bad.error));
    }
    var withHost := ExtractHosts(items);
    assert items[..] == ExtractedAll(old(items[..]));
    assert IDs(items[..]) == IDs(old(items[..]));
    var tax := BuildMetadata(items[..]);
    if tax.Err? {
      return Err(Meta(tax.error));
    }
    return Ok(Report(bad.value, withHost, tax.value));
  }
}
