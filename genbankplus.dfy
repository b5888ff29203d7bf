/** GenBank records enriched with the tax ID, host, locus name, sequence
    length and molecule type read out of their features and LOCUS line. */
module GenBankPlus {
  import opened Wrappers
  import opened Strs

  /** A feature of the record's feature table, with its qualifiers. */
  datatype Feature = Feature(key: string, fields: map<string, string>)

  /** A qualifier's value; a missing qualifier reads as "". */
  function Field(f: Feature, name: string): string {
    if name in f.fields then f.fields[name] else ""
  }

  /** The parts of a parsed GenBank record that the programs use. */
  datatype GenBank = GenBank(
    locus: string,
    accessions: seq<string>,
    features: seq<Feature>,
    references: seq<string>,
    dbLink: seq<string>,
    origin: string)

  /** A record with the extracted values. */
  datatype Plus = Plus(
    gb: GenBank,
    locusName: string,
    sequenceLength: int,
    molType: string,
    taxID: string,
    host: string)

  datatype PlusError =
    | BadLocus(locus: string)
    | BadNumber(atoi: AtoiError)
    | BadLength(bp: int)
    | Upstream(message: string)

  // ---------------------------------------------------------------------
  // The agree-or-clear rule for the tax ID and the host

  /** Scanning `vals` with current value `cur`: empty values are skipped, a
      value that differs from a non-empty current one clears it and stops the
      scan, any other value becomes current. */
  function Agree(vals: seq<string>, cur: string): string
    decreases |vals|
  {
    if vals == [] then cur
    else if vals[0] == "" then Agree(vals[1..], cur)
    else if cur != "" && cur != vals[0] then ""
    else Agree(vals[1..], vals[0])
  }

  /** Every non-empty value is `v`. */
  predicate AllAre(vals: seq<string>, v: string) {
    forall i :: 0 <= i < |vals| ==> vals[i] == "" || vals[i] == v
  }

  /** The scan ends with the non-empty `v` exactly when the current value
      and all non-empty values agree on `v` and `v` occurs somewhere. */
  lemma {:induction false} AgreeSpec(vals: seq<string>, cur: string, v: string)
    requires v != ""
    ensures Agree(vals, cur) == v <==> (cur == "" || cur == v) && AllAre(vals, v) && (cur == v || v in vals)
    decreases |vals|
  {
    if vals != [] {
      var rest := vals[1..];
      assert vals == [vals[0]] + rest;
      assert AllAre(vals, v) <==> (vals[0] == "" || vals[0] == v) && AllAre(rest, v) by {
        if (vals[0] == "" || vals[0] == v) && AllAre(rest, v) {
          forall i | 0 <= i < |vals| ensures vals[i] == "" || vals[i] == v {
            if i > 0 { assert vals[i] == rest[i - 1]; }
          }
        }
      }
      if vals[0] == "" {
        AgreeSpec(rest, cur, v);
      } else if cur != "" && cur != vals[0] {
      } else {
        AgreeSpec(rest, vals[0], v);
      }
    }
  }

  /** Over a whole list: a non-empty result is the one value all non-empty
      entries share; "" when there is none or two of them differ. */
  lemma AgreeOverAll(vals: seq<string>)
    ensures Agree(vals, "") != "" <==>
      exists i :: 0 <= i < |vals| && vals[i] != "" && AllAre(vals, vals[i])
    ensures Agree(vals, "") != "" ==> Agree(vals, "") in vals && AllAre(vals, Agree(vals, ""))
  {
    var r := Agree(vals, "");
    if r != "" {
      AgreeSpec(vals, "", r);
    }
    if exists i :: 0 <= i < |vals| && vals[i] != "" && AllAre(vals, vals[i]) {
      var i :| 0 <= i < |vals| && vals[i] != "" && AllAre(vals, vals[i]);
      AgreeSpec(vals, "", vals[i]);
    }
  }

  /** The tax ID a feature offers: its db_xref value after "taxon:", or ""
      when the value has another prefix. */
  function TaxIDValue(f: Feature): string {
    var t := Field(f, "db_xref");
    if HasPrefix(t, "taxon:") then t[6..] else ""
  }

  function TaxIDValues(fs: seq<Feature>): (vs: seq<string>)
    ensures |vs| == |fs| && forall i :: 0 <= i < |fs| ==> vs[i] == TaxIDValue(fs[i])
  {
    seq(|fs|, i requires 0 <= i < |fs| => TaxIDValue(fs[i]))
  }

  function HostValues(fs: seq<Feature>): (vs: seq<string>)
    ensures |vs| == |fs| && forall i :: 0 <= i < |fs| ==> vs[i] == Field(fs[i], "host")
  {
    seq(|fs|, i requires 0 <= i < |fs| => Field(fs[i], "host"))
  }

  // ---------------------------------------------------------------------
  // The LOCUS line: name, whitespace, digits, " bp", whitespace, molecule

  predicate NotSpaceRE(c: char) {
    !IsSpaceRE(c)
  }

  /** The end of the locus pattern at `b`: " bp", whitespace and the
      molecule type. Every run is taken whole, since a shorter one cannot be
      followed by what comes next. */
  function LocusTail(s: string, b: nat): (r: Option<string>)
    requires b <= |s|
    ensures r.Some? ==> r.value != [] && forall j :: 0 <= j < |r.value| ==> NotSpaceRE(r.value[j])
  {
    if !OccursAt(s, " bp", b) then None
    else
      var c := b + 3;
      var w2 := RunLength(s, c, IsSpaceRE);
      var e := c + w2;
      var t := RunLength(s, e, NotSpaceRE);
      if w2 == 0 || t == 0 then None else Some(s[e..e + t])
  }

  /** The rest of the locus pattern, tried after a name of length `k`:
      whitespace, the length digits, then the end. */
  function LocusAt(s: string, k: nat): (r: Option<(string, string, string)>)
    requires k <= |s|
    ensures r.Some? ==> r.value.0 == s[..k] && r.value.1 != [] && AllDigits(r.value.1)
  {
    var w1 := RunLength(s, k, IsSpaceRE);
    var a := k + w1;
    var d := RunLength(s, a, IsDigit);
    var b := a + d;
    if w1 == 0 || d == 0 then None
    else
      var mol := LocusTail(s, b);
      if mol.None? then None else Some((s[..k], s[a..b], mol.value))
  }

  /** The lazy name group: the shortest name, from length `k` on, after
      which the rest matches; a name cannot hold a newline. */
  function FindLocus(s: string, k: nat): (r: Option<(string, string, string)>)
    requires 1 <= k
    ensures r.Some? ==> |r.value.0| >= 1 && r.value.0 <= s && r.value.1 != [] && AllDigits(r.value.1)
    decreases |s| + 1 - k
  {
    if k > |s| || s[k - 1] == '\n' then None
    else if LocusAt(s, k).Some? then LocusAt(s, k)
    else FindLocus(s, k + 1)
  }

  /** The name, length digits and molecule type of a LOCUS line. */
  function ParseLocus(s: string): (r: Option<(string, string, string)>)
    ensures r.Some? ==> r.value.0 != [] && r.value.0 <= s && r.value.1 != [] && AllDigits(r.value.1)
  {
    FindLocus(s, 1)
  }

  predicate NoSpace(s: string) {
    forall j :: 0 <= j < |s| ==> NotSpaceRE(s[j])
  }

  predicate AllSpace(s: string) {
    forall j :: 0 <= j < |s| ==> IsSpaceRE(s[j])
  }

  /** A name with no whitespace followed by a match gives that match. */
  lemma FindLocusSkipsName(s: string, n: nat, k: nat)
    requires 1 <= k <= n < |s| && forall j :: 0 <= j < n ==> NotSpaceRE(s[j])
    ensures FindLocus(s, k) == FindLocus(s, n)
  {
    var f := (i: nat) => if 1 <= i then FindLocus(s, i) else None;
    forall i | k <= i < n ensures f(i) == f(i + 1) {
      LocusAtWord(s, i, s[i - 1], s[i]);
    }
    ChainEq(f, k, n);
  }

  /** Equal neighbours from `k` to `n` make the ends equal. */
  lemma {:induction false} ChainEq<X>(f: nat -> X, k: nat, n: nat)
    requires k <= n && forall i :: k <= i < n ==> f(i) == f(i + 1)
    ensures f(k) == f(n)
    decreases n - k
  {
    if k < n {
      ChainEq(f, k + 1, n);
    }
  }

  /** No LOCUS header starts inside a word. */
  lemma LocusAtWord(s: string, k: nat, c: char, d: char)
    requires 1 <= k < |s| && c == s[k - 1] && d == s[k] && NotSpaceRE(c) && NotSpaceRE(d)
    ensures FindLocus(s, k) == FindLocus(s, k + 1)
  {
    assert RunLength(s, k, IsSpaceRE) == 0;
    assert LocusAt(s, k).None?;
  }

  lemma SpaceThenDigits(s: string, k: nat, a: nat, b: nat)
    requires k < a < b < |s| && s[b] == ' '
    requires forall j :: k <= j < a ==> IsSpaceRE(s[j])
    requires forall j :: a <= j < b ==> IsDigit(s[j])
    ensures RunLength(s, k, IsSpaceRE) == a - k && RunLength(s, a, IsDigit) == b - a
  {
    RunLengthIs(s, k, IsSpaceRE, a - k);
    RunLengthIs(s, a, IsDigit, b - a);
  }

  lemma SpaceThenWord(s: string, c: nat, e: nat, f: nat)
    requires c < e < f <= |s|
    requires forall j :: c <= j < e ==> IsSpaceRE(s[j])
    requires forall j :: e <= j < f ==> NotSpaceRE(s[j])
    requires f == |s| || IsSpaceRE(s[f])
    ensures RunLength(s, c, IsSpaceRE) == e - c && RunLength(s, e, NotSpaceRE) == f - e
  {
    RunLengthIs(s, c, IsSpaceRE, e - c);
    RunLengthIs(s, e, NotSpaceRE, f - e);
  }

  lemma LocusTailIs(s: string, b: nat, e: nat, f: nat)
    requires b + 3 < e < f <= |s|
    requires s[b..b + 3] == " bp"
    requires forall j :: b + 3 <= j < e ==> IsSpaceRE(s[j])
    requires forall j :: e <= j < f ==> NotSpaceRE(s[j])
    requires f == |s| || IsSpaceRE(s[f])
    ensures LocusTail(s, b) == Some(s[e..f])
  {
    assert OccursAt(s, " bp", b);
    SpaceThenWord(s, b + 3, e, f);
  }

  /** The pattern's runs sit at the given bounds. */
  lemma LocusAtIs(s: string, k: nat, a: nat, b: nat, e: nat, f: nat)
    requires k < a < b && b + 3 < e < f <= |s|
    requires forall j :: k <= j < a ==> IsSpaceRE(s[j])
    requires forall j :: a <= j < b ==> IsDigit(s[j])
    requires s[b..b + 3] == " bp"
    requires forall j :: b + 3 <= j < e ==> IsSpaceRE(s[j])
    requires forall j :: e <= j < f ==> NotSpaceRE(s[j])
    requires f == |s| || IsSpaceRE(s[f])
    ensures LocusAt(s, k) == Some((s[..k], s[a..b], s[e..f]))
  {
    assert s[b] == s[b..b + 3][0];
    SpaceThenDigits(s, k, a, b);
    LocusTailIs(s, b, e, f);
    var w1 := RunLength(s, k, IsSpaceRE);
    var d := RunLength(s, k + w1, IsDigit);
    assert w1 != 0 && d != 0 && k + w1 + d == b;
    assert LocusTail(s, k + w1 + d) == Some(s[e..f]);
  }

  lemma LocusAtOf(head: string, sp1: string, digits: string, sp2: string, mol: string, rest: string)
    requires sp1 != [] && AllSpace(sp1) && digits != [] && AllDigits(digits)
    requires sp2 != [] && AllSpace(sp2) && mol != [] && NoSpace(mol) && (rest == [] || IsSpaceRE(rest[0]))
    ensures LocusAt(head + sp1 + digits + " bp" + sp2 + mol + rest, |head|) == Some((head, digits, mol))
  {
    var s := head + sp1 + digits + " bp" + sp2 + mol + rest;
    var k := |head|;
    var a := k + |sp1|;
    var b := a + |digits|;
    var e := b + 3 + |sp2|;
    var f := e + |mol|;
    assert forall j :: k <= j < a ==> s[j] == sp1[j - k];
    assert forall j :: a <= j < b ==> s[j] == digits[j - a];
    assert s[b..b + 3] == " bp";
    assert forall j :: b + 3 <= j < e ==> s[j] == sp2[j - b - 3];
    assert forall j :: e <= j < f ==> s[j] == mol[j - e];
    assert f < |s| ==> s[f] == rest[0];
    assert s[..k] == head;
    assert s[a..b] == digits;
    assert s[e..f] == mol;
    LocusAtIs(s, k, a, b, e, f);
  }

  /** A LOCUS line as GenBank writes it parses into its three parts. */
  lemma ParseLocusOf(name: string, sp1: string, digits: string, sp2: string, mol: string, rest: string)
    requires name != [] && NoSpace(name)
    requires sp1 != [] && AllSpace(sp1) && digits != [] && AllDigits(digits)
    requires sp2 != [] && AllSpace(sp2) && mol != [] && NoSpace(mol) && (rest == [] || IsSpaceRE(rest[0]))
    ensures ParseLocus(name + sp1 + digits + " bp" + sp2 + mol + rest) == Some((name, digits, mol))
  {
    var s := name + sp1 + digits + " bp" + sp2 + mol + rest;
    assert forall j :: 0 <= j < |name| ==> s[j] == name[j];
    FindLocusSkipsName(s, |name|, 1);
    LocusAtOf(name, sp1, digits, sp2, mol, rest);
  }

  /** strconv.Atoi on a digit string: its value, or a range error past the
      int64 maximum. */
  lemma AtoiOfDigits(d: string)
    requires d != [] && AllDigits(d)
    ensures Atoi(d) == if DigitsValue(d) <= MaxInt64 then Ok(DigitsValue(d) as int) else Err(RangeError)
  {
    assert IsDigit(d[0]);
  }

  // ---------------------------------------------------------------------
  // ToPlus and Iter

  /** What ToPlus gives: the record with the extracted values, and the first
      error, if any, with the fields set before it. */
  function PlusOf(gb: GenBank): (Plus, Option<PlusError>) {
    var p := Plus(gb, "", 0, "", Agree(TaxIDValues(gb.features), ""), Agree(HostValues(gb.features), ""));
    var lp := ParseLocus(gb.locus);
    if lp.None? then (p, Some(BadLocus(gb.locus)))
    else
      var p := p.(locusName := lp.value.0, molType := lp.value.2);
      var bp := Atoi(lp.value.1);
      if bp.Err? then (p, Some(BadNumber(bp.error)))
      else if bp.value < 1 then (p, Some(BadLength(bp.value)))
      else (p.(sequenceLength := bp.value), None)
  }

  /** The length field is an error exactly when it is all zeros or too
      large for an int64; otherwise the record is complete. */
  lemma PlusOfSpec(gb: GenBank)
    ensures var (p, err) := PlusOf(gb);
      p.gb == gb &&
      (err.None? <==> ParseLocus(gb.locus).Some? && 1 <= DigitsValue(ParseLocus(gb.locus).value.1) <= MaxInt64) &&
      (err.None? ==> p.sequenceLength == DigitsValue(ParseLocus(gb.locus).value.1) && p.sequenceLength >= 1) &&
      (err.Some? ==> p.sequenceLength == 0)
  {
    var lp := ParseLocus(gb.locus);
    if lp.Some? {
      AtoiOfDigits(lp.value.1);
    }
  }

  /** The first loop of ToPlus over the "taxon:" db_xref values. */
  method ScanTaxID(fs: seq<Feature>) returns (taxID: string)
    ensures taxID == Agree(TaxIDValues(fs), "")
  {
    ghost var tv := TaxIDValues(fs);
    taxID := "";
    for i := 0 to |fs|
      invariant Agree(tv[i..], taxID) == Agree(tv, "")
    {
      assert tv[i..] == [tv[i]] + tv[i + 1..];
      var t := Field(fs[i], "db_xref");
      if !HasPrefix(t, "taxon:") {
        continue;
      }
      t := t[6..];
      if t == "" {
        continue;
      }
      if taxID != "" && taxID != t {
        taxID := "";
        break;
      }
      taxID := t;
    }
  }

  /** The second loop of ToPlus over the host qualifiers. */
  method ScanHost(fs: seq<Feature>) returns (host: string)
    ensures host == Agree(HostValues(fs), "")
  {
    ghost var hv := HostValues(fs);
    host := "";
    for i := 0 to |fs|
      invariant Agree(hv[i..], host) == Agree(hv, "")
    {
      assert hv[i..] == [hv[i]] + hv[i + 1..];
      var h := Field(fs[i], "host");
      if h == "" {
        continue;
      }
      if host != "" && host != h {
        host := "";
        break;
      }
      host := h;
    }
  }

  /** ToPlus: the tax ID and the host by the agree-or-clear scans, then the
      LOCUS parts and the sequence length. */
  method ToPlus(gb: GenBank) returns (p: Plus, err: Option<PlusError>)
    ensures (p, err) == PlusOf(gb)
  {
    p := Plus(gb, "", 0, "", "", "");
    var taxID := ScanTaxID(gb.features);
    p := p.(taxID := taxID);
    var host := ScanHost(gb.features);
    p := p.(host := host);
    var lp := ParseLocus(gb.locus);
    if lp.None? {
      return p, Some(BadLocus(gb.locus));
    }
    p := p.(locusName := lp.value.0, molType := lp.value.2);
    var bp := Atoi(lp.value.1);
    if bp.Err? {
      return p, Some(BadNumber(bp.error));
    }
    if bp.value < 1 {
      return p, Some(BadLength(bp.value));
    }
    p := p.(sequenceLength := bp.value);
    err := None;
  }

  /** An item from the GenBank reader: a record, or an error with the
      record read so far, if any. */
  datatype Upstream = Record(gb: GenBank) | Failure(partial: Option<GenBank>, message: string)

  /** An item Iter passes on. */
  datatype Item = Item(plus: Option<Plus>, err: Option<PlusError>)

  function ItemOf(u: Upstream): Item {
    match u
    case Record(gb) => Item(Some(PlusOf(gb).0), PlusOf(gb).1)
    case Failure(partial, message) =>
      Item(if partial.Some? then Some(Plus(partial.value, "", 0, "", "", "")) else None, Some(Upstream(message)))
  }

  /** Iter, read to the end: upstream errors pass through with the partial
      record, unenriched, and the scan goes on; every record is enriched. */
  method Iter(items: seq<Upstream>) returns (out: seq<Item>)
    ensures |out| == |items|
    ensures forall i :: 0 <= i < |items| ==> out[i] == ItemOf(items[i])
  {
    out := [];
    for i := 0 to |items|
      invariant |out| == i && forall j :: 0 <= j < i ==> out[j] == ItemOf(items[j])
    {
      match items[i]
      case Failure(partial, message) =>
        var gbp: Option<Plus> := None;
        if partial.Some? {
          gbp := Some(Plus(partial.value, "", 0, "", "", ""));
        }
        out := out + [Item(gbp, Some(Upstream(message)))];
      case Record(gb) =>
        var p, err := ToPlus(gb);
        out := out + [Item(Some(p), err)];
    }
  }

  /** An upstream error is never lost, and a record is passed on with an
      error exactly when its LOCUS line or length is bad. */
  lemma ItemErrors(u: Upstream)
    ensures u.Failure? ==> ItemOf(u).err == Some(Upstream(u.message)) && (ItemOf(u).plus.Some? <==> u.partial.Some?)
    ensures u.Record? ==> (ItemOf(u).plus.Some? && ItemOf(u).plus.value.gb == u.gb &&
                           (ItemOf(u).err.None? <==>
                              ParseLocus(u.gb.locus).Some? && 1 <= DigitsValue(ParseLocus(u.gb.locus).value.1) <= MaxInt64))
  {
    if u.Record? {
      PlusOfSpec(u.gb);
    }
  }
}
