/**
 * CZID report parsing (czid/czid.go): the species tax-ID column parser, and
 * the per-species viral abundance summed from the rows of a report and
 * normalized to shares.
 */
module Czid {
  import opened Wrappers
  import opened Strs
  import opened Seqs
  import Abundance

  datatype CzidError =
    | BadTaxIDs(s: string)
    | BadNumber(part: string, err: AtoiError)
    | ZeroTotal

  // ---------------------------------------------------------------------
  // The species_tax_ids column: "[1, 22, 333]"

  /** The text between the brackets, when `s` is bracketed. */
  predicate Bracketed(s: string) {
    s != "" && s[0] == '[' && s[|s| - 1] == ']'
  }

  /** Atoi on each part, stopping at the first that does not parse. */
  function ParseParts(parts: seq<string>): (r: Result<seq<int>, CzidError>)
    ensures r.Ok? <==> forall i :: 0 <= i < |parts| ==> Atoi(parts[i]).Ok?
    ensures r.Ok? ==> |r.value| == |parts| && forall i :: 0 <= i < |parts| ==> r.value[i] == Atoi(parts[i]).value
    ensures r.Err? ==> exists i :: 0 <= i < |parts| && Atoi(parts[i]).Err? && r.error == BadNumber(parts[i], Atoi(parts[i]).error)
  {
    if parts == [] then Ok([])
    else
      match Atoi(parts[0])
      case Err(e) => Err(BadNumber(parts[0], e))
      case Ok(v) =>
        var rest := ParseParts(parts[1..]);
        assert forall i :: 1 <= i < |parts| ==> parts[i] == parts[1..][i - 1];
        if rest.Err? then Err(rest.error) else Ok([v] + rest.value)
  }

  /** ParseTaxIDs: a bracketed list whose inside is split at exactly ", "
      and each piece parsed by Atoi. */
  function ParseTaxIDs(s: string): (r: Result<seq<int>, CzidError>)
    ensures !Bracketed(s) ==> r == Err(BadTaxIDs(s))
    ensures Bracketed(s) ==> |s| >= 2
  {
    if !Bracketed(s) then Err(BadTaxIDs(s))
    else
      ParseParts(Split(s[1..|s| - 1], ", "))
  }

  /** How such a list is written: the integers joined by ", " in brackets. */
  function FormatTaxIDs(ids: seq<int>): string {
    "[" + Join(seq(|ids|, i requires 0 <= i < |ids| => IntToString(ids[i])), ", ") + "]"
  }

  lemma {:induction false} NatStringAvoidsComma(n: nat)
    ensures Avoids(NatToString(n), ", ")
    decreases n
  {
    if n >= 10 {
      NatStringAvoidsComma(n / 10);
    }
  }

  /** Every non-empty list of int64 values written as a list parses back. */
  lemma ParseFormatted(ids: seq<int>)
    requires ids != []
    requires forall i :: 0 <= i < |ids| ==> MinInt64 <= ids[i] <= MaxInt64
    ensures ParseTaxIDs(FormatTaxIDs(ids)) == Ok(ids)
  {
    var strs := seq(|ids|, i requires 0 <= i < |ids| => IntToString(ids[i]));
    var s := FormatTaxIDs(ids);
    assert s[1..|s| - 1] == Join(strs, ", ");
    forall k | 0 <= k < |strs| ensures Avoids(strs[k], ", ") {
      if ids[k] < 0 {
        NatStringAvoidsComma(-ids[k]);
      } else {
        NatStringAvoidsComma(ids[k]);
      }
    }
    SplitJoin(strs, ", ");
    forall k | 0 <= k < |strs| ensures Atoi(strs[k]) == Ok(ids[k]) {
      AtoiOfIntToString(ids[k]);
    }
    var r := ParseTaxIDs(s);
    assert r.Ok?;
    assert r.value == ids;
  }

  /** "[]" is rejected: its one empty piece is not an integer. */
  lemma EmptyListRejected()
    ensures ParseTaxIDs("[]").Err?
  {
    var s := "[]";
    assert s[1..|s| - 1] == "";
    assert Split("", ", ") == [""];
  }

  /** Rows of the test table: the unbracketed inputs fail and the lists
      parse to their integers. */
  lemma ParseTaxIDsRejects()
    ensures ParseTaxIDs("").Err?
    ensures ParseTaxIDs("[4").Err?
    ensures ParseTaxIDs("6666]").Err?
  {
    assert "[4"[|"[4"| - 1] == '4';
  }

  lemma ParseTaxIDsOne()
    ensures ParseTaxIDs("[111]") == Ok([111])
  {
    var s := "[111]";
    assert s[1..|s| - 1] == "111";
    assert Avoids("111", ", ");
    SplitJoin(["111"], ", ");
    assert DigitsValue("111") == 111 by {
      assert "111"[..2] == "11" && "11"[..1] == "1" && "1"[..0] == "";
    }
    assert Atoi("111") == Ok(111);
    assert Split("111", ", ") == ["111"];
    assert ParseParts(["111"]).value == [111];
  }

  // ---------------------------------------------------------------------
  // Abundance of a report

  datatype Entry = Entry(name: string, taxLevel: int, ntRPM: real, nrRPM: real,
                         speciesTaxIDs: seq<int>, category: string)

  /** A row that counts towards the viral abundance. */
  predicate Viral(e: Entry) {
    e.ntRPM != 0.0 && e.taxLevel == 2 && e.category == "viruses"
  }

  /** A row whose name goes into the set of bacterial species. */
  predicate Bacterial(e: Entry) {
    e.ntRPM != 0.0 && e.taxLevel == 2 && e.category == "bacteria"
  }

  /** The NtRPM of the viral rows named `n`, summed. */
  function SumFor(es: seq<Entry>, n: string): real {
    if es == [] then 0.0
    else
      var last := es[|es| - 1];
      SumFor(es[..|es| - 1], n) + (if Viral(last) && last.name == n then last.ntRPM else 0.0)
  }

  /** The NtRPM of all viral rows, summed. */
  function Total(es: seq<Entry>): real {
    if es == [] then 0.0
    else
      var last := es[|es| - 1];
      Total(es[..|es| - 1]) + (if Viral(last) then last.ntRPM else 0.0)
  }

  lemma {:induction false} SumForAbsent(es: seq<Entry>, n: string)
    requires forall i :: 0 <= i < |es| ==> !(Viral(es[i]) && es[i].name == n)
    ensures SumFor(es, n) == 0.0
  {
    if es != [] {
      SumForAbsent(es[..|es| - 1], n);
    }
  }

  lemma SumForStep(es: seq<Entry>, i: nat)
    requires i < |es|
    ensures forall n :: SumFor(es[..i + 1], n) == SumFor(es[..i], n) + (if Viral(es[i]) && es[i].name == n then es[i].ntRPM else 0.0)
  {
    assert es[..i + 1][..i] == es[..i];
  }

  /** The loop of main over the rows of a report. */
  method Tally(es: seq<Entry>) returns (abnd: map<string, real>, bact: set<string>)
    ensures forall n :: n in abnd <==> exists i :: 0 <= i < |es| && Viral(es[i]) && es[i].name == n
    ensures forall n :: n in abnd ==> abnd[n] == SumFor(es, n)
    ensures forall n :: n in bact <==> exists i :: 0 <= i < |es| && Bacterial(es[i]) && es[i].name == n
  {
    abnd := map[];
    bact := {};
    for i := 0 to |es|
      invariant forall n :: n in abnd <==> exists j :: 0 <= j < i && Viral(es[j]) && es[j].name == n
      invariant forall n :: n in abnd ==> abnd[n] == SumFor(es[..i], n)
      invariant forall n :: n in bact <==> exists j :: 0 <= j < i && Bacterial(es[j]) && es[j].name == n
    {
      var e := es[i];
      SumForStep(es, i);
      if e.ntRPM == 0.0 || e.taxLevel != 2 {
        continue;
      }
      if e.category == "bacteria" {
        bact := bact + {e.name};
      }
      if e.category != "viruses" {
        continue;
      }
      if e.name !in abnd {
        SumForAbsent(es[..i], e.name);
      }
      var old0 := if e.name in abnd then abnd[e.name] else 0.0;
      abnd := abnd[e.name := old0 + e.ntRPM];
    }
    assert es[..|es|] == es;
  }

  /** The values of `m` visited in `order`. */
  function ValuesIn(m: map<string, real>, order: seq<string>): (r: seq<real>)
    requires forall k :: k in order ==> k in m
    ensures |r| == |order| && forall i :: 0 <= i < |order| ==> r[i] == m[order[i]]
  {
    seq(|order|, i requires 0 <= i < |order| => m[order[i]])
  }

  /** The per-name sums visited in `order`. */
  function SumsIn(es: seq<Entry>, order: seq<string>): (r: seq<real>)
    ensures |r| == |order| && forall i :: 0 <= i < |order| ==> r[i] == SumFor(es, order[i])
  {
    seq(|order|, i requires 0 <= i < |order| => SumFor(es, order[i]))
  }

  /** Raising one entry of a sequence by `x` raises its sum by `x`. */
  lemma {:induction false} RSumBump(a: seq<real>, b: seq<real>, p: nat, x: real)
    requires |a| == |b| && p < |a|
    requires b[p] == a[p] + x && forall i :: 0 <= i < |a| && i != p ==> b[i] == a[i]
    ensures RSum(b) == RSum(a) + x
  {
    var n := |a| - 1;
    if p < n {
      RSumBump(a[..n], b[..n], p, x);
    } else {
      assert a[..n] == b[..n];
    }
  }

  lemma {:induction false} RSumUnchanged(a: seq<real>, b: seq<real>)
    requires |a| == |b| && forall i :: 0 <= i < |a| ==> b[i] == a[i]
    ensures RSum(b) == RSum(a)
  {
    assert a == b;
  }

  /** Summing the per-name sums over any listing of the names, each once,
      gives the total of the viral rows: the map's values add up to the
      same total whatever order Go visits them in. */
  lemma {:induction false} SumsInTotal(es: seq<Entry>, order: seq<string>)
    requires NoDuplicates(order)
    requires forall i :: 0 <= i < |es| && Viral(es[i]) ==> es[i].name in order
    ensures RSum(SumsIn(es, order)) == Total(es)
  {
    if es == [] {
      assert forall i :: 0 <= i < |order| ==> SumsIn(es, order)[i] == 0.0;
      ZeroSum(SumsIn(es, order));
    } else {
      var init := es[..|es| - 1];
      var last := es[|es| - 1];
      assert forall i :: 0 <= i < |init| ==> init[i] == es[i];
      SumsInTotal(init, order);
      if Viral(last) {
        var p :| 0 <= p < |order| && order[p] == last.name;
        forall i | 0 <= i < |order| && i != p ensures SumsIn(es, order)[i] == SumsIn(init, order)[i] {
          assert order[i] != order[p];
        }
        RSumBump(SumsIn(init, order), SumsIn(es, order), p, last.ntRPM);
      } else {
        RSumUnchanged(SumsIn(init, order), SumsIn(es, order));
      }
    }
  }

  lemma {:induction false} ZeroSum(a: seq<real>)
    requires forall i :: 0 <= i < |a| ==> a[i] == 0.0
    ensures RSum(a) == 0.0
  {
    if a != [] {
      ZeroSum(a[..|a| - 1]);
    }
  }

  /** The normalization at the end of main: the values summed in the order
      Go visits the map, then each divided by that sum. Go divides by a zero
      sum without complaint (giving infinities or NaN); here that is an
      error. */
  method Normalize(abnd: map<string, real>, order: seq<string>) returns (r: Result<map<string, real>, CzidError>)
    requires NoDuplicates(order) && Elems(order) == abnd.Keys
    ensures var s := RSum(ValuesIn(abnd, order));
      (r.Err? <==> abnd != map[] && s == 0.0) &&
      (r.Ok? ==> r.value.Keys == abnd.Keys && forall k :: k in abnd ==> r.value[k] == abnd[k] / s)
  {
    forall k | k in order ensures k in abnd {
      assert k in Elems(order);
    }
    var sum := 0.0;
    for i := 0 to |order|
      invariant sum == RSum(ValuesIn(abnd, order)[..i])
    {
      assert ValuesIn(abnd, order)[..i + 1] == ValuesIn(abnd, order)[..i] + [abnd[order[i]]];
      sum := sum + abnd[order[i]];
    }
    assert ValuesIn(abnd, order)[..|order|] == ValuesIn(abnd, order);
    if abnd == map[] {
      return Ok(map[]);
    }
    if sum == 0.0 {
      return Err(ZeroTotal);
    }
    var m := DivideAll(abnd, order, sum);
    r := Ok(m);
  }

  /** `for k := range abnd { abnd[k] /= sum }`, visiting the keys in `order`. */
  method DivideAll(abnd: map<string, real>, order: seq<string>, sum: real) returns (m: map<string, real>)
    requires NoDuplicates(order) && Elems(order) == abnd.Keys && sum != 0.0
    ensures m.Keys == abnd.Keys && forall k :: k in abnd ==> m[k] == abnd[k] / sum
  {
    m := abnd;
    for i := 0 to |order|
      invariant m.Keys == abnd.Keys
      invariant forall j :: 0 <= j < i ==> m[order[j]] == abnd[order[j]] / sum
      invariant forall j :: i <= j < |order| ==> m[order[j]] == abnd[order[j]]
    {
      assert order[i] in Elems(order);
      forall j | 0 <= j < |order| && j != i ensures order[j] != order[i] { }
      m := m[order[i] := m[order[i]] / sum];
    }
    forall k | k in abnd ensures m[k] == abnd[k] / sum {
      assert k in Elems(order);
    }
  }

  /** The whole of main on a report whose abundance map Go visits in
      `order`: each viral species gets its share of the total NtRPM, and
      the shares sum to 1. */
  method Run(es: seq<Entry>, order: seq<string>) returns (r: Result<map<string, real>, CzidError>, bact: set<string>)
    requires NoDuplicates(order)
    requires forall n :: n in order <==> exists i :: 0 <= i < |es| && Viral(es[i]) && es[i].name == n
    ensures forall n :: n in bact <==> exists i :: 0 <= i < |es| && Bacterial(es[i]) && es[i].name == n
    ensures r.Err? <==> order != [] && Total(es) == 0.0
    ensures r.Ok? ==> forall n :: n in r.value <==> n in order
    ensures r.Ok? ==> forall n :: n in r.value ==> r.value[n] == SumFor(es, n) / Total(es)
    ensures r.Ok? && order != [] ==> RSum(ValuesIn(r.value, order)) == 1.0
  {
    var abnd;
    abnd, bact := Tally(es);
    assert Elems(order) == abnd.Keys;
    forall k | k in order ensures k in abnd { }
    assert ValuesIn(abnd, order) == SumsIn(es, order);
    SumsInTotal(es, order);
    r := Normalize(abnd, order);
    if r.Ok? && order != [] {
      var t := Total(es);
      assert ValuesIn(r.value, order) == Abundance.Scaled(ValuesIn(abnd, order), t);
      Abundance.RSumScaled(ValuesIn(abnd, order), t);
      Abundance.DivSelf(t);
    }
    if order == [] {
      assert abnd == map[];
    } else {
      assert order[0] in abnd;
    }
  }
}
