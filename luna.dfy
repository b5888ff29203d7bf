/**
 * Sample metadata of the first sequencing batch (luna/luna.go): file names
 * are turned into standard sample names, and a sample name is mapped to its
 * group ("1.Euro", "1.Inh", "2.Euro" or "2.Inh") by a regular expression
 * built at start-up from the keys of GroupNameMapping.
 */
module Luna {
  import opened Wrappers
  import opened Strs
  import opened Seqs

  /** Maps a batch-2 file prefix to the standard sample name. */
  const SampleNameMapping: map<string, string> := map[
    "A1" := "Euro_Tur_111622",
    "A2" := "Inh_Tur_111622",
    "B1" := "Euro_Tur_113022",
    "B2" := "Inh_Tur_113022",
    "C1" := "Euro_Tur_040722",
    "C2" := "Inh_Tur_040722",
    "D1" := "Euro_Wod_111622",
    "D2" := "Inh_Wod_111622",
    "E1" := "Euro_Wod_113022",
    "H1" := "Inh_Wod_113022",
    "F1" := "Euro_Wod_041522",
    "G1" := "Inh_Wod_041522",
    "H2" := "Euro_LB_111622",
    "E2" := "Inh_LB_111622",
    "A3" := "Euro_LB_113022",
    "F2" := "Inh_LB_113022",
    "B3" := "Euro_LB_041422",
    "G2" := "Inh_LB_041422"
  ]

  /** Maps a group to its name in the publication. */
  const GroupNameMapping: map<string, string> := map[
    "1.Euro" := "v1 solid",
    "1.Inh" := "v1 influent",
    "2.Euro" := "v2 solid",
    "2.Inh" := "v2 influent"
  ]

  /** The suffixes FixName strips, in the order it strips them. */
  const NameSuffixes: seq<string> := [".json", ".tax", ".krk", ".brk", ".brkraw", ".nreads"]

  datatype NameError = ShortName(name: string) | BadName(name: string)

  /** Every standard sample name starts with "Euro_" or "Inh_". */
  lemma MappingValuesArePrefixed()
    ensures forall k | k in SampleNameMapping :: HasPrefix(SampleNameMapping[k], "Euro_") || HasPrefix(SampleNameMapping[k], "Inh_")
  {
  }

  /** No standard sample name is empty. */
  lemma MappingValuesNonEmpty()
    ensures forall k | k in SampleNameMapping :: SampleNameMapping[k] != ""
  {
    MappingValuesArePrefixed();
  }

  /** FixName: the base name without its known suffixes; a batch-1 name gets
      "1." in front, a batch-2 name is looked up by its first two characters
      and gets "2." in front. Go panics on a name shorter than two characters
      (slicing) and on an unmapped prefix; both are errors here. */
  function FixName(name: string): (r: Result<string, NameError>)
    ensures var s := TrimSuffixes(GoBase(name), NameSuffixes);
      (HasPrefix(s, "Euro_") || HasPrefix(s, "Inh_") ==> r == Ok("1." + s)) &&
      (!(HasPrefix(s, "Euro_") || HasPrefix(s, "Inh_")) ==>
        (r.Ok? <==> |s| >= 2 && s[..2] in SampleNameMapping) &&
        (r.Ok? ==> r.value == "2." + SampleNameMapping[s[..2]]))
  {
    var s := TrimSuffixes(GoBase(name), NameSuffixes);
    MappingValuesNonEmpty();
    if HasPrefix(s, "Euro_") || HasPrefix(s, "Inh_") then Ok("1." + s)
    else if |s| < 2 then Err(ShortName(name))
    else if s[..2] !in SampleNameMapping || SampleNameMapping[s[..2]] == "" then Err(BadName(name))
    else Ok("2." + SampleNameMapping[s[..2]])
  }

  // ---------------------------------------------------------------------
  // The group regular expression

  /** Characters regexp.QuoteMeta escapes. */
  predicate IsRegexMeta(c: char) {
    c in "\\.+*?()|[]{}^$"
  }

  /** regexp.QuoteMeta: a backslash before every metacharacter. */
  function QuoteMeta(s: string): (r: string)
    ensures |r| >= |s|
  {
    if s == "" then ""
    else (if IsRegexMeta(s[0]) then "\\" + [s[0]] else [s[0]]) + QuoteMeta(s[1..])
  }

  function QuoteAll(keys: seq<string>): (r: seq<string>)
    ensures |r| == |keys|
    ensures forall i :: 0 <= i < |keys| ==> r[i] == QuoteMeta(keys[i])
  {
    seq(|keys|, i requires 0 <= i < |keys| => QuoteMeta(keys[i]))
  }

  /** `order` lists the keys of GroupNameMapping once each, as ranging over
      the map does, in one of its possible orders. */
  predicate IsKeyOrder(order: seq<string>) {
    NoDuplicates(order) && Elems(order) == GroupNameMapping.Keys
  }

  lemma JoinSnoc(parts: seq<string>, sep: string, x: string)
    requires |parts| >= 1
    ensures Join(parts + [x], sep) == Join(parts, sep) + sep + x
    decreases |parts|
  {
    if |parts| > 1 {
      assert (parts + [x])[1..] == parts[1..] + [x];
      JoinSnoc(parts[1..], sep, x);
    } else {
      assert (parts + [x])[1..] == [x];
    }
  }

  lemma KeyOrderNonEmpty(order: seq<string>)
    requires IsKeyOrder(order)
    ensures forall i :: 0 <= i < |order| ==> |order[i]| > 0
  {
    forall i | 0 <= i < |order| ensures |order[i]| > 0 {
      assert order[i] in Elems(order);
    }
  }

  /** init: writes '^', then each key quoted, separated by '|'. The '|' is
      written whenever the builder already holds more than the '^'. */
  method BuildGroupRE(order: seq<string>) returns (pattern: string)
    requires IsKeyOrder(order)
    ensures pattern == "^" + Join(QuoteAll(order), "|")
  {
    KeyOrderNonEmpty(order);
    pattern := "^";
    var i := 0;
    while i < |order|
      invariant 0 <= i <= |order|
      invariant pattern == "^" + Join(QuoteAll(order[..i]), "|")
      invariant i > 0 ==> |pattern| > 1
    {
      assert QuoteAll(order[..i + 1]) == QuoteAll(order[..i]) + [QuoteMeta(order[i])];
      if |pattern| > 1 {
        JoinSnoc(QuoteAll(order[..i]), "|", QuoteMeta(order[i]));
        pattern := pattern + "|";
      } else {
        assert i == 0;
      }
      pattern := pattern + QuoteMeta(order[i]);
      i := i + 1;
    }
    assert order[..i] == order;
  }

  /** The first key in `order` that starts `s`. */
  function FirstPrefix(order: seq<string>, s: string): (r: Option<string>)
    ensures r.Some? ==> r.value in order && HasPrefix(s, r.value)
    ensures r.None? ==> forall k :: k in order ==> !HasPrefix(s, k)
  {
    if order == [] then None
    else if HasPrefix(s, order[0]) then Some(order[0])
    else FirstPrefix(order[1..], s)
  }

  /** The pattern "^k1|k2|k3|k4" as written: only the first alternative is
      anchored. FindString returns the leftmost match; at one position the
      alternatives are tried in order. Every key is non-empty, so an empty
      result (the panic) means no alternative matched anywhere. */
  function SampleGroupAsWritten(order: seq<string>, s: string): Option<string>
    requires IsKeyOrder(order)
  {
    FindFrom(order, s, 0)
  }

  /** The first alternative of the pattern that matches at position `p`. */
  function MatchAt(order: seq<string>, s: string, p: nat): (r: Option<string>)
    requires p <= |s|
  {
    if p == 0 then FirstPrefix(order, s)
    else if order == [] then None
    else FirstPrefix(order[1..], s[p..])
  }

  /** The leftmost match of the pattern at or after `p`. */
  function FindFrom(order: seq<string>, s: string, p: nat): Option<string>
    requires p <= |s|
    decreases |s| - p
  {
    var m := MatchAt(order, s, p);
    if m.Some? then m
    else if p == |s| then None
    else FindFrom(order, s, p + 1)
  }

  /** The group of a sample name: the key of GroupNameMapping that starts it,
      or None where Go panics. The keys are tried in a fixed order; since no
      key starts another, the order does not matter (GroupOrderIrrelevant). */
  function SampleGroup(s: string): (r: Option<string>)
    ensures r.Some? ==> r.value in GroupNameMapping && HasPrefix(s, r.value)
    ensures r.None? ==> forall k | k in GroupNameMapping :: !HasPrefix(s, k)
  {
    FirstPrefix(["1.Euro", "1.Inh", "2.Euro", "2.Inh"], s)
  }

  /** No key of GroupNameMapping starts another. */
  lemma KeysPrefixFree(s: string, a: string, b: string)
    requires a in GroupNameMapping && b in GroupNameMapping
    requires HasPrefix(s, a) && HasPrefix(s, b)
    ensures a == b
  {
    assert a == "1.Euro" || a == "1.Inh" || a == "2.Euro" || a == "2.Inh";
    assert b == "1.Euro" || b == "1.Inh" || b == "2.Euro" || b == "2.Inh";
    assert a[0] == s[0] == b[0] && a[2] == s[2] == b[2];
  }

  /** Trying the anchored keys in any order finds the same group. */
  lemma GroupOrderIrrelevant(order: seq<string>, s: string)
    requires IsKeyOrder(order)
    ensures FirstPrefix(order, s) == SampleGroup(s)
  {
    var r := FirstPrefix(order, s);
    var g := SampleGroup(s);
    if r.Some? {
      assert r.value in Elems(order);
      if g.Some? {
        KeysPrefixFree(s, r.value, g.value);
      }
    }
  }

  /** On a name that starts with a group, the pattern as written finds that
      group, whatever the map order. */
  lemma AsWrittenOnGroupedNames(order: seq<string>, s: string)
    requires IsKeyOrder(order) && SampleGroup(s).Some?
    ensures SampleGroupAsWritten(order, s) == SampleGroup(s)
  {
    GroupOrderIrrelevant(order, s);
  }

  /** Counterexample: when "1.Inh" is not the first key in map order, the
      unanchored alternative matches inside "x1.Inh", so SampleGroup returns
      "1.Inh" for a name that has no group instead of panicking. */
  lemma AsWrittenAcceptsUngroupedName()
    ensures SampleGroupAsWritten(["1.Euro", "1.Inh", "2.Euro", "2.Inh"], "x1.Inh") == Some("1.Inh")
    ensures SampleGroup("x1.Inh") == None
  {
    var order := ["1.Euro", "1.Inh", "2.Euro", "2.Inh"];
    assert Elems(order) == GroupNameMapping.Keys by {
      assert forall k :: k in order <==> k in GroupNameMapping.Keys;
    }
    var s := "x1.Inh";
    assert s[0] == 'x';
    assert !HasPrefix(s, "1.Euro") && !HasPrefix(s, "1.Inh") && !HasPrefix(s, "2.Euro") && !HasPrefix(s, "2.Inh");
    assert FirstPrefix(order[3..], s) == None;
    assert FirstPrefix(order[2..], s) == None;
    assert FirstPrefix(order[1..], s) == None;
    assert MatchAt(order, s, 0) == None;
    assert s[1..] == "1.Inh";
    assert MatchAt(order, s, 1) == Some("1.Inh");
  }

  /** A batch marker followed by a standard sample name has a group. */
  lemma GroupOfMarkedName(b: string, v: string)
    requires b == "1." || b == "2."
    requires HasPrefix(v, "Euro_") || HasPrefix(v, "Inh_")
    ensures SampleGroup(b + v).Some?
  {
    var n := b + v;
    assert n[0] == b[0] && n[1] == '.';
    if HasPrefix(v, "Euro_") {
      assert n[2..6] == "Euro";
      var g := [b[0]] + ".Euro";
      assert g == "1.Euro" || g == "2.Euro";
      assert g in GroupNameMapping && HasPrefix(n, g);
    } else {
      assert n[2..5] == "Inh";
      var g := [b[0]] + ".Inh";
      assert g == "1.Inh" || g == "2.Inh";
      assert g in GroupNameMapping && HasPrefix(n, g);
    }
  }

  /** Whenever FixName succeeds, SampleGroup of its result succeeds. */
  lemma FixNameHasGroup(name: string)
    requires FixName(name).Ok?
    ensures SampleGroup(FixName(name).value).Some?
  {
    var s := TrimSuffixes(GoBase(name), NameSuffixes);
    if HasPrefix(s, "Euro_") || HasPrefix(s, "Inh_") {
      GroupOfMarkedName("1.", s);
    } else {
      MappingValuesArePrefixed();
      GroupOfMarkedName("2.", SampleNameMapping[s[..2]]);
    }
  }
}
