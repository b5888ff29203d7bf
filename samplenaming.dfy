/**
 * Sample naming of the Python scripts (samplenaming.py): the same batch-1
 * and batch-2 naming as the Go luna package, but a batch-1 name is cut out
 * of the file name by a regular expression, there is a second mapping to
 * short site-and-date labels, and the group pattern has an empty
 * alternative, so that looking up a group never fails.
 */
module SampleNaming {
  import opened Wrappers
  import opened Strs
  import Luna

  /** Batch-2 prefix to standard sample name; the same table as Luna's. */
  const SampleNameMapping: map<string, string> := Luna.SampleNameMapping

  /** Standard sample name to a short site-and-date label. */
  const SampleNameMapping2: map<string, string> := map[
    "Euro_Tur_040722" := "Tur1",
    "Inh_Tur_040722" := "Tur1",
    "Euro_Tur_111622" := "Tur2",
    "Inh_Tur_111622" := "Tur2",
    "Euro_Tur_113022" := "Tur3",
    "Inh_Tur_113022" := "Tur3",
    "Euro_Wod_041522" := "Wod1",
    "Inh_Wod_041522" := "Wod1",
    "Euro_Wod_111622" := "Wod2",
    "Inh_Wod_111622" := "Wod2",
    "Euro_Wod_113022" := "Wod3",
    "Inh_Wod_113022" := "Wod3",
    "Euro_LB_041422" := "LB1",
    "Inh_LB_041422" := "LB1",
    "Euro_LB_111622" := "LB2",
    "Inh_LB_111622" := "LB2",
    "Euro_LB_113022" := "LB3",
    "Inh_LB_113022" := "LB3"
  ]

  /** The keys of LUNA_GROUPS, in dictionary order. */
  const LunaGroups: seq<string> := ["1.Euro", "1.Inh", "2.Euro", "2.Inh"]

  datatype NameError = NoMatch(name: string) | KeyError(key: string)

  // ---------------------------------------------------------------------
  // The pattern (Euro|Inh)_([a-zA-Z]+)_([0-9]+)

  /** A whole match of the sample-name pattern: "Euro_" or "Inh_", letters,
      '_', digits. */
  predicate IsSampleName(m: string) {
    var q := if HasPrefix(m, "Euro_") then 5 else if HasPrefix(m, "Inh_") then 4 else 0;
    q > 0 &&
    exists u :: q < u < |m| - 1 && m[u] == '_' &&
      (forall j :: q <= j < u ==> IsAsciiLetter(m[j])) &&
      (forall j :: u < j < |m| ==> IsDigit(m[j]))
  }

  /** Where the pattern's "Euro_" or "Inh_" ends when one starts at `p`;
      `p` itself when neither does. */
  function PrefixEnd(s: string, p: nat): nat
    requires p <= |s|
  {
    if OccursAt(s, "Euro_", p) then p + 5 else if OccursAt(s, "Inh_", p) then p + 4 else p
  }

  /** The end of the pattern's match at `p`, if it matches there. The letter
      and digit runs are greedy; backtracking cannot help, since a shorter
      letter run is followed by a letter, not '_'. */
  function MatchAt(s: string, p: nat): (e: Option<nat>)
    requires p <= |s|
    ensures e.Some? ==> p < e.value <= |s| && IsSampleName(s[p..e.value])
    ensures e.Some? ==> e.value == |s| || !IsDigit(s[e.value])
  {
    var q := PrefixEnd(s, p);
    if q == p then None
    else
      var u := q + RunLength(s, q, IsAsciiLetter);
      if u == q || u == |s| || s[u] != '_' then None
      else
        var e := u + 1 + RunLength(s, u + 1, IsDigit);
        if e == u + 1 then None
        else
          MatchShape(s, p, q, u, e);
          Some(e)
  }

  /** The prefix, a letter run, '_' and a digit run make a sample name. */
  lemma MatchShape(s: string, p: nat, q: nat, u: nat, e: nat)
    requires p < q < u && u + 1 < e <= |s| && q == PrefixEnd(s, p)
    requires forall j :: q <= j < u ==> IsAsciiLetter(s[j])
    requires s[u] == '_'
    requires forall j :: u < j < e ==> IsDigit(s[j])
    ensures IsSampleName(s[p..e])
  {
    var m := s[p..e];
    assert HasPrefix(m, "Euro_") <==> OccursAt(s, "Euro_", p);
    assert HasPrefix(m, "Inh_") <==> OccursAt(s, "Inh_", p);
    assert forall j :: q - p <= j < u - p ==> m[j] == s[j + p];
    assert forall j :: u - p < j < |m| ==> m[j] == s[j + p];
    assert m[u - p] == '_';
  }

  /** Some sample name starts at `i`. */
  ghost predicate MatchesAt(s: string, i: nat)
    requires i <= |s|
  {
    exists e :: i < e <= |s| && IsSampleName(s[i..e])
  }

  /** MatchAt finds a match exactly where one starts. */
  lemma MatchAtSpec(s: string, p: nat)
    requires p <= |s|
    ensures MatchAt(s, p).Some? <==> MatchesAt(s, p)
  {
    if MatchAt(s, p).Some? {
      var e := MatchAt(s, p).value;
      assert p < e <= |s| && IsSampleName(s[p..e]);
    }
    if MatchesAt(s, p) {
      var e :| p < e <= |s| && IsSampleName(s[p..e]);
      MatchAtComplete(s, p, e);
    }
  }

  /** A sample name at `p` is found there. */
  lemma MatchAtComplete(s: string, p: nat, e: nat)
    requires p < e <= |s| && IsSampleName(s[p..e])
    ensures MatchAt(s, p).Some?
  {
    var q, u := SampleNameParts(s, p, e);
    RunLengthIs(s, q, IsAsciiLetter, u - q);
    assert RunLength(s, u + 1, IsDigit) != 0;
  }

  /** The parts of a sample name at `p`, as positions in `s`. */
  lemma SampleNameParts(s: string, p: nat, e: nat) returns (q: nat, u: nat)
    requires p < e <= |s| && IsSampleName(s[p..e])
    ensures p < q < u && u + 1 < e && q == PrefixEnd(s, p)
    ensures forall j :: q <= j < u ==> IsAsciiLetter(s[j])
    ensures s[u] == '_' && !IsAsciiLetter(s[u]) && IsDigit(s[u + 1])
  {
    var m := s[p..e];
    var q' := if HasPrefix(m, "Euro_") then 5 else 4;
    var u' :| q' < u' < |m| - 1 && m[u'] == '_' &&
      (forall j :: q' <= j < u' ==> IsAsciiLetter(m[j])) &&
      (forall j :: u' < j < |m| ==> IsDigit(m[j]));
    assert HasPrefix(m, "Euro_") <==> OccursAt(s, "Euro_", p);
    assert !HasPrefix(m, "Euro_") ==> OccursAt(s, "Inh_", p);
    q, u := p + q', p + u';
    forall j | q <= j < u
      ensures IsAsciiLetter(s[j])
    {
      assert s[j] == m[j - p];
    }
    assert s[u] == m[u'];
    assert s[u + 1] == m[u' + 1];
  }

  /** `m` is the match at the least position from `p` on where MatchAt
      matches. */
  predicate LeftmostFrom(s: string, p: nat, m: string)
    requires p <= |s|
  {
    exists i: nat, e: nat :: p <= i < e <= |s| && MatchAt(s, i) == Some(e) &&
      m == s[i..e] && forall j :: p <= j < i ==> MatchAt(s, j).None?
  }

  /** A match at `p` itself is the leftmost one from `p` on. */
  lemma LeftmostFromHere(s: string, p: nat, e: nat)
    requires p <= |s| && MatchAt(s, p) == Some(e)
    ensures LeftmostFrom(s, p, s[p..e])
  {
    assert p <= p < e <= |s| && s[p..e] == s[p..e];
  }

  /** A position where nothing matches does not change the leftmost match
      after it. */
  lemma LeftmostFromSkip(s: string, p: nat, m: string)
    requires p < |s| && MatchAt(s, p).None? && LeftmostFrom(s, p + 1, m)
    ensures LeftmostFrom(s, p, m)
  {
    var i: nat, e: nat :| p + 1 <= i < e <= |s| && MatchAt(s, i) == Some(e) &&
      m == s[i..e] && forall j :: p + 1 <= j < i ==> MatchAt(s, j).None?;
    forall j | p <= j < i
      ensures MatchAt(s, j).None?
    {
      if j > p {
        assert p + 1 <= j < i;
      }
    }
    assert p <= i < e <= |s| && MatchAt(s, i) == Some(e) && m == s[i..e];
  }

  /** The leftmost match of the pattern at or after `p`: none exactly when
      no position from `p` on starts one, otherwise the greedy match at the
      least position that does. */
  function FindFrom(s: string, p: nat): (r: Option<string>)
    requires p <= |s|
    ensures r.Some? ==> Contains(s, r.value) && IsSampleName(r.value)
    decreases |s| - p
  {
    match MatchAt(s, p)
    case Some(e) =>
      assert OccursAt(s, s[p..e], p);
      Some(s[p..e])
    case None => if p == |s| then None else FindFrom(s, p + 1)
  }

  /** What FindFrom finds is the match at the least position from `p` on
      where MatchAt matches. */
  lemma {:induction false} FindFromFirst(s: string, p: nat)
    requires p <= |s|
    ensures FindFrom(s, p).Some? ==> LeftmostFrom(s, p, FindFrom(s, p).value)
    decreases |s| - p
  {
    match MatchAt(s, p)
    case Some(e) =>
      LeftmostFromHere(s, p, e);
    case None =>
      if p < |s| {
        FindFromFirst(s, p + 1);
        if FindFrom(s, p).Some? {
          LeftmostFromSkip(s, p, FindFrom(s, p).value);
        }
      }
  }

  /** FindFrom finds nothing exactly when MatchAt matches nowhere from `p`
      on. */
  lemma {:induction false} FindFromNone(s: string, p: nat)
    requires p <= |s|
    ensures FindFrom(s, p).None? <==> forall i :: p <= i <= |s| ==> MatchAt(s, i).None?
    decreases |s| - p
  {
    if MatchAt(s, p).None? && p < |s| {
      FindFromNone(s, p + 1);
      assert FindFrom(s, p) == FindFrom(s, p + 1);
      if FindFrom(s, p).None? {
        forall i | p <= i <= |s|
          ensures MatchAt(s, i).None?
        {
          if i > p {
            assert p + 1 <= i <= |s|;
          }
        }
      }
    }
  }

  /** `m` is the sample name that starts at the least position from `p`
      on where one starts, with all of the digits that follow it. */
  ghost predicate LeftmostName(s: string, p: nat, m: string)
    requires p <= |s|
  {
    exists i: nat, e: nat :: p <= i < e <= |s| && m == s[i..e] && IsSampleName(m) &&
      (e == |s| || !IsDigit(s[e])) && forall j :: p <= j < i ==> !MatchesAt(s, j)
  }

  /** FindFrom in terms of sample names alone: it finds one exactly when
      one starts at some position from `p` on, and then it is the leftmost
      one, with all of its digits. */
  lemma FindFromLeftmost(s: string, p: nat)
    requires p <= |s|
    ensures FindFrom(s, p).Some? <==> exists i :: p <= i <= |s| && MatchesAt(s, i)
    ensures FindFrom(s, p).Some? ==> LeftmostName(s, p, FindFrom(s, p).value)
  {
    FindFromNone(s, p);
    FindFromFirst(s, p);
    forall i | p <= i <= |s| {
      MatchAtSpec(s, i);
    }
    if FindFrom(s, p).Some? {
      var m := FindFrom(s, p).value;
      var i: nat, e: nat :| p <= i < e <= |s| && MatchAt(s, i) == Some(e) &&
        m == s[i..e] && forall j :: p <= j < i ==> MatchAt(s, j).None?;
      assert IsSampleName(m) && (e == |s| || !IsDigit(s[e]));
      assert forall j :: p <= j < i ==> !MatchesAt(s, j);
    }
  }

  /** fix_name: a batch-1 file name becomes "1." and the first sample name
      found in it (an IndexError when there is none); any other name becomes
      "2." and the standard name of its two-character prefix (a KeyError
      when unmapped). */
  function FixName(path: string): (r: Result<string, NameError>)
    ensures var s := PyBasename(path);
      (HasPrefix(s, "Euro_") || HasPrefix(s, "Inh_") ==>
        (r.Ok? <==> FindFrom(s, 0).Some?) &&
        (r.Ok? ==> r.value == "1." + FindFrom(s, 0).value) &&
        (r.Ok? ==> exists m :: r.value == "1." + m && IsSampleName(m) && Contains(s, m))) &&
      (!(HasPrefix(s, "Euro_") || HasPrefix(s, "Inh_")) ==>
        (r.Ok? <==> s[..if |s| < 2 then |s| else 2] in SampleNameMapping) &&
        (r.Ok? ==> r.value == "2." + SampleNameMapping[s[..if |s| < 2 then |s| else 2]]))
  {
    var s := PyBasename(path);
    if HasPrefix(s, "Euro_") || HasPrefix(s, "Inh_") then
      match FindFrom(s, 0)
      case Some(m) => Ok("1." + m)
      case None => Err(NoMatch(s))
    else
      var key := s[..if |s| < 2 then |s| else 2];
      if key in SampleNameMapping then Ok("2." + SampleNameMapping[key]) else Err(KeyError(key))
  }

  /** fix_name2: the short label of a name without its two-character batch
      prefix; a KeyError when unmapped. */
  function FixName2(s: string): (r: Result<string, NameError>)
    ensures |s| < 2 ==> r.Err?
    ensures |s| >= 2 ==> (r.Ok? <==> s[2..] in SampleNameMapping2) && (r.Ok? ==> r.value == SampleNameMapping2[s[2..]])
  {
    var key := if |s| < 2 then "" else s[2..];
    if key in SampleNameMapping2 then Ok(SampleNameMapping2[key]) else Err(KeyError(key))
  }

  /** SampleNameMapping2 gives the Euro and the Inh sample of each site and
      date the same short label, one label per site and date. */
  lemma Mapping2PairsSites()
    ensures SampleNameMapping2["Euro_Tur_040722"] == SampleNameMapping2["Inh_Tur_040722"] == "Tur1"
    ensures SampleNameMapping2["Euro_Tur_111622"] == SampleNameMapping2["Inh_Tur_111622"] == "Tur2"
    ensures SampleNameMapping2["Euro_Tur_113022"] == SampleNameMapping2["Inh_Tur_113022"] == "Tur3"
    ensures SampleNameMapping2["Euro_Wod_041522"] == SampleNameMapping2["Inh_Wod_041522"] == "Wod1"
    ensures SampleNameMapping2["Euro_Wod_111622"] == SampleNameMapping2["Inh_Wod_111622"] == "Wod2"
    ensures SampleNameMapping2["Euro_Wod_113022"] == SampleNameMapping2["Inh_Wod_113022"] == "Wod3"
    ensures SampleNameMapping2["Euro_LB_041422"] == SampleNameMapping2["Inh_LB_041422"] == "LB1"
    ensures SampleNameMapping2["Euro_LB_111622"] == SampleNameMapping2["Inh_LB_111622"] == "LB2"
    ensures SampleNameMapping2["Euro_LB_113022"] == SampleNameMapping2["Inh_LB_113022"] == "LB3"
  {
  }

  /** fix_name on a batch-1 name: it succeeds exactly when the base name
      contains a sample name, and then takes the leftmost one, with all of
      its digits. */
  lemma FixNameLeftmost(path: string)
    requires HasPrefix(PyBasename(path), "Euro_") || HasPrefix(PyBasename(path), "Inh_")
    ensures var s := PyBasename(path);
      FixName(path).Ok? <==> exists i :: 0 <= i <= |s| && MatchesAt(s, i)
    ensures var s := PyBasename(path);
      FixName(path).Ok? ==> exists m :: FixName(path).value == "1." + m && LeftmostName(s, 0, m)
  {
    var s := PyBasename(path);
    FindFromLeftmost(s, 0);
    if FixName(path).Ok? {
      assert FixName(path).value == "1." + FindFrom(s, 0).value;
    }
  }

  /** sample_group: '^(1\.Euro|1\.Inh|2\.Euro|2\.Inh|)' always matches; the
      first alternative that does gives the group, the empty one gives "". */
  function SampleGroup(s: string): (g: string)
    ensures g == "" || (g in LunaGroups && HasPrefix(s, g))
    ensures g == "" <==> forall k | k in LunaGroups :: !HasPrefix(s, k)
  {
    var r := Luna.FirstPrefix(LunaGroups, s);
    if r.Some? then r.value else ""
  }

  /** The Python group lookup agrees with the Go one wherever Go does not panic. */
  lemma SampleGroupAgreesWithLuna(s: string)
    ensures Luna.SampleGroup(s).Some? <==> SampleGroup(s) != ""
    ensures Luna.SampleGroup(s).Some? ==> SampleGroup(s) == Luna.SampleGroup(s).value
  {
  }

  /** Every name fix_name produces has a group. */
  lemma FixNameHasGroup(path: string)
    requires FixName(path).Ok?
    ensures SampleGroup(FixName(path).value) != ""
  {
    var s := PyBasename(path);
    var n := FixName(path).value;
    if HasPrefix(s, "Euro_") || HasPrefix(s, "Inh_") {
      var m :| n == "1." + m && IsSampleName(m) && Contains(s, m);
      Luna.GroupOfMarkedName("1.", m);
    } else {
      Luna.MappingValuesArePrefixed();
      Luna.GroupOfMarkedName("2.", SampleNameMapping[s[..if |s| < 2 then |s| else 2]]);
    }
    SampleGroupAgreesWithLuna(n);
  }
}
