/**
 * The VSP2 species table (vsp2/vsp2.go): each reporting name mapped to the
 * reference accessions listed for it, split at ';' or ',' and the blanks
 * after them.
 */
module Vsp2 {
  import opened Wrappers
  import opened Strs
  import opened Seqs

  // ---------------------------------------------------------------------
  // Splitting at the pattern [;,]\s*

  predicate IsSep(c: char) {
    c == ';' || c == ','
  }

  /** The first separator at or after `from`. */
  function FirstSep(s: string, from: nat): (r: Option<nat>)
    requires from <= |s|
    ensures r.Some? ==> from <= r.value < |s| && IsSep(s[r.value])
    ensures r.Some? ==> forall k :: from <= k < r.value ==> !IsSep(s[k])
    ensures r.None? ==> forall k :: from <= k < |s| ==> !IsSep(s[k])
    decreases |s| - from
  {
    if from == |s| then None
    else if IsSep(s[from]) then Some(from)
    else FirstSep(s, from + 1)
  }

  /** The end of the run of \s starting at `j`: the greedy \s* of the pattern. */
  function SkipSpace(s: string, j: nat): (r: nat)
    requires j <= |s|
    ensures j <= r <= |s| && (r < |s| ==> !IsSpaceRE(s[r]))
    ensures forall k :: j <= k < r ==> IsSpaceRE(s[k])
    decreases |s| - j
  {
    if j < |s| && IsSpaceRE(s[j]) then SkipSpace(s, j + 1) else j
  }

  /** regexp.Split(s, -1) for [;,]\s* on a non-empty `s`: the text between
      the matches, always including the text after the last one. */
  function ReSplit(s: string): (parts: seq<string>)
    ensures |parts| >= 1
    ensures forall p, k :: p in parts && 0 <= k < |p| ==> !IsSep(p[k])
    decreases |s|
  {
    match FirstSep(s, 0)
    case None => [s]
    case Some(i) =>
      var rest := ReSplit(s[SkipSpace(s, i + 1)..]);
      assert forall k :: 0 <= k < i ==> s[..i][k] == s[k];
      [s[..i]] + rest
  }

  /** The number of separator characters in `s`. */
  function SepCount(s: string): nat {
    if s == [] then 0 else (if IsSep(s[0]) then 1 else 0) + SepCount(s[1..])
  }

  lemma {:induction false} SepCountFree(s: string, i: nat)
    requires i <= |s| && forall k :: 0 <= k < i ==> !IsSep(s[k])
    ensures SepCount(s) == SepCount(s[i..])
    decreases i
  {
    if i > 0 {
      assert s[1..][i - 1..] == s[i..];
      SepCountFree(s[1..], i - 1);
    }
  }

  /** One piece per separator, plus one. */
  lemma {:induction false} ReSplitCount(s: string)
    ensures |ReSplit(s)| == SepCount(s) + 1
    decreases |s|
  {
    match FirstSep(s, 0)
    case None =>
      SepCountFree(s, |s|);
    case Some(i) =>
      var j := SkipSpace(s, i + 1);
      assert |ReSplit(s)| == 1 + |ReSplit(s[j..])|;
      ReSplitCount(s[j..]);
      SepCountAtSep(s, i, j);
  }

  /** A separator-free head, one separator and a run of blanks count one. */
  lemma SepCountAtSep(s: string, i: nat, j: nat)
    requires i < j <= |s| && IsSep(s[i])
    requires forall k :: 0 <= k < i ==> !IsSep(s[k])
    requires forall k :: i + 1 <= k < j ==> IsSpaceRE(s[k])
    ensures SepCount(s) == 1 + SepCount(s[j..])
  {
    SepCountFree(s, i);
    var t := s[i + 1..];
    assert s[i..][1..] == t;
    forall k | 0 <= k < j - (i + 1) ensures !IsSep(t[k]) {
      assert t[k] == s[i + 1 + k];
    }
    SepCountFree(t, j - (i + 1));
    assert t[j - (i + 1)..] == s[j..];
  }

  /** A separator the pattern matches whole: ';' or ',' then blanks. */
  predicate IsSeparator(sep: string) {
    |sep| >= 1 && IsSep(sep[0]) && forall k :: 1 <= k < |sep| ==> IsSpaceRE(sep[k])
  }

  /** One split step: a separator-free head, one separator, and a rest that
      does not start with a blank split as the head then the rest's pieces. */
  lemma ReSplitCons(p0: string, sep: string, rest: string)
    requires IsSeparator(sep)
    requires forall k :: 0 <= k < |p0| ==> !IsSep(p0[k])
    requires rest != "" ==> !IsSpaceRE(rest[0])
    ensures ReSplit(p0 + sep + rest) == [p0] + ReSplit(rest)
  {
    var s := p0 + sep + rest;
    assert forall k :: 0 <= k < |p0| ==> s[k] == p0[k];
    FirstSepAt(s, |p0|);
    forall k | |p0| + 1 <= k < |p0| + |sep| ensures IsSpaceRE(s[k]) {
      assert s[k] == sep[k - |p0|];
    }
    if |p0| + |sep| < |s| {
      assert s[|p0| + |sep|] == rest[0];
    }
    SkipSpaceRun(s, |p0| + 1, |p0| + |sep|);
    assert s[..|p0|] == p0;
    assert s[|p0| + |sep|..] == rest;
  }

  /** Pieces free of separators, none but the first starting with a blank,
      joined by any one separator, split back into themselves. */
  lemma {:induction false} ReSplitJoin(parts: seq<string>, sep: string)
    requires IsSeparator(sep) && |parts| >= 1
    requires forall p, k :: p in parts && 0 <= k < |p| ==> !IsSep(p[k])
    requires forall i :: 1 <= i < |parts| && parts[i] != "" ==> !IsSpaceRE(parts[i][0])
    ensures ReSplit(Join(parts, sep)) == parts
  {
    if |parts| == 1 {
      assert parts[0] in parts;
    } else {
      var tail := parts[1..];
      TailPieces(parts, sep);
      ReSplitJoin(tail, sep);
      ReSplitCons(parts[0], sep, Join(tail, sep));
      assert parts == [parts[0]] + tail;
    }
  }

  /** What ReSplitJoin needs of the pieces after the first. */
  lemma TailPieces(parts: seq<string>, sep: string)
    requires IsSeparator(sep) && |parts| >= 2
    requires forall p, k :: p in parts && 0 <= k < |p| ==> !IsSep(p[k])
    requires forall i :: 1 <= i < |parts| && parts[i] != "" ==> !IsSpaceRE(parts[i][0])
    ensures var tail := parts[1..];
      Join(parts, sep) == parts[0] + sep + Join(tail, sep) &&
      (forall k :: 0 <= k < |parts[0]| ==> !IsSep(parts[0][k])) &&
      (forall p, k :: p in tail && 0 <= k < |p| ==> !IsSep(p[k])) &&
      (forall i :: 1 <= i < |tail| && tail[i] != "" ==> !IsSpaceRE(tail[i][0])) &&
      (Join(tail, sep) != "" ==> !IsSpaceRE(Join(tail, sep)[0]))
  {
    var tail := parts[1..];
    assert forall p :: p in tail ==> p in parts;
    assert forall i :: 1 <= i < |tail| ==> tail[i] == parts[i + 1];
    assert parts[0] in parts;
    NoBlankHead(tail, sep);
  }

  lemma FirstSepAt(s: string, i: nat)
    requires i < |s| && IsSep(s[i]) && forall k :: 0 <= k < i ==> !IsSep(s[k])
    ensures FirstSep(s, 0) == Some(i)
  {
  }

  lemma {:induction false} SkipSpaceRun(s: string, j: nat, e: nat)
    requires j <= e <= |s| && forall k :: j <= k < e ==> IsSpaceRE(s[k])
    requires e < |s| ==> !IsSpaceRE(s[e])
    ensures SkipSpace(s, j) == e
    decreases e - j
  {
    if j < e {
      SkipSpaceRun(s, j + 1, e);
    }
  }

  /** A join whose first piece does not start with a blank does not either:
      it starts with that piece, or with the separator when the piece is
      empty. */
  lemma NoBlankHead(parts: seq<string>, sep: string)
    requires IsSeparator(sep) && |parts| >= 1
    requires parts[0] != "" ==> !IsSpaceRE(parts[0][0])
    ensures Join(parts, sep) != "" ==> !IsSpaceRE(Join(parts, sep)[0])
  {
    if |parts| > 1 {
      assert Join(parts, sep) == parts[0] + sep + Join(parts[1..], sep);
    }
  }

  /** ParseIDs: "" and "-" list no IDs; anything else is split at the
      separators. The error it returns is always nil. */
  function ParseIDs(s: string): (ids: seq<string>)
    ensures s == "" || s == "-" ==> ids == []
    ensures s != "" && s != "-" ==> |ids| == SepCount(s) + 1
    ensures forall p, k :: p in ids && 0 <= k < |p| ==> !IsSep(p[k])
  {
    if s == "" || s == "-" then []
    else
      ReSplitCount(s);
      ReSplit(s)
  }

  /** A list of accessions written with any separator parses back to the
      list, unless it is written as "" or "-". */
  lemma ParseIDsJoin(parts: seq<string>, sep: string)
    requires IsSeparator(sep) && |parts| >= 1
    requires forall p, k :: p in parts && 0 <= k < |p| ==> !IsSep(p[k])
    requires forall i :: 1 <= i < |parts| && parts[i] != "" ==> !IsSpaceRE(parts[i][0])
    requires Join(parts, sep) != "" && Join(parts, sep) != "-"
    ensures ParseIDs(Join(parts, sep)) == parts
  {
    ReSplitJoin(parts, sep);
  }

  /** A lone separator gives two empty IDs, a trailing one an empty last ID. */
  lemma ParseIDsEdges()
    ensures ParseIDs(",") == ["", ""]
    ensures ParseIDs("a;") == ["a", ""]
  {
    assert FirstSep(",", 0) == Some(0);
    assert ","[1..] == "";
    assert ","[..0] == "";
    var s := "a;";
    assert FirstSep(s, 1) == Some(1);
    assert s[2..] == "" && s[..1] == "a";
  }

  // ---------------------------------------------------------------------
  // The table

  /** A row: the reporting name and the raw reference column. */
  datatype Row = Row(name: string, refs: string)

  /** The number of rows whose IDs are empty. */
  function NoIDs(rows: seq<Row>): (r: nat)
    ensures r <= |rows|
  {
    if rows == [] then 0
    else NoIDs(rows[..|rows| - 1]) + (if |ParseIDs(rows[|rows| - 1].refs)| == 0 then 1 else 0)
  }

  /** Exactly the rows whose column is "" or "-" are counted. */
  lemma {:induction false} NoIDsSpec(rows: seq<Row>)
    ensures NoIDs(rows) == 0 <==> forall i :: 0 <= i < |rows| ==> rows[i].refs != "" && rows[i].refs != "-"
  {
    if rows != [] {
      var n := |rows| - 1;
      NoIDsSpec(rows[..n]);
      NoIDsLast(rows);
      CountZeroStep(rows, NoIDs(rows[..n]), NoIDs(rows));
    }
  }

  /** The inductive step of NoIDsSpec, on the two counts as plain numbers. */
  lemma CountZeroStep(rows: seq<Row>, a: nat, b: nat)
    requires rows != []
    requires var n := |rows| - 1;
      (a == 0 <==> forall i :: 0 <= i < n ==> rows[..n][i].refs != "" && rows[..n][i].refs != "-") &&
      b == a + (if rows[n].refs == "" || rows[n].refs == "-" then 1 else 0)
    ensures b == 0 <==> forall i :: 0 <= i < |rows| ==> rows[i].refs != "" && rows[i].refs != "-"
  {
    var n := |rows| - 1;
    var pre := rows[..n];
    if b == 0 {
      forall i | 0 <= i < |rows| ensures rows[i].refs != "" && rows[i].refs != "-" {
        if i < n {
          assert pre[i] == rows[i];
        }
      }
    } else if rows[n].refs != "" && rows[n].refs != "-" {
      var i :| 0 <= i < n && (pre[i].refs == "" || pre[i].refs == "-");
      assert pre[i] == rows[i];
    }
  }

  lemma NoIDsLast(rows: seq<Row>)
    requires rows != []
    ensures var n := |rows| - 1;
      NoIDs(rows) == NoIDs(rows[..n]) + (if rows[n].refs == "" || rows[n].refs == "-" then 1 else 0)
  {
    ParseIDsEmpty(rows[|rows| - 1].refs);
  }

  lemma ParseIDsEmpty(s: string)
    ensures |ParseIDs(s)| == 0 <==> s == "" || s == "-"
  {
  }

  /** `m` maps each name of the first `i` rows to the IDs of its last row
      among them. */
  ghost predicate LastWins(rows: seq<Row>, i: nat, m: map<string, seq<string>>)
    requires i <= |rows|
  {
    (forall n :: n in m <==> exists j :: 0 <= j < i && rows[j].name == n) &&
    forall n :: n in m ==> exists j :: LastRow(rows, i, j, n) && m[n] == ParseIDs(rows[j].refs)
  }

  /** Row `j` is the last of the first `i` rows named `n`. */
  predicate LastRow(rows: seq<Row>, i: nat, j: int, n: string)
    requires i <= |rows|
  {
    0 <= j < i && rows[j].name == n && forall k :: j < k < i ==> rows[k].name != n
  }

  lemma LastWinsStep(rows: seq<Row>, i: nat, m: map<string, seq<string>>)
    requires i < |rows| && LastWins(rows, i, m)
    ensures LastWins(rows, i + 1, m[rows[i].name := ParseIDs(rows[i].refs)])
  {
    var ids := ParseIDs(rows[i].refs);
    LastWinsKeys(rows, i, m, ids);
    LastWinsValues(rows, i, m, ids);
  }

  lemma LastWinsKeys(rows: seq<Row>, i: nat, m: map<string, seq<string>>, ids: seq<string>)
    requires i < |rows|
    requires forall n :: n in m <==> exists j :: 0 <= j < i && rows[j].name == n
    ensures var m' := m[rows[i].name := ids];
      forall n :: n in m' <==> exists j :: 0 <= j < i + 1 && rows[j].name == n
  {
    var m' := m[rows[i].name := ids];
    forall n ensures n in m' <==> exists j :: 0 <= j < i + 1 && rows[j].name == n {
      if n in m {
        var j :| 0 <= j < i && rows[j].name == n;
        assert 0 <= j < i + 1;
      }
      if exists j :: 0 <= j < i + 1 && rows[j].name == n {
        var j :| 0 <= j < i + 1 && rows[j].name == n;
        if j < i {
          assert n in m;
        }
      }
    }
  }

  lemma LastWinsValues(rows: seq<Row>, i: nat, m: map<string, seq<string>>, ids: seq<string>)
    requires i < |rows| && ids == ParseIDs(rows[i].refs)
    requires forall n :: n in m ==> exists j :: LastRow(rows, i, j, n) && m[n] == ParseIDs(rows[j].refs)
    ensures var m' := m[rows[i].name := ids];
      forall n :: n in m' ==> exists j :: LastRow(rows, i + 1, j, n) && m'[n] == ParseIDs(rows[j].refs)
  {
    var m' := m[rows[i].name := ids];
    forall n | n in m' ensures exists j :: LastRow(rows, i + 1, j, n) && m'[n] == ParseIDs(rows[j].refs) {
      if n != rows[i].name {
        var j :| LastRow(rows, i, j, n) && m[n] == ParseIDs(rows[j].refs);
        assert LastRow(rows, i + 1, j, n);
      } else {
        assert LastRow(rows, i + 1, i, n);
      }
    }
  }

  /** The main loop: each name maps to the IDs of its last row, rows with
      no IDs included; `noIDs` counts those rows. */
  method Collect(rows: seq<Row>) returns (m: map<string, seq<string>>, noIDs: nat)
    ensures forall n :: n in m <==> exists i :: 0 <= i < |rows| && rows[i].name == n
    ensures forall n :: n in m ==> exists j :: LastRow(rows, |rows|, j, n) && m[n] == ParseIDs(rows[j].refs)
    ensures noIDs == NoIDs(rows)
  {
    m := map[];
    noIDs := 0;
    for i := 0 to |rows|
      invariant LastWins(rows, i, m)
      invariant noIDs == NoIDs(rows[..i])
    {
      assert rows[..i + 1][..i] == rows[..i];
      var ids := ParseIDs(rows[i].refs);
      if |ids| == 0 {
        noIDs := noIDs + 1;
      }
      LastWinsStep(rows, i, m);
      m := m[rows[i].name := ids];
    }
    assert rows[..|rows|] == rows;
  }
}
