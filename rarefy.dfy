/**
 * Abundance loading for rarefaction (rarefy/rarefy.go): a kraken report is
 * scanned line by line, remembering whether the current top-level domain is
 * Viruses, and reads are summed per species; the per-sample maps are then
 * written as one table over the union of their keys. The rarefaction itself
 * is a library call and is not modelled.
 */
module Rarefy {
  import opened Wrappers
  import opened Strs
  import opened Seqs
  import opened Tally
  import opened Common
  import Kraken

  /** `^ ? ?\S`: at most two spaces, then a non-whitespace character. */
  predicate LevelMatch(name: string) {
    (|name| > 0 && !IsSpaceRE(name[0])) ||
    (|name| > 1 && name[0] == ' ' && !IsSpaceRE(name[1])) ||
    (|name| > 2 && name[0] == ' ' && name[1] == ' ' && !IsSpaceRE(name[2]))
  }

  /** `^    \S`: exactly four spaces, then a non-whitespace character. */
  predicate DomainMatch(name: string) {
    |name| > 4 && name[..4] == "    " && !IsSpaceRE(name[4])
  }

  /** One line of readFile: the new in-Viruses state and the addition to the map, if any. */
  function Step(inViruses: bool, line: Kraken.Row): (r: (bool, Option<(string, int)>))
    // Unclassified reads count as Other and leave the state alone.
    ensures line.rank == "U" ==> r == (inViruses, Some(("Other", line.readsDirect)))
    // A name indented by at most two spaces starts a new domain.
    ensures line.rank != "U" ==> r.0 == (if LevelMatch(line.name) then line.name == "  Viruses" else inViruses)
    // Outside Viruses only four-space names with positive clade reads count, as Other.
    ensures line.rank != "U" && !r.0 ==>
      r.1 == (if DomainMatch(line.name) && line.readsClade > 0 then Some(("Other", line.readsClade)) else None)
    // Inside Viruses only rank S counts, under the trimmed name.
    ensures line.rank != "U" && r.0 ==>
      r.1 == (if line.rank == "S" then Some((TrimSpaces(line.name), line.readsClade)) else None)
  {
    if line.rank == "U" then (inViruses, Some(("Other", line.readsDirect)))
    else
      var iv := if LevelMatch(line.name) then line.name == "  Viruses" else inViruses;
      if !iv then
        (iv, if DomainMatch(line.name) && line.readsClade > 0 then Some(("Other", line.readsClade)) else None)
      else if line.rank != "S" then (iv, None)
      else (iv, Some((TrimSpaces(line.name), line.readsClade)))
  }

  /** Whether the scan is inside Viruses after `lines`. */
  function InVirusesAfter(lines: seq<Kraken.Row>): bool {
    if lines == [] then false else Step(InVirusesAfter(lines[..|lines| - 1]), lines[|lines| - 1]).0
  }

  /** The additions made by `lines`, in order. */
  function Contributions(lines: seq<Kraken.Row>): seq<(string, int)> {
    if lines == [] then []
    else
      var c := Step(InVirusesAfter(lines[..|lines| - 1]), lines[|lines| - 1]).1;
      Contributions(lines[..|lines| - 1]) + (if c.Some? then [c.value] else [])
  }

  /** The rows of a report that parsed, up to the first that did not. */
  function Values(rows: seq<Result<Kraken.Row, string>>): seq<Kraken.Row>
    requires forall k :: 0 <= k < |rows| ==> rows[k].Ok?
  {
    seq(|rows|, k requires 0 <= k < |rows| => rows[k].value)
  }

  lemma ScanSnoc(lines: seq<Kraken.Row>, line: Kraken.Row)
    ensures InVirusesAfter(lines + [line]) == Step(InVirusesAfter(lines), line).0
    ensures var c := Step(InVirusesAfter(lines), line).1;
      (c.Some? ==> Contributions(lines + [line]) == Contributions(lines) + [c.value]) &&
      (c.None? ==> Contributions(lines + [line]) == Contributions(lines))
  {
    assert (lines + [line])[..|lines|] == lines;
    var c := Step(InVirusesAfter(lines), line).1;
    if c.None? {
      assert Contributions(lines) + [] == Contributions(lines);
    }
  }

  /** readFile: the first read error is returned; otherwise the counts of
      all lines, added up per key. */
  method ReadFile(rows: seq<Result<Kraken.Row, string>>) returns (r: Result<map<string, int>, string>)
    ensures r.Err? ==> exists k :: 0 <= k < |rows| && rows[k] == Err(r.error) && forall j :: 0 <= j < k ==> rows[j].Ok?
    ensures r.Ok? <==> forall k :: 0 <= k < |rows| ==> rows[k].Ok?
    ensures r.Ok? ==> r.value == AddAll(map[], Contributions(Values(rows)))
  {
    var inViruses := false;
    var m := map[];
    ghost var lines: seq<Kraken.Row> := [];
    var i := 0;
    while i < |rows|
      invariant 0 <= i <= |rows| && |lines| == i
      invariant forall j :: 0 <= j < i ==> rows[j] == Ok(lines[j])
      invariant inViruses == InVirusesAfter(lines)
      invariant m == AddAll(map[], Contributions(lines))
    {
      if rows[i].Err? {
        return Err(rows[i].error);
      }
      var line := rows[i].value;
      ScanSnoc(lines, line);
      var st := Step(inViruses, line);
      var c := st.1;
      inViruses := st.0;
      if c.Some? {
        AddAllSnoc(map[], Contributions(lines), c.value);
        m := Add(m, c.value.0, c.value.1);
      }
      lines := lines + [line];
      i := i + 1;
    }
    assert lines == Values(rows);
    return Ok(m);
  }

  /** Every key of a sample's map is "Other" or the trimmed name of a
      species line. */
  lemma {:induction false} ContributionKeys(lines: seq<Kraken.Row>)
    ensures forall k :: k in KeysOf(Contributions(lines)) ==>
      k == "Other" || exists j :: 0 <= j < |lines| && lines[j].rank == "S" && k == TrimSpaces(lines[j].name)
  {
    if lines != [] {
      var init := lines[..|lines| - 1];
      ContributionKeys(init);
      var c := Step(InVirusesAfter(init), lines[|lines| - 1]).1;
      var cs := Contributions(lines);
      forall k | k in KeysOf(cs)
        ensures k == "Other" || exists j :: 0 <= j < |lines| && lines[j].rank == "S" && k == TrimSpaces(lines[j].name)
      {
        var i :| 0 <= i < |cs| && cs[i].0 == k;
        if i < |Contributions(init)| {
          assert Contributions(init)[i] == cs[i];
          assert k in KeysOf(Contributions(init));
          if k != "Other" {
            var j :| 0 <= j < |init| && init[j].rank == "S" && k == TrimSpaces(init[j].name);
            assert lines[j] == init[j];
          }
        }
      }
    }
  }

  /** The name of a sample: the file's base name without ".krk.txt". */
  function SampleName(path: string): (name: string)
    ensures HasSuffix(GoBase(path), ".krk.txt") ==> name + ".krk.txt" == GoBase(path)
    ensures !HasSuffix(GoBase(path), ".krk.txt") ==> name == GoBase(path)
  {
    TrimSuffix(GoBase(path), ".krk.txt")
  }

  /** All keys of all maps. */
  function UnionKeys(vals: seq<map<string, int>>): set<string> {
    set i, k | 0 <= i < |vals| && k in vals[i] :: k
  }

  /** One data row: the sample name, then the value of each column, "0" when missing. */
  method DataRow(name: string, val: map<string, int>, cols: seq<string>) returns (row: seq<string>)
    ensures |row| == |cols| + 1 && row[0] == name
    ensures forall j :: 0 <= j < |cols| ==> row[j + 1] == IntToString(Get(val, cols[j]))
  {
    row := [name];
    var j := 0;
    while j < |cols|
      invariant 0 <= j <= |cols| && |row| == j + 1 && row[0] == name
      invariant forall t :: 0 <= t < j ==> row[t + 1] == IntToString(Get(val, cols[t]))
    {
      row := row + [IntToString(Get(val, cols[j]))];
      j := j + 1;
    }
  }

  /** `row` is the data row of sample `name` under `header`. */
  predicate RowFor(row: seq<string>, name: string, val: map<string, int>, header: seq<string>) {
    |row| == |header| && |row| >= 1 && row[0] == name &&
    forall j :: 1 <= j < |header| ==> row[j] == IntToString(Get(val, header[j]))
  }

  /** toTable: a header of "name" and the union of all keys, in an arbitrary
      order, then one row per sample with its value for each column. */
  method ToTable(names: seq<string>, vals: seq<map<string, int>>) returns (rows: seq<seq<string>>)
    requires |names| <= |vals|
    ensures |rows| == |names| + 1
    ensures |rows[0]| >= 1 && rows[0][0] == "name"
    ensures NoDuplicates(rows[0][1..]) && Elems(rows[0][1..]) == UnionKeys(vals)
    ensures forall i :: 0 <= i < |names| ==> RowFor(rows[i + 1], names[i], vals[i], rows[0])
  {
    var colSet: set<string> := {};
    var v := 0;
    while v < |vals|
      invariant 0 <= v <= |vals|
      invariant colSet == UnionKeys(vals[..v])
    {
      assert vals[..v + 1][..v] == vals[..v];
      colSet := colSet + vals[v].Keys;
      v := v + 1;
    }
    assert vals[..v] == vals;
    var cols := SetToSeq(colSet);
    var header := ["name"] + cols;
    assert header[1..] == cols;
    rows := [header];
    var i := 0;
    while i < |names|
      invariant 0 <= i <= |names| && |rows| == i + 1 && rows[0] == header
      invariant forall t :: 0 <= t < i ==> RowFor(rows[t + 1], names[t], vals[t], header)
    {
      var row := DataRow(names[i], vals[i], cols);
      assert RowFor(row, names[i], vals[i], header) by {
        forall j | 1 <= j < |header| ensures row[j] == IntToString(Get(vals[i], header[j])) {
          assert header[j] == cols[j - 1];
        }
      }
      rows := rows + [row];
      i := i + 1;
    }
  }
}
