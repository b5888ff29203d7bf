/**
 * Conversion of a kraken report into an abundance map
 * (krakenpost/krakenpost.go). The hierarchy and level handling is the same
 * code as kraken.File and is modelled by it; this module adds the
 * per-line aggregation rules of each reporting mode.
 */
module KrakenPost {
  import opened Wrappers
  import opened Strs
  import opened Kraken
  import opened Tally

  /** The -m flag. */
  datatype Mode = Vir | Virp | Virg | Bact | Viror | AllSp | AllGen

  /** The -m, -tid and -others flags. */
  datatype Options = Options(mode: Mode, useTaxIDs: bool, withOthers: bool)

  /** Modes that report genera rather than species. */
  predicate GenusMode(mode: Mode) {
    mode == Virg || mode == AllGen
  }

  /** The domain each mode reports on. */
  predicate InDomainOfInterest(mode: Mode, hierarchy: seq<string>) {
    match mode
    case Vir | Virp | Virg | Viror => |hierarchy| >= 2 && hierarchy[1] == "Viruses"
    case Bact => |hierarchy| >= 3 && hierarchy[2] == "Bacteria"
    case AllSp | AllGen => true
  }

  /** The key a line reports under before any phylum suffix: its trimmed
      name, or its tax ID with -tid. The hierarchy keeps the text name. */
  function LineName(e: Entry, opts: Options): string {
    if opts.useTaxIDs then IntToString(e.row.taxID) else TrimSpaces(e.row.name)
  }

  /** The phylum suffix of the virp mode: the level-4 name, or "unknown". */
  function PhylumSuffix(hierarchy: seq<string>): string {
    "," + (if |hierarchy| < 5 then "unknown" else hierarchy[4])
  }

  /** What one report line adds to the abundance map, if anything. */
  function Contribution(e: Entry, opts: Options): (c: Option<(string, int)>)
    // Unclassified reads, with -others.
    ensures e.row.rank == "U" && opts.withOthers ==> c == Some(("Unclassified", e.row.readsDirect))
    // Lines outside the domain of interest.
    ensures !(e.row.rank == "U" && opts.withOthers) && !InDomainOfInterest(opts.mode, e.hierarchy) ==>
      c == (if opts.mode == Viror then Some(("Other", e.row.readsDirect))
            else if opts.withOthers && e.level == 2 then Some((LineName(e, opts), e.row.readsClade))
            else None)
    // Species modes: any rank starting with "S", direct reads, zero counts skipped.
    ensures !(e.row.rank == "U" && opts.withOthers) && InDomainOfInterest(opts.mode, e.hierarchy) && !GenusMode(opts.mode) ==>
      (c.Some? <==> HasPrefix(e.row.rank, "S") && e.row.readsDirect != 0) &&
      (c.Some? ==> c.value.1 == e.row.readsDirect)
    // Genus modes: rank exactly "G", clade reads.
    ensures !(e.row.rank == "U" && opts.withOthers) && InDomainOfInterest(opts.mode, e.hierarchy) && GenusMode(opts.mode) ==>
      (c.Some? <==> e.row.rank == "G") && (c.Some? ==> c.value.1 == e.row.readsClade)
    // Reported keys: the line name, with the phylum attached in virp mode.
    ensures !(e.row.rank == "U" && opts.withOthers) && InDomainOfInterest(opts.mode, e.hierarchy) && c.Some? ==>
      c.value.0 == LineName(e, opts) + (if opts.mode == Virp then PhylumSuffix(e.hierarchy) else "")
  {
    var name := LineName(e, opts);
    if e.row.rank == "U" && opts.withOthers then Some(("Unclassified", e.row.readsDirect))
    else if !InDomainOfInterest(opts.mode, e.hierarchy) then
      if opts.mode == Viror then Some(("Other", e.row.readsDirect))
      else if opts.withOthers && e.level == 2 then Some((name, e.row.readsClade))
      else None
    else
      var amount :=
        if !GenusMode(opts.mode) then
          if HasPrefix(e.row.rank, "S") && e.row.readsDirect != 0 then Some(e.row.readsDirect) else None
        else
          if e.row.rank == "G" then Some(e.row.readsClade) else None;
      if amount.None? then None
      else if opts.mode == Virp then Some((name + PhylumSuffix(e.hierarchy), amount.value))
      else Some((name, amount.value))
  }

  /** The additions of all lines, in report order. */
  function Contributions(es: seq<Entry>, opts: Options): seq<(string, int)> {
    if es == [] then []
    else
      var c := Contribution(es[|es| - 1], opts);
      Contributions(es[..|es| - 1], opts) + (if c.Some? then [c.value] else [])
  }

  /** The aggregation loop of main over the entries of a report. */
  method Aggregate(es: seq<Entry>, opts: Options) returns (abnd: map<string, int>)
    ensures abnd == AddAll(map[], Contributions(es, opts))
  {
    abnd := map[];
    var i := 0;
    while i < |es|
      invariant 0 <= i <= |es|
      invariant abnd == AddAll(map[], Contributions(es[..i], opts))
    {
      assert es[..i + 1][..i] == es[..i];
      var c := Contribution(es[i], opts);
      assert Contributions(es[..i + 1], opts) == Contributions(es[..i], opts) + (if c.Some? then [c.value] else []);
      if c.Some? {
        AddAllSnoc(map[], Contributions(es[..i], opts), c.value);
        abnd := Add(abnd, c.value.0, c.value.1);
      } else {
        assert Contributions(es[..i + 1], opts) == Contributions(es[..i], opts);
      }
      i := i + 1;
    }
    assert es[..i] == es;
  }

  /** The reads under each key are the sum of what the lines add to it, and
      the keys are exactly those some line adds to (zero additions included). */
  lemma AggregateMeaning(es: seq<Entry>, opts: Options, k: string)
    ensures Get(AddAll(map[], Contributions(es, opts)), k) == Total(Contributions(es, opts), k)
    ensures AddAll(map[], Contributions(es, opts)).Keys == KeysOf(Contributions(es, opts))
  {
    AddAllValue(map[], Contributions(es, opts), k);
    AddAllKeys(map[], Contributions(es, opts));
  }

  /** A row that stops kraken.File whatever comes before it: a read error,
      an indentation that is not a level, or a level past the largest
      capacity the hierarchy can have when it is reached after ten levels. A
      deeper level that the hierarchy has grown to fit is not one of these. */
  predicate BadRow(row: Result<Row, string>) {
    row.Err? || !HasLevel(row.value.name) || LeadingSpaces(row.value.name) > 2 * InitialCapacity
  }

  /** main up to the normalisation: the report is read with kraken.File's
      hierarchy logic, any read or level error ends the program, and the
      lines are aggregated. */
  method Run(rows: seq<Result<Row, string>>, opts: Options) returns (r: Result<map<string, int>, FileError>)
    ensures r.Err? <==> ReportFrom(rows, FreshBuffer()).Err?
    ensures r.Err? ==> r.error == ReportFrom(rows, FreshBuffer()).error
    ensures r.Ok? ==> var es := ReportFrom(rows, FreshBuffer()).value;
      RunEntries(rows, es) && r.value == AddAll(map[], Contributions(es, opts))
    ensures (forall k :: 0 <= k < |rows| ==> !BadRow(rows[k])) ==> r.Ok?
  {
    var out := File(rows);
    FileReport(rows, FreshBuffer());
    if |out| < |rows| || (|out| > 0 && out[|out| - 1].Err?) {
      var k := |out| - 1;
      assert ProducedAt(rows, out, k);
      assert BadRow(rows[k]);
      return Err(out[k].error);
    }
    var es := seq(|out|, k requires 0 <= k < |out| => out[k].value);
    assert es == ReportFrom(rows, FreshBuffer()).value;
    ChainedEntries(rows, out, es);
    var abnd := Aggregate(es, opts);
    return Ok(abnd);
  }

  /** The values of a report kraken.File reads without an error are its rows' chained entries. */
  lemma ChainedEntries(rows: seq<Result<Row, string>>, out: seq<Result<Entry, FileError>>, es: seq<Entry>)
    requires |out| == |rows| == |es| && forall k :: 0 <= k < |out| ==> out[k] == Ok(es[k])
    requires forall k :: 0 <= k < |out| ==> ProducedAt(rows, out, k)
    ensures RunEntries(rows, es)
  {
    forall k | 0 <= k < |rows| ensures rows[k].Ok? && EntryFor(es[k], rows[k].value) {
      assert ProducedAt(rows, out, k);
    }
    if es != [] {
      assert ProducedAt(rows, out, 0);
    }
    forall k | 0 <= k < |es| - 1 ensures Extends(es[k].hierarchy, es[k + 1]) {
      assert ProducedAt(rows, out, k + 1);
    }
  }

  /** `es` holds one entry for each row, the first starting from a new
      hierarchy and each later one continuing the hierarchy before it. */
  predicate RunEntries(rows: seq<Result<Row, string>>, es: seq<Entry>) {
    |es| == |rows| && (forall k :: 0 <= k < |rows| ==> rows[k].Ok? && EntryFor(es[k], rows[k].value)) &&
    (es != [] ==> StartsFresh(es[0])) &&
    (forall k :: 0 <= k < |es| - 1 ==> Extends(es[k].hierarchy, es[k + 1]))
  }
}
