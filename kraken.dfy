/**
 * Kraken report interpretation (kraken/kraken.go): the indentation of a
 * taxon name gives its taxonomic level, and a running hierarchy of names is
 * kept in a Go slice that is cut to the level and extended by the name.
 */
module Kraken {
  import opened Wrappers
  import opened Strs
  import Seqs

  /** One parsed line of a kraken report (the percentage column is not modelled). */
  datatype Row = Row(readsClade: int, readsDirect: int, rank: string, taxID: int, name: string)

  datatype LevelError = OddSpaces(count: nat) | OnlySpaces(name: string)

  /** The number of spaces `name` starts with. */
  function LeadingSpaces(name: string): (n: nat)
    ensures n <= |name|
    ensures forall i :: 0 <= i < n ==> name[i] == ' '
    ensures n < |name| ==> name[n] != ' '
  {
    if name != "" && name[0] == ' ' then 1 + LeadingSpaces(name[1..]) else 0
  }

  /** `level` is the level written by the indentation of `name`: two spaces
      per level, followed by a non-space. */
  predicate IsLevelOf(name: string, level: nat) {
    LeadingSpaces(name) < |name| && LeadingSpaces(name) == 2 * level
  }

  /** nameToLevel: half the number of leading spaces; an odd count, or a name
      of spaces only (including the empty name), is an error. */
  method NameToLevel(name: string) returns (r: Result<nat, LevelError>)
    ensures r.Ok? ==> IsLevelOf(name, r.value)
    ensures r.Err? && r.error.OddSpaces? ==>
      r.error.count == LeadingSpaces(name) < |name| && r.error.count % 2 == 1
    ensures r.Err? && r.error.OnlySpaces? ==> LeadingSpaces(name) == |name| && r.error.name == name
  {
    var i := 0;
    while i < |name|
      invariant 0 <= i <= |name|
      invariant forall j :: 0 <= j < i ==> name[j] == ' '
    {
      if name[i] != ' ' {
        if i % 2 != 0 {
          return Err(OddSpaces(i));
        }
        assert IsLevelOf(name, i / 2);
        return Ok(i / 2);
      }
      i := i + 1;
    }
    return Err(OnlySpaces(name));
  }

  /** The number of levels a new hierarchy has room for before it reallocates. */
  const InitialCapacity: nat := 10

  /** The backing array after `append(h[:level], name)` on an array holding
      `buf`: the name is written in place when the array has room, and
      otherwise the first `level` names move to a zeroed array of twice the
      size (one slot when the array was empty). */
  function Appended(buf: seq<string>, level: nat, name: string): (r: seq<string>)
    requires level <= |buf|
    ensures |r| >= |buf| && |r| > level
    ensures r[..level] == buf[..level] && r[level] == name
  {
    if level < |buf| then buf[level := name]
    else buf + [name] + seq(if |buf| == 0 then 0 else |buf| - 1, _ => "")
  }

  /**
   * The hierarchy slice together with its backing array. Cutting the slice
   * to a level beyond its length but within its capacity brings back
   * whatever the backing array still holds there.
   */
  class Hierarchy {
    var buf: array<string>
    var len: nat

    predicate Valid()
      reads this
    {
      len <= buf.Length
    }

    /** The names visible through the slice. */
    function Contents(): seq<string>
      reads this, buf
      requires Valid()
    {
      buf[..len]
    }

    /** make([]string, 0, capacity): an empty slice over a zeroed array. */
    constructor (capacity: nat)
      ensures Valid() && Contents() == [] && buf.Length == capacity
      ensures forall i :: 0 <= i < capacity ==> buf[i] == ""
      ensures fresh(buf)
    {
      buf := new string[capacity](_ => "");
      len := 0;
    }

    /** hierarchy = append(hierarchy[:level], name). Returns false where Go
        panics: a level beyond the capacity. A full array is replaced by one
        of twice the size holding the same prefix. */
    method Push(level: nat, name: string) returns (ok: bool)
      requires Valid()
      modifies this, buf
      ensures Valid()
      ensures ok <==> level <= old(buf.Length)
      ensures ok ==> Contents() == old(buf[..level]) + [name]
      ensures ok && level <= old(len) ==> Contents() == old(Contents())[..level] + [name]
      ensures ok ==> Contents()[..Seqs.Min(level, old(len))] == old(Contents())[..Seqs.Min(level, old(len))]
      ensures ok ==> len == level + 1 && buf[..] == Appended(old(buf[..]), level, name)
      ensures !ok ==> len == old(len) && buf == old(buf) && buf[..] == old(buf[..])
      ensures buf.Length >= old(buf.Length)
      ensures buf == old(buf) || fresh(buf)
    {
      if level > buf.Length {
        return false;
      }
      if level < buf.Length {
        buf[level] := name;
      } else {
        var nb := new string[if buf.Length == 0 then 1 else 2 * buf.Length](_ => "");
        forall j | 0 <= j < level {
          nb[j] := buf[j];
        }
        nb[level] := name;
        assert nb[..] == buf[..] + [name] + seq(nb.Length - level - 1, _ => "");
        buf := nb;
      }
      len := level + 1;
      return true;
    }
  }

  datatype Entry = Entry(row: Row, level: nat, hierarchy: seq<string>)

  datatype FileError = ReadError(msg: string) | BadName(err: LevelError) | SliceBounds(level: nat)

  /** `e` is the entry produced for `row`: its level, and a hierarchy ending
      at that level with the space-trimmed name. */
  predicate EntryFor(e: Entry, row: Row) {
    e.row == row && IsLevelOf(row.name, e.level)
    && |e.hierarchy| == e.level + 1 && e.hierarchy[e.level] == TrimSpaces(row.name)
  }

  /** How the hierarchy of `e` continues the previous hierarchy `prev`: cut to
      the level and extended by the name when the level is within `prev`;
      otherwise `prev` is kept as a prefix and the positions between its end
      and the level hold what the backing array had there. */
  predicate Extends(prev: seq<string>, e: Entry) {
    if e.level <= |prev| then e.hierarchy == prev[..e.level] + [TrimSpaces(e.row.name)]
    else |prev| <= |e.hierarchy| && e.hierarchy[..|prev|] == prev
  }

  /** The hierarchy of the first entry: empty names up to its level (the
      zeroed backing array), then its own name. */
  predicate StartsFresh(e: Entry) {
    e.hierarchy == seq(e.level, _ => "") + [TrimSpaces(e.row.name)]
  }

  /** The indentation of `name` is a level: an even number of spaces before a non-space. */
  predicate HasLevel(name: string) {
    LeadingSpaces(name) < |name| && LeadingSpaces(name) % 2 == 0
  }

  /** The error nameToLevel reports for a name without a level. */
  function LevelErrorOf(name: string): LevelError {
    if LeadingSpaces(name) == |name| then OnlySpaces(name) else OddSpaces(LeadingSpaces(name))
  }

  /** One line of kraken.File as a function of the backing array's contents:
      what it yields and what the array holds afterwards. */
  function StepOf(row: Row, buf: seq<string>): (Result<Entry, FileError>, seq<string>) {
    if !HasLevel(row.name) then (Err(BadName(LevelErrorOf(row.name))), buf)
    else
      var level := LeadingSpaces(row.name) / 2;
      if level > |buf| then (Err(SliceBounds(level)), buf)
      else
        var nb := Appended(buf, level, TrimSpaces(row.name));
        (Ok(Entry(row, level, nb[..level + 1])), nb)
  }

  /** The backing array of a new hierarchy. */
  function FreshBuffer(): seq<string> {
    seq(InitialCapacity, _ => "")
  }

  /** Everything kraken.File yields for `rows` from a backing array holding
      `buf`, up to and including the first error. */
  function FileFrom(rows: seq<Result<Row, string>>, buf: seq<string>): seq<Result<Entry, FileError>>
    decreases |rows|
  {
    if rows == [] then []
    else if rows[0].Err? then [Err(ReadError(rows[0].error))]
    else
      var st := StepOf(rows[0].value, buf);
      if st.0.Err? then [st.0] else [st.0] + FileFrom(rows[1..], st.1)
  }

  /** FileFrom unfolded at row k. */
  lemma FileFromAt(rows: seq<Result<Row, string>>, k: nat, buf: seq<string>)
    requires k < |rows|
    ensures FileFrom(rows[k..], buf) ==
      if rows[k].Err? then [Err(ReadError(rows[k].error))]
      else if StepOf(rows[k].value, buf).0.Err? then [StepOf(rows[k].value, buf).0]
      else [StepOf(rows[k].value, buf).0] + FileFrom(rows[k + 1..], StepOf(rows[k].value, buf).1)
  {
    assert rows[k..][0] == rows[k] && rows[k..][1..] == rows[k + 1..];
  }

  /** `out` followed by what kraken.File yields from row k on, with the
      backing array holding `buf`, is everything it yields for `rows`. */
  ghost predicate Ahead(rows: seq<Result<Row, string>>, out: seq<Result<Entry, FileError>>, k: nat, buf: seq<string>)
    requires k <= |rows|
  {
    out + FileFrom(rows[k..], buf) == FileFrom(rows, FreshBuffer())
  }

  lemma AheadRead(rows: seq<Result<Row, string>>, out: seq<Result<Entry, FileError>>, k: nat, buf: seq<string>)
    requires k < |rows| && Ahead(rows, out, k, buf) && rows[k].Err?
    ensures out + [Err(ReadError(rows[k].error))] == FileFrom(rows, FreshBuffer())
  {
    FileFromAt(rows, k, buf);
  }

  lemma AheadStep(rows: seq<Result<Row, string>>, out: seq<Result<Entry, FileError>>, k: nat, buf: seq<string>,
                  r: Result<Entry, FileError>, nb: seq<string>)
    requires k < |rows| && Ahead(rows, out, k, buf) && rows[k].Ok?
    requires (r, nb) == StepOf(rows[k].value, buf)
    ensures r.Err? ==> out + [r] == FileFrom(rows, FreshBuffer())
    ensures r.Ok? ==> Ahead(rows, out + [r], k + 1, nb)
  {
    SplitAt(rows, out, k, buf, r, nb, FileFrom(rows, FreshBuffer()));
  }

  lemma SplitAt(rows: seq<Result<Row, string>>, out: seq<Result<Entry, FileError>>, k: nat, buf: seq<string>,
                r: Result<Entry, FileError>, nb: seq<string>, all: seq<Result<Entry, FileError>>)
    requires k < |rows| && out + FileFrom(rows[k..], buf) == all && rows[k].Ok?
    requires (r, nb) == StepOf(rows[k].value, buf)
    ensures r.Err? ==> out + [r] == all
    ensures r.Ok? ==> out + [r] + FileFrom(rows[k + 1..], nb) == all
  {
    FileFromAt(rows, k, buf);
    if r.Ok? {
      assert out + ([r] + FileFrom(rows[k + 1..], nb)) == out + [r] + FileFrom(rows[k + 1..], nb);
    }
  }

  lemma AheadDone(rows: seq<Result<Row, string>>, out: seq<Result<Entry, FileError>>, buf: seq<string>)
    requires Ahead(rows, out, |rows|, buf)
    ensures out == FileFrom(rows, FreshBuffer())
  {
    assert rows[|rows|..] == [];
  }

  /** The entries of a whole report, or the error kraken.File stops at. */
  function ReportFrom(rows: seq<Result<Row, string>>, buf: seq<string>): Result<seq<Entry>, FileError>
    decreases |rows|
  {
    if rows == [] then Ok([])
    else if rows[0].Err? then Err(ReadError(rows[0].error))
    else
      var st := StepOf(rows[0].value, buf);
      if st.0.Err? then Err(st.0.error)
      else
        match ReportFrom(rows[1..], st.1)
        case Ok(es) => Ok([st.0.value] + es)
        case Err(e) => Err(e)
  }

  /** A report fails exactly when kraken.File's last result is an error, and
      otherwise its entries are the results of kraken.File, one per row. */
  lemma {:induction false} FileReport(rows: seq<Result<Row, string>>, buf: seq<string>)
    ensures var out := FileFrom(rows, buf);
      (ReportFrom(rows, buf).Err? <==> out != [] && out[|out| - 1].Err?) &&
      (ReportFrom(rows, buf).Err? ==> ReportFrom(rows, buf).error == out[|out| - 1].error) &&
      (ReportFrom(rows, buf).Ok? ==>
         |out| == |rows| == |ReportFrom(rows, buf).value| &&
         forall k :: 0 <= k < |out| ==> out[k] == Ok(ReportFrom(rows, buf).value[k]))
    decreases |rows|
  {
    if rows != [] && rows[0].Ok? {
      var st := StepOf(rows[0].value, buf);
      if st.0.Ok? {
        FileReport(rows[1..], st.1);
        var out := FileFrom(rows, buf);
        var rest := FileFrom(rows[1..], st.1);
        assert out == [st.0] + rest;
        if rest != [] {
          assert out[|out| - 1] == rest[|rest| - 1];
        }
      }
    }
  }

  /** What kraken.File yields for one row, given the hierarchy of the
      previous entry (None for the first row). */
  predicate Produced(row: Result<Row, string>, o: Result<Entry, FileError>, prev: Option<seq<string>>) {
    match row
    case Err(msg) => o == Err(ReadError(msg))
    case Ok(r) =>
      match o
      case Ok(e) =>
        EntryFor(e, r) && (prev.Some? ==> Extends(prev.value, e)) && (prev.None? ==> StartsFresh(e))
      case Err(BadName(_)) => !HasLevel(r.name)
      case Err(SliceBounds(l)) =>
        IsLevelOf(r.name, l) && l > InitialCapacity && (prev.Some? ==> l > |prev.value|)
      case Err(ReadError(_)) => false
  }

  /** Entry `k` of `out` is what kraken.File yields for row `k`. */
  predicate ProducedAt(rows: seq<Result<Row, string>>, out: seq<Result<Entry, FileError>>, k: nat)
    requires k < |out| <= |rows|
    requires forall j :: 0 <= j < k ==> out[j].Ok?
  {
    Produced(rows[k], out[k], if k == 0 then None else Some(out[k - 1].value.hierarchy))
  }

  /** One line of kraken.File: the level of the name, then the hierarchy
      update; what it yields and the new backing array are StepOf's. */
  method Step(h: Hierarchy, row: Row) returns (r: Result<Entry, FileError>)
    requires h.Valid()
    modifies h, h.buf
    ensures h.Valid() && h.buf.Length >= old(h.buf.Length)
    ensures h.buf == old(h.buf) || fresh(h.buf)
    ensures r.Ok? ==> h.Contents() == r.value.hierarchy
    ensures (r, h.buf[..]) == StepOf(row, old(h.buf[..]))
  {
    var lv := NameToLevel(row.name);
    if lv.Err? {
      assert lv.error == LevelErrorOf(row.name);
      return Err(BadName(lv.error));
    }
    var level := lv.value;
    var name := TrimSpaces(row.name);
    ghost var before := h.buf[..];
    var ok := h.Push(level, name);
    if !ok {
      return Err(SliceBounds(level));
    }
    return Ok(Entry(row, level, h.Contents()));
  }

  /** The backing array `buf` can be the one behind `prev`, the hierarchy of
      the previous entry (None before the first line). */
  ghost predicate Follows(buf: seq<string>, prev: Option<seq<string>>) {
    |buf| >= InitialCapacity &&
    (prev.None? ==> buf == FreshBuffer()) &&
    (prev.Some? ==> |prev.value| <= |buf| && buf[..|prev.value|] == prev.value)
  }

  /** Each line yields what Produced allows, and the new array is behind the
      new hierarchy. */
  lemma StepOfProduced(row: Row, buf: seq<string>, prev: Option<seq<string>>)
    requires Follows(buf, prev)
    ensures Produced(Ok(row), StepOf(row, buf).0, prev)
    ensures StepOf(row, buf).0.Ok? ==> Follows(StepOf(row, buf).1, Some(StepOf(row, buf).0.value.hierarchy))
  {
    if HasLevel(row.name) && LeadingSpaces(row.name) / 2 <= |buf| {
      var level := LeadingSpaces(row.name) / 2;
      var nb := Appended(buf, level, TrimSpaces(row.name));
      var e := Entry(row, level, nb[..level + 1]);
      assert e.hierarchy == buf[..level] + [TrimSpaces(row.name)];
      assert IsLevelOf(row.name, level);
      if prev.Some? {
        assert Extends(prev.value, e) by {
          if level <= |prev.value| {
            assert buf[..level] == prev.value[..level];
          } else {
            assert e.hierarchy[..|prev.value|] == buf[..|prev.value|];
          }
        }
      } else {
        assert buf[..level] == seq(level, _ => "");
      }
    }
  }

  /** What FileFrom yields from a backing array behind `prev`: one result per
      row until the first error, each as Produced allows. */
  lemma {:induction false} FileFromProduced(rows: seq<Result<Row, string>>, buf: seq<string>, prev: Option<seq<string>>)
    requires Follows(buf, prev)
    ensures var out := FileFrom(rows, buf);
      |out| <= |rows| && (|out| < |rows| ==> out != [] && out[|out| - 1].Err?) &&
      (forall k :: 0 <= k < |out| - 1 ==> out[k].Ok?) &&
      (out != [] ==> Produced(rows[0], out[0], prev)) &&
      (forall j :: 0 <= j < |out| - 1 ==> out[j].Ok? && Produced(rows[j + 1], out[j + 1], Some(out[j].value.hierarchy)))
    decreases |rows|
  {
    if rows != [] && rows[0].Ok? {
      var st := StepOf(rows[0].value, buf);
      StepOfProduced(rows[0].value, buf, prev);
      if st.0.Ok? {
        var next := Some(st.0.value.hierarchy);
        FileFromProduced(rows[1..], st.1, next);
        var out := FileFrom(rows, buf);
        var rest := FileFrom(rows[1..], st.1);
        assert out == [st.0] + rest;
        forall j | 0 <= j < |out| - 1
          ensures out[j].Ok? && Produced(rows[j + 1], out[j + 1], Some(out[j].value.hierarchy))
        {
          assert out[j + 1] == rest[j] && rows[j + 1] == rows[1..][j];
          if j >= 1 {
            assert out[j] == rest[j - 1];
          }
        }
      }
    }
  }

  /** kraken.File's results, from a new hierarchy, each as Produced allows. */
  lemma FileProduced(rows: seq<Result<Row, string>>)
    ensures var out := FileFrom(rows, FreshBuffer());
      |out| <= |rows| && (|out| < |rows| ==> out != [] && out[|out| - 1].Err?) &&
      (forall k :: 0 <= k < |out| - 1 ==> out[k].Ok?) &&
      (forall k :: 0 <= k < |out| ==> ProducedAt(rows, out, k))
  {
    var out := FileFrom(rows, FreshBuffer());
    FileFromProduced(rows, FreshBuffer(), None);
    forall k | 0 <= k < |out| ensures ProducedAt(rows, out, k) {
      if k > 0 {
        var j := k - 1;
        assert out[j].Ok? && Produced(rows[j + 1], out[j + 1], Some(out[j].value.hierarchy));
      }
    }
  }

  /**
   * kraken.File: turns the report rows into entries, each carrying a copy of
   * the hierarchy after its own line. The first read or level error is
   * yielded and ends the iteration.
   */
  method File(rows: seq<Result<Row, string>>) returns (out: seq<Result<Entry, FileError>>)
    ensures out == FileFrom(rows, FreshBuffer())
    ensures |out| <= |rows|
    ensures forall k :: 0 <= k < |out| - 1 ==> out[k].Ok?
    ensures |out| < |rows| ==> out != [] && out[|out| - 1].Err?
    ensures forall k :: 0 <= k < |out| ==> ProducedAt(rows, out, k)
  {
    var h := new Hierarchy(InitialCapacity);
    out := [];
    var k := 0;
    assert h.buf[..] == FreshBuffer();
    assert rows[0..] == rows;
    while k < |rows|
      invariant 0 <= k <= |rows| && |out| == k
      invariant h.Valid() && fresh(h.buf)
      invariant Ahead(rows, out, k, h.buf[..])
    {
      ghost var buf := h.buf[..];
      if rows[k].Err? {
        AheadRead(rows, out, k, buf);
        out := out + [Err(ReadError(rows[k].error))];
        FileProduced(rows);
        return;
      }
      var r := Step(h, rows[k].value);
      AheadStep(rows, out, k, buf, r, h.buf[..]);
      out := out + [r];
      if r.Err? {
        FileProduced(rows);
        return;
      }
      k := k + 1;
    }
    AheadDone(rows, out, h.buf[..]);
    FileProduced(rows);
  }
}
