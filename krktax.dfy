/**
 * krktax: species metadata from a Kraken 2 database. The taxonomy file
 * (ktaxonomy.tsv) gives one entry per tax ID, linked to its children; the
 * sequence-ID file (seqid2taxid.map) attaches accessions to the entries, and
 * every accession list longer than one is replaced by its sorted distinct
 * elements.
 *
 * The map of references to entries becomes a map from tax ID to an entry value that
 * the loops reassign: every tax ID owns its own entry, so no two keys share
 * one. Go's random map order is the `:|` choice of the next key.
 */
module KrkTax {
  import opened Wrappers
  import opened Strs
  import opened Seqs
  import Common

  // ---------------------------------------------------------------------
  // Splitting taxonomy lines on \s*\|\s*

  function TrimLeftWs(s: string): (r: string)
    ensures HasSuffix(s, r)
  {
    if s != "" && IsSpaceRE(s[0]) then TrimLeftWs(s[1..]) else s
  }

  function TrimRightWs(s: string): (r: string)
    ensures HasPrefix(s, r)
  {
    if s != "" && IsSpaceRE(s[|s| - 1]) then TrimRightWs(s[..|s| - 1]) else s
  }

  /** A piece between bars with the whitespace that touches a bar removed:
      on the left unless it is the first piece, on the right unless it is the
      last. */
  function TrimField(seg: string, left: bool, right: bool): string {
    var t := if right then TrimRightWs(seg) else seg;
    if left then TrimLeftWs(t) else t
  }

  /** Regexp.Split(line, -1) with `\s*\|\s*`: every '|' is one separator
      together with the whitespace around it, so the fields are the pieces
      between the bars, stripped of whitespace on each side that touches a
      bar. */
  function SplitBar(line: string): (fields: seq<string>)
    ensures |fields| == |Split(line, "|")|
  {
    var segs := Split(line, "|");
    seq(|segs|, i requires 0 <= i < |segs| => TrimField(segs[i], i > 0, i < |segs| - 1))
  }

  /** A field that survives the split unchanged: no bar, no whitespace at
      either end. */
  predicate CleanField(f: string) {
    '|' !in f && (f == "" || (!IsSpaceRE(f[0]) && !IsSpaceRE(f[|f| - 1])))
  }

  /** A field with the tabs Kraken writes beside the bars around it. */
  function TabField(f: string, left: bool, right: bool): string {
    (if left then "\t" else "") + f + (if right then "\t" else "")
  }

  /** The fields with the tab that Kraken puts on each side of a bar. */
  function Tabbed(fields: seq<string>, lead: bool): (r: seq<string>)
    ensures |r| == |fields|
  {
    seq(|fields|, i requires 0 <= i < |fields| => TabField(fields[i], i > 0 || lead, i < |fields| - 1))
  }

  lemma {:induction false} JoinTabbed(fields: seq<string>, lead: bool)
    requires |fields| >= 1
    ensures Join(Tabbed(fields, lead), "|") == (if lead then "\t" else "") + Join(fields, "\t|\t")
    decreases |fields|
  {
    if |fields| > 1 {
      var t := Tabbed(fields, lead);
      assert t[1..] == Tabbed(fields[1..], true);
      JoinTabbed(fields[1..], true);
    }
  }

  lemma TrimRightTab(x: string)
    ensures TrimRightWs(x + "\t") == TrimRightWs(x)
  {
    assert (x + "\t")[..|x|] == x;
  }

  lemma TrimLeftTab(x: string)
    ensures TrimLeftWs("\t" + x) == TrimLeftWs(x)
  {
    assert ("\t" + x)[1..] == x;
  }

  /** The tabs beside a clean field are exactly what the split trims. */
  lemma TrimTab(f: string, left: bool, right: bool)
    requires CleanField(f)
    ensures TrimField(TabField(f, left, right), left, right) == f
  {
    var l := if left then "\t" else "";
    var lf := l + f;
    assert TrimLeftWs(lf) == f by {
      if left { TrimLeftTab(f); } else { assert lf == f; }
    }
    if right {
      assert TabField(f, left, right) == lf + "\t";
      TrimRightTab(lf);
      if f == "" {
        assert TrimRightWs(lf) == "" by {
          if left { assert lf == "\t"; TrimRightTab(""); assert "" + "\t" == "\t"; } else { assert lf == ""; }
        }
      } else {
        assert lf[|lf| - 1] == f[|f| - 1];
        assert TrimRightWs(lf) == lf;
      }
    } else {
      assert TabField(f, left, right) == lf;
    }
  }

  lemma TabFieldAvoids(f: string, left: bool, right: bool)
    requires '|' !in f
    ensures Avoids(TabField(f, left, right), "|")
  {
    var g := TabField(f, left, right);
    forall c | c in g ensures c !in "|" {
      var l := if left then "\t" else "";
      var rr := if right then "\t" else "";
      assert g == l + f + rr;
      assert c in l || c in f || c in rr;
    }
  }

  /** The pieces between the bars of a Kraken line are its tabbed fields. */
  lemma SplitTabbed(fields: seq<string>)
    requires |fields| >= 1 && forall k :: 0 <= k < |fields| ==> CleanField(fields[k])
    ensures Split(Join(fields, "\t|\t"), "|") == Tabbed(fields, false)
  {
    var t := Tabbed(fields, false);
    var line := Join(fields, "\t|\t");
    assert Join(t, "|") == line by {
      JoinTabbed(fields, false);
      assert "" + line == line;
    }
    forall k | 0 <= k < |t| ensures Avoids(t[k], "|") {
      assert t[k] == TabField(fields[k], k > 0, k < |fields| - 1);
      TabFieldAvoids(fields[k], k > 0, k < |fields| - 1);
    }
    SplitJoin(t, "|");
  }

  /** A line written with Kraken's "\t|\t" separator splits back into its
      fields. */
  lemma SplitBarJoin(fields: seq<string>)
    requires |fields| >= 1 && forall k :: 0 <= k < |fields| ==> CleanField(fields[k])
    ensures SplitBar(Join(fields, "\t|\t")) == fields
  {
    var line := Join(fields, "\t|\t");
    SplitTabbed(fields);
    var r := SplitBar(line);
    forall k | 0 <= k < |fields| ensures r[k] == fields[k] {
      SplitBarTabbedAt(fields, line, k);
    }
  }

  /** One field of the split of a line whose bar-separated pieces are the
      tabbed fields. */
  lemma SplitBarTabbedAt(fields: seq<string>, line: string, k: nat)
    requires k < |fields| && CleanField(fields[k])
    requires Split(line, "|") == Tabbed(fields, false)
    ensures SplitBar(line)[k] == fields[k]
  {
    SplitBarAt(line, k);
    TrimTab(fields[k], k > 0, k < |fields| - 1);
  }

  lemma SplitBarAt(line: string, k: nat)
    requires k < |Split(line, "|")|
    ensures var segs := Split(line, "|");
      SplitBar(line)[k] == TrimField(segs[k], k > 0, k < |segs| - 1)
  {
  }

  // ---------------------------------------------------------------------
  // The taxonomy file

  /** taxEntry. */
  datatype TaxEntry = TaxEntry(name: string, level: string, parent: string,
                               children: seq<string>, accs: seq<string>)

  datatype TaxError =
    | BadPartCount(count: nat, line: string)
    | DuplicateTaxID(tid: string)
    /** The nil dereference panic on an entry whose parent is not in the file. */
    | NoParent(tid: string)

  /** One taxonomy line: five fields, of which the fourth is not used. */
  function ParseTaxLine(line: string): (r: Result<(string, TaxEntry), TaxError>)
    ensures r.Err? <==> |SplitBar(line)| != 5
    ensures r.Ok? ==> r.value.1.children == [] && r.value.1.accs == []
  {
    var parts := SplitBar(line);
    if |parts| != 5 then Err(BadPartCount(|parts|, line))
    else Ok((parts[0], TaxEntry(parts[4], parts[2], parts[1], [], [])))
  }

  type Parsed = Result<(string, TaxEntry), TaxError>

  /** Each line parsed on its own. */
  function ParsedLines(lines: seq<string>): (ps: seq<Parsed>)
    ensures |ps| == |lines| && forall i :: 0 <= i < |lines| ==> ps[i] == ParseTaxLine(lines[i])
  {
    seq(|lines|, i requires 0 <= i < |lines| => ParseTaxLine(lines[i]))
  }

  /** The parsed lines gathered into a map, or the first error: a line's
      own error, or a tax ID seen before. */
  function Collect(ps: seq<Parsed>): Result<map<string, TaxEntry>, TaxError> {
    if ps == [] then Ok(map[])
    else
      match Collect(ps[..|ps| - 1])
      case Err(e) => Err(e)
      case Ok(m) =>
        match ps[|ps| - 1]
        case Err(e) => Err(e)
        case Ok(p) => if p.0 in m then Err(DuplicateTaxID(p.0)) else Ok(m[p.0 := p.1])
  }

  /** The entries of the taxonomy lines before linking, or the first error. */
  function ParseTax(lines: seq<string>): Result<map<string, TaxEntry>, TaxError> {
    Collect(ParsedLines(lines))
  }

  /** A taxonomy line as Kraken writes it, read back. */
  lemma ParseTaxLineRoundTrip(tid: string, parent: string, level: string, rank: string, name: string)
    requires CleanField(tid) && CleanField(parent) && CleanField(level) && CleanField(rank) && CleanField(name)
    ensures ParseTaxLine(Join([tid, parent, level, rank, name], "\t|\t")) ==
      Ok((tid, TaxEntry(name, level, parent, [], [])))
  {
    SplitBarJoin([tid, parent, level, rank, name]);
  }

  /** Every line has five fields. */
  predicate AllParse(ps: seq<Parsed>) {
    forall i :: 0 <= i < |ps| ==> ps[i].Ok?
  }

  /** No two lines give the same tax ID. */
  predicate DistinctTids(ps: seq<Parsed>)
    requires AllParse(ps)
  {
    forall i, j :: 0 <= i < j < |ps| ==> ps[i].value.0 != ps[j].value.0
  }

  /** Gathering succeeds exactly when every line has five fields and no tax
      ID repeats. */
  lemma {:induction false} CollectOk(ps: seq<Parsed>)
    ensures Collect(ps).Ok? <==> AllParse(ps) && DistinctTids(ps)
  {
    if ps != [] {
      var init := ps[..|ps| - 1];
      var pl := ps[|ps| - 1];
      CollectOk(init);
      assert forall i :: 0 <= i < |init| ==> init[i] == ps[i];
      if Collect(init).Ok? && pl.Ok? {
        CollectEntries(init);
        var m := Collect(init).value;
        if pl.value.0 in m {
          var i :| 0 <= i < |init| && init[i].value.0 == pl.value.0;
          assert ps[i].value.0 == ps[|ps| - 1].value.0;
        } else {
          assert AllParse(ps);
          forall i | 0 <= i < |init| ensures ps[i].value.0 != pl.value.0 {
            assert init[i].value.0 in m;
          }
        }
      }
      if AllParse(ps) && DistinctTids(ps) {
        assert AllParse(init) && DistinctTids(init);
      }
    }
  }

  /** A successful gathering maps exactly the lines' tax IDs, each to its own
      line's entry. */
  lemma {:induction false} CollectEntries(ps: seq<Parsed>)
    requires Collect(ps).Ok?
    ensures AllParse(ps)
    ensures var m := Collect(ps).value;
      (forall t :: t in m <==> exists i :: 0 <= i < |ps| && ps[i].value.0 == t) &&
      (forall i :: 0 <= i < |ps| ==> m[ps[i].value.0] == ps[i].value.1)
  {
    if ps != [] {
      var init := ps[..|ps| - 1];
      CollectEntries(init);
      assert forall i :: 0 <= i < |init| ==> init[i] == ps[i];
      var m0 := Collect(init).value;
      var pl := ps[|ps| - 1].value;
      var m := Collect(ps).value;
      assert m == m0[pl.0 := pl.1];
      forall t ensures t in m <==> exists i :: 0 <= i < |ps| && ps[i].value.0 == t {
        if t in m0 {
          var i :| 0 <= i < |init| && init[i].value.0 == t;
          assert ps[i].value.0 == t;
        }
      }
      forall i | 0 <= i < |ps| ensures m[ps[i].value.0] == ps[i].value.1 {
        if i < |init| {
          assert init[i].value.0 in m0;
        }
      }
    }
  }

  /** Parsing succeeds exactly when every line has five fields and the tax
      IDs are distinct; then each line's tax ID maps to that line's entry,
      with no children and no accessions yet, and there are no other keys. */
  lemma ParseTaxSpec(lines: seq<string>)
    ensures var ps := ParsedLines(lines);
      ParseTax(lines).Ok? <==> AllParse(ps) && DistinctTids(ps)
    ensures var ps := ParsedLines(lines);
      ParseTax(lines).Ok? ==>
        var m := ParseTax(lines).value;
        (forall t :: t in m <==> exists i :: 0 <= i < |lines| && ps[i].value.0 == t) &&
        (forall i :: 0 <= i < |lines| ==> m[ps[i].value.0] == ps[i].value.1) &&
        (forall t :: t in m ==> m[t].children == [] && m[t].accs == [])
  {
    var ps := ParsedLines(lines);
    CollectOk(ps);
    if Collect(ps).Ok? {
      CollectEntries(ps);
      var m := Collect(ps).value;
      forall t | t in m ensures m[t].children == [] && m[t].accs == [] {
        var i :| 0 <= i < |ps| && ps[i].value.0 == t;
        assert ps[i] == ParseTaxLine(lines[i]);
      }
    }
  }

  /** Once a prefix of the lines fails, the whole file fails the same way. */
  lemma {:induction false} CollectErrSticks(ps: seq<Parsed>, i: nat)
    requires i <= |ps| && Collect(ps[..i]).Err?
    ensures Collect(ps) == Collect(ps[..i])
    decreases |ps| - i
  {
    if i < |ps| {
      assert ps[..i + 1][..i] == ps[..i];
      CollectErrSticks(ps, i + 1);
    } else {
      assert ps[..i] == ps;
    }
  }

  /** One step of the first loop of readTaxFile, in terms of Collect. */
  lemma CollectNext(ps: seq<Parsed>, i: nat, m: map<string, TaxEntry>)
    requires i < |ps| && Collect(ps[..i]) == Ok(m)
    ensures ps[i].Err? ==> Collect(ps) == Err(ps[i].error)
    ensures ps[i].Ok? && ps[i].value.0 in m ==> Collect(ps) == Err(DuplicateTaxID(ps[i].value.0))
    ensures ps[i].Ok? && ps[i].value.0 !in m ==> Collect(ps[..i + 1]) == Ok(m[ps[i].value.0 := ps[i].value.1])
  {
    assert ps[..i + 1][..i] == ps[..i];
    assert ps[..i + 1][i] == ps[i];
    if Collect(ps[..i + 1]).Err? {
      CollectErrSticks(ps, i + 1);
    }
  }

  /** The first loop of readTaxFile. */
  method ParseTaxFile(lines: seq<string>) returns (r: Result<map<string, TaxEntry>, TaxError>)
    ensures r == ParseTax(lines)
  {
    ghost var ps := ParsedLines(lines);
    var m: map<string, TaxEntry> := map[];
    for i := 0 to |lines|
      invariant Collect(ps[..i]) == Ok(m)
    {
      var p := ParseTaxLine(lines[i]);
      CollectNext(ps, i, m);
      assert ps[i] == p;
      if p.Err? {
        return Err(p.error);
      }
      var (tid, e) := p.value;
      if tid in m {
        return Err(DuplicateTaxID(tid));
      }
      m := m[tid := e];
    }
    assert ps[..|lines|] == ps;
    r := Ok(m);
  }

  /** The non-root entries whose parent is `p`. */
  function ChildrenIn(m0: map<string, TaxEntry>, p: string): set<string> {
    set t | t in m0 && m0[t].level != "R" && m0[t].parent == p
  }

  /** `m` is `m0` with every entry's children listed once each: exactly the
      non-root entries naming it as parent. */
  predicate Linked(m0: map<string, TaxEntry>, m: map<string, TaxEntry>) {
    m.Keys == m0.Keys &&
    (forall t :: t in m ==> m[t] == m0[t].(children := m[t].children)) &&
    (forall p :: p in m ==> NoDuplicates(m[p].children) && Elems(m[p].children) == ChildrenIn(m0, p))
  }

  /** Every non-root entry whose parent exists. */
  predicate ParentsPresent(m0: map<string, TaxEntry>) {
    forall t :: t in m0 && m0[t].level != "R" ==> m0[t].parent in m0
  }

  /** The children of `p` among the visited keys. */
  function VisitedChildren(m0: map<string, TaxEntry>, p: string, todo: set<string>): set<string> {
    set t | t in m0 && t !in todo && m0[t].level != "R" && m0[t].parent == p
  }

  /** The state of the linking loop with the keys `todo` still to visit. */
  predicate LinkedExcept(m0: map<string, TaxEntry>, m: map<string, TaxEntry>, todo: set<string>) {
    todo <= m0.Keys && m.Keys == m0.Keys &&
    (forall t :: t in m0 && t !in todo && m0[t].level != "R" ==> m0[t].parent in m0) &&
    (forall t :: t in m ==> m[t] == m0[t].(children := m[t].children)) &&
    (forall p :: p in m ==> NoDuplicates(m[p].children) && Elems(m[p].children) == VisitedChildren(m0, p, todo))
  }

  /** The entry `t` linked to its parent. */
  function LinkOne(m0: map<string, TaxEntry>, m: map<string, TaxEntry>, t: string): map<string, TaxEntry>
    requires t in m0 && (m0[t].level != "R" ==> m0[t].parent in m)
  {
    if m0[t].level == "R" then m
    else
      var p := m0[t].parent;
      m[p := m[p].(children := m[p].children + [t])]
  }

  lemma LinkStep(m0: map<string, TaxEntry>, m: map<string, TaxEntry>, todo: set<string>, t: string)
    requires LinkedExcept(m0, m, todo) && t in todo
    requires m0[t].level != "R" ==> m0[t].parent in m
    ensures LinkedExcept(m0, LinkOne(m0, m, t), todo - {t})
  {
    var m' := LinkOne(m0, m, t);
    forall p | p in m' ensures NoDuplicates(m'[p].children) && Elems(m'[p].children) == VisitedChildren(m0, p, todo - {t}) {
      assert VisitedChildren(m0, p, todo - {t}) == VisitedChildren(m0, p, todo) +
        (if m0[t].level != "R" && m0[t].parent == p then {t} else {});
      if m0[t].level != "R" && m0[t].parent == p {
        assert t !in Elems(m[p].children);
        assert Elems(m'[p].children) == Elems(m[p].children) + {t};
      }
    }
  }

  /** The second loop of readTaxFile: each non-root entry is appended to its
      parent's children, in map order; a missing parent is a nil dereference. */
  method Link(m0: map<string, TaxEntry>) returns (r: Result<map<string, TaxEntry>, TaxError>)
    requires forall t :: t in m0 ==> m0[t].children == []
    ensures r.Ok? <==> ParentsPresent(m0)
    ensures r.Ok? ==> Linked(m0, r.value)
    ensures r.Err? ==>
      r.error.NoParent? && r.error.tid in m0 && m0[r.error.tid].level != "R" && m0[r.error.tid].parent !in m0
  {
    var m := m0;
    var todo := m0.Keys;
    assert LinkedExcept(m0, m, todo) by {
      forall p | p in m ensures VisitedChildren(m0, p, todo) == {} {
      }
    }
    while todo != {}
      invariant LinkedExcept(m0, m, todo)
      decreases |todo|
    {
      var t :| t in todo;
      if m0[t].level != "R" && m0[t].parent !in m {
        return Err(NoParent(t));
      }
      LinkStep(m0, m, todo, t);
      m := LinkOne(m0, m, t);
      todo := todo - {t};
    }
    forall p | p in m ensures VisitedChildren(m0, p, {}) == ChildrenIn(m0, p) {
    }
    r := Ok(m);
  }

  /** readTaxFile over the lines of the file. */
  method ReadTaxFile(lines: seq<string>) returns (r: Result<map<string, TaxEntry>, TaxError>)
    ensures ParseTax(lines).Err? ==> r == ParseTax(lines)
    ensures ParseTax(lines).Ok? ==>
      var m0 := ParseTax(lines).value;
      (r.Ok? <==> ParentsPresent(m0)) &&
      (r.Ok? ==> Linked(m0, r.value)) &&
      (r.Err? ==> r.error.NoParent? && r.error.tid in m0 && m0[r.error.tid].parent !in m0)
  {
    r := ParseTaxFile(lines);
    if r.Ok? {
      ParseTaxSpec(lines);
      r := Link(r.value);
    }
  }

  /** After linking, every non-root entry is among its parent's children,
      and every listed child names that entry as parent. */
  lemma LinkedBothWays(m0: map<string, TaxEntry>, m: map<string, TaxEntry>, t: string)
    requires Linked(m0, m) && t in m
    ensures m[t].level != "R" && m[t].parent in m ==> t in m[m[t].parent].children
    ensures forall c :: c in m[t].children ==> c in m && m[c].level != "R" && m[c].parent == t
  {
    if m[t].level != "R" && m[t].parent in m {
      assert t in ChildrenIn(m0, m[t].parent);
      assert t in Elems(m[m[t].parent].children);
    }
    forall c | c in m[t].children ensures c in m && m[c].level != "R" && m[c].parent == t {
      assert c in Elems(m[t].children);
    }
  }

  // ---------------------------------------------------------------------
  // The sequence-ID file

  predicate NotSpace(c: char) {
    !IsSpaceRE(c)
  }

  /** The number of decimal digits ending `x`. */
  function TrailingDigits(x: string): (n: nat)
    ensures n <= |x| && forall j :: |x| - n <= j < |x| ==> IsDigit(x[j])
    ensures n == |x| || !IsDigit(x[|x| - n - 1])
  {
    if x != "" && IsDigit(x[|x| - 1]) then
      var n := TrailingDigits(x[..|x| - 1]);
      assert forall j :: |x| - 1 - n <= j < |x| - 1 ==> x[..|x| - 1][j] == x[j];
      1 + n
    else 0
  }

  /** `(\S+?)(?:\.\d+)?` over a whole token: the shortest non-empty head
      whose rest is empty or a dot and one or more digits, that is the token
      without a trailing version ".N". */
  function StripVersion(x: string): string {
    var nd := TrailingDigits(x);
    if nd >= 1 && nd + 2 <= |x| && x[|x| - nd - 1] == '.' then x[..|x| - nd - 1] else x
  }

  /** `^(\S+)\s+(\S+)$`: exactly two tokens separated by whitespace. */
  function TwoTokens(t: string): Option<(string, string)> {
    var nx := RunLength(t, 0, NotSpace);
    var nw := RunLength(t, nx, IsSpaceRE);
    if nx == 0 || nw == 0 || nx + nw == |t| then None
    else if nx + nw + RunLength(t, nx + nw, NotSpace) != |t| then None
    else Some((t[..nx], t[nx + nw..]))
  }

  const KrakenPrefix: string := "kraken:taxid|"

  /** `^kraken:taxid\|(\d+)\|(\S+?)(?:\.\d+)?\s+(\S+)$`: the tax ID, the
      accession without its version, and the last token. */
  function MatchKraken(line: string): Option<(string, string, string)> {
    if !HasPrefix(line, KrakenPrefix) then None
    else
      var s := line[|KrakenPrefix|..];
      var nd := RunLength(s, 0, IsDigit);
      if nd == 0 || nd == |s| || s[nd] != '|' then None
      else
        match TwoTokens(s[nd + 1..])
        case None => None
        case Some(tk) => Some((s[..nd], StripVersion(tk.0), tk.1))
  }

  datatype SeqIDLine =
    | Entry(tid: string, acc: string)
    /** The tax ID and the last token differ. */
    | Mismatch
    /** A two-token line of another form, skipped. */
    | Plain
    | Unmatched

  /** How readSeqIDs treats one line. */
  function ClassifySeqIDLine(line: string): SeqIDLine {
    match MatchKraken(line)
    case Some(m) => if m.0 != m.2 then Mismatch else Entry(m.0, m.1)
    case None => if TwoTokens(line).Some? then Plain else Unmatched
  }

  /** seqIDEntry. */
  datatype SeqIDEntry = SeqIDEntry(tid: string, acc: string)

  /** The failures of readSeqIDs, with the 1-based line number. */
  datatype SeqIDError = PartsMismatch(lineNo: nat, line: string) | NoPattern(lineNo: nat, line: string)

  /** A line that stops readSeqIDs. */
  predicate Bad(c: SeqIDLine) {
    c.Mismatch? || c.Unmatched?
  }

  /** Each line classified on its own. */
  function Classified(lines: seq<string>): (cs: seq<SeqIDLine>)
    ensures |cs| == |lines| && forall i :: 0 <= i < |lines| ==> cs[i] == ClassifySeqIDLine(lines[i])
  {
    seq(|lines|, i requires 0 <= i < |lines| => ClassifySeqIDLine(lines[i]))
  }

  /** The entries of the classified lines, or the error of the first bad
      one, with its 1-based number and text. */
  function Gather(cs: seq<SeqIDLine>, lines: seq<string>): Result<seq<SeqIDEntry>, SeqIDError>
    requires |cs| == |lines|
  {
    if cs == [] then Ok([])
    else
      var n := |cs| - 1;
      match Gather(cs[..n], lines[..n])
      case Err(e) => Err(e)
      case Ok(es) =>
        match cs[n]
        case Entry(tid, acc) => Ok(es + [SeqIDEntry(tid, acc)])
        case Plain => Ok(es)
        case Mismatch => Err(PartsMismatch(|cs|, lines[n]))
        case Unmatched => Err(NoPattern(|cs|, lines[n]))
  }

  /** The entries readSeqIDs yields, or the error that stops it. */
  function SeqIDs(lines: seq<string>): Result<seq<SeqIDEntry>, SeqIDError> {
    Gather(Classified(lines), lines)
  }

  lemma {:induction false} GatherErrSticks(cs: seq<SeqIDLine>, lines: seq<string>, i: nat)
    requires |cs| == |lines| && i <= |cs| && Gather(cs[..i], lines[..i]).Err?
    ensures Gather(cs, lines) == Gather(cs[..i], lines[..i])
    decreases |cs| - i
  {
    if i < |cs| {
      assert cs[..i + 1][..i] == cs[..i] && lines[..i + 1][..i] == lines[..i];
      GatherErrSticks(cs, lines, i + 1);
    } else {
      assert cs[..i] == cs && lines[..i] == lines;
    }
  }

  lemma GatherNext(cs: seq<SeqIDLine>, lines: seq<string>, i: nat, es: seq<SeqIDEntry>)
    requires |cs| == |lines| && i < |cs| && Gather(cs[..i], lines[..i]) == Ok(es)
    ensures cs[i].Mismatch? ==> Gather(cs, lines) == Err(PartsMismatch(i + 1, lines[i]))
    ensures cs[i].Unmatched? ==> Gather(cs, lines) == Err(NoPattern(i + 1, lines[i]))
    ensures cs[i].Entry? ==> Gather(cs[..i + 1], lines[..i + 1]) == Ok(es + [SeqIDEntry(cs[i].tid, cs[i].acc)])
    ensures cs[i].Plain? ==> Gather(cs[..i + 1], lines[..i + 1]) == Ok(es)
  {
    assert cs[..i + 1][..i] == cs[..i] && lines[..i + 1][..i] == lines[..i];
    assert cs[..i + 1][i] == cs[i] && lines[..i + 1][i] == lines[i];
    if Bad(cs[i]) {
      GatherErrSticks(cs, lines, i + 1);
    }
  }

  /** readSeqIDs with the consuming loop of main: line i + 1 is classified,
      and the first bad line ends the reading with its number. */
  method ReadSeqIDs(lines: seq<string>) returns (r: Result<seq<SeqIDEntry>, SeqIDError>)
    ensures r == SeqIDs(lines)
  {
    ghost var cs := Classified(lines);
    var es: seq<SeqIDEntry> := [];
    var i := 0;
    while i < |lines|
      invariant i <= |lines| && Gather(cs[..i], lines[..i]) == Ok(es)
    {
      var line := lines[i];
      var c := ClassifySeqIDLine(line);
      GatherNext(cs, lines, i, es);
      assert cs[i] == c;
      i := i + 1;
      if c.Mismatch? {
        return Err(PartsMismatch(i, line));
      }
      if c.Entry? {
        es := es + [SeqIDEntry(c.tid, c.acc)];
      } else if c.Unmatched? {
        return Err(NoPattern(i, line));
      }
    }
    assert cs[..i] == cs && lines[..i] == lines;
    r := Ok(es);
  }

  /** Gathering fails exactly when some line is bad, and the error names the
      first bad line by its 1-based number. */
  lemma {:induction false} GatherFirstError(cs: seq<SeqIDLine>, lines: seq<string>)
    requires |cs| == |lines|
    ensures Gather(cs, lines).Err? <==> exists i :: 0 <= i < |cs| && Bad(cs[i])
    ensures Gather(cs, lines).Err? ==>
      var e := Gather(cs, lines).error;
      1 <= e.lineNo <= |cs| && Bad(cs[e.lineNo - 1]) && e.line == lines[e.lineNo - 1] &&
      (e.PartsMismatch? <==> cs[e.lineNo - 1].Mismatch?) &&
      forall i :: 0 <= i < e.lineNo - 1 ==> !Bad(cs[i])
  {
    if cs != [] {
      var n := |cs| - 1;
      GatherFirstError(cs[..n], lines[..n]);
      assert forall i :: 0 <= i < n ==> cs[..n][i] == cs[i];
      assert forall i :: 0 <= i < n ==> lines[..n][i] == lines[i];
      if Gather(cs[..n], lines[..n]).Err? {
        var i :| 0 <= i < n && Bad(cs[..n][i]);
        assert Bad(cs[i]);
      }
    }
  }

  /** Gathering succeeds with exactly the pairs of the entry lines. */
  lemma {:induction false} GatherEntries(cs: seq<SeqIDLine>, lines: seq<string>)
    requires |cs| == |lines| && Gather(cs, lines).Ok?
    ensures var es := Gather(cs, lines).value;
      forall e :: e in es <==> exists i :: 0 <= i < |cs| && cs[i] == Entry(e.tid, e.acc)
  {
    if cs != [] {
      var n := |cs| - 1;
      var init := cs[..n];
      GatherEntries(init, lines[..n]);
      var es := Gather(cs, lines).value;
      forall e ensures e in es <==> exists i :: 0 <= i < |cs| && cs[i] == Entry(e.tid, e.acc) {
        if e in Gather(init, lines[..n]).value {
          var i :| 0 <= i < |init| && init[i] == Entry(e.tid, e.acc);
          assert cs[i] == init[i];
        }
        if exists i :: 0 <= i < |cs| && cs[i] == Entry(e.tid, e.acc) {
          var i :| 0 <= i < |cs| && cs[i] == Entry(e.tid, e.acc);
          if i < n {
            assert init[i] == cs[i];
          }
        }
      }
    }
  }

  /** Reading the file fails exactly when some line is bad, naming the first
      bad line; otherwise it gives exactly the pairs of the "kraken:taxid"
      lines. */
  lemma SeqIDsSpec(lines: seq<string>)
    ensures SeqIDs(lines).Err? <==> exists i :: 0 <= i < |lines| && Bad(ClassifySeqIDLine(lines[i]))
    ensures SeqIDs(lines).Err? ==>
      var e := SeqIDs(lines).error;
      1 <= e.lineNo <= |lines| && Bad(ClassifySeqIDLine(lines[e.lineNo - 1])) && e.line == lines[e.lineNo - 1] &&
      forall i :: 0 <= i < e.lineNo - 1 ==> !Bad(ClassifySeqIDLine(lines[i]))
    ensures SeqIDs(lines).Ok? ==>
      forall e :: e in SeqIDs(lines).value <==>
        exists i :: 0 <= i < |lines| && ClassifySeqIDLine(lines[i]) == Entry(e.tid, e.acc)
  {
    if SeqIDs(lines).Err? {
      SeqIDsErr(lines);
    } else {
      SeqIDsOk(lines);
    }
  }

  lemma SeqIDsErr(lines: seq<string>)
    requires SeqIDs(lines).Err?
    ensures exists i :: 0 <= i < |lines| && Bad(ClassifySeqIDLine(lines[i]))
    ensures var e := SeqIDs(lines).error;
      1 <= e.lineNo <= |lines| && Bad(ClassifySeqIDLine(lines[e.lineNo - 1])) && e.line == lines[e.lineNo - 1] &&
      forall i :: 0 <= i < e.lineNo - 1 ==> !Bad(ClassifySeqIDLine(lines[i]))
  {
    var cs := Classified(lines);
    GatherFirstError(cs, lines);
    var e := Gather(cs, lines).error;
    assert cs[e.lineNo - 1] == ClassifySeqIDLine(lines[e.lineNo - 1]);
    forall j | 0 <= j < e.lineNo - 1 ensures !Bad(ClassifySeqIDLine(lines[j])) {
      assert cs[j] == ClassifySeqIDLine(lines[j]);
    }
  }

  lemma SeqIDsOk(lines: seq<string>)
    requires SeqIDs(lines).Ok?
    ensures forall i :: 0 <= i < |lines| ==> !Bad(ClassifySeqIDLine(lines[i]))
    ensures forall e :: e in SeqIDs(lines).value <==>
      exists i :: 0 <= i < |lines| && ClassifySeqIDLine(lines[i]) == Entry(e.tid, e.acc)
  {
    var cs := Classified(lines);
    var g := Gather(cs, lines);
    GatherFirstError(cs, lines);
    forall j | 0 <= j < |lines| ensures !Bad(ClassifySeqIDLine(lines[j])) {
      assert cs[j] == ClassifySeqIDLine(lines[j]);
    }
    GatherEntries(cs, lines);
    forall e ensures e in g.value <==> exists i :: 0 <= i < |lines| && ClassifySeqIDLine(lines[i]) == Entry(e.tid, e.acc) {
      if e in g.value {
        var i :| 0 <= i < |cs| && cs[i] == Entry(e.tid, e.acc);
        assert ClassifySeqIDLine(lines[i]) == Entry(e.tid, e.acc);
      }
      if exists i :: 0 <= i < |lines| && ClassifySeqIDLine(lines[i]) == Entry(e.tid, e.acc) {
        var i :| 0 <= i < |lines| && ClassifySeqIDLine(lines[i]) == Entry(e.tid, e.acc);
        assert cs[i] == Entry(e.tid, e.acc);
      }
    }
  }

  /** RunLength is pinned by a run that ends at a character outside it. */
  lemma {:induction false} TrailingDigitsIs(x: string, n: nat)
    requires n <= |x| && forall j :: |x| - n <= j < |x| ==> IsDigit(x[j])
    requires n == |x| || !IsDigit(x[|x| - n - 1])
    ensures TrailingDigits(x) == n
  {
    if n > 0 {
      var y := x[..|x| - 1];
      assert forall j :: |y| - (n - 1) <= j < |y| ==> y[j] == x[j];
      assert n - 1 < |y| ==> y[|y| - (n - 1) - 1] == x[|x| - n - 1];
      TrailingDigitsIs(y, n - 1);
    }
  }

  /** A versioned accession loses exactly its version. */
  lemma StripVersionOf(acc: string, v: string)
    requires acc != "" && v != "" && AllDigits(v)
    ensures StripVersion(acc + "." + v) == acc
  {
    var x := acc + "." + v;
    TrailingDigitsIs(x, |v|);
    assert x[..|acc|] == acc;
  }

  lemma TwoTokensOf(a: string, w: string, b: string)
    requires a != "" && w != "" && b != ""
    requires forall j :: 0 <= j < |a| ==> NotSpace(a[j])
    requires forall j :: 0 <= j < |w| ==> IsSpaceRE(w[j])
    requires forall j :: 0 <= j < |b| ==> NotSpace(b[j])
    ensures TwoTokens(a + w + b) == Some((a, b))
  {
    var t := a + w + b;
    RunLengthIs(t, 0, NotSpace, |a|);
    RunLengthIs(t, |a|, IsSpaceRE, |w|);
    RunLengthIs(t, |a| + |w|, NotSpace, |b|);
    assert t[..|a|] == a && t[|a| + |w|..] == b;
  }

  lemma MatchKrakenOf(tid: string, x: string, last: string)
    requires tid != "" && AllDigits(tid) && x != "" && last != ""
    requires forall j :: 0 <= j < |x| ==> NotSpace(x[j])
    requires forall j :: 0 <= j < |last| ==> NotSpace(last[j])
    ensures MatchKraken(KrakenPrefix + tid + "|" + x + "\t" + last) == Some((tid, StripVersion(x), last))
  {
    var rest := x + "\t" + last;
    var s := tid + "|" + rest;
    var line := KrakenPrefix + tid + "|" + x + "\t" + last;
    assert line == KrakenPrefix + s;
    PrefixRest(KrakenPrefix, s);
    KrakenTail(tid, rest);
    TwoTokensOf(x, "\t", last);
    MatchKrakenParts(line, |tid|, (x, last));
  }

  lemma PrefixRest(p: string, s: string)
    ensures HasPrefix(p + s, p) && (p + s)[|p|..] == s
  {
    assert (p + s)[..|p|] == p;
  }

  /** MatchKraken once the tax ID's length and the two tokens are known. */
  lemma MatchKrakenParts(line: string, nd: nat, tk: (string, string))
    requires HasPrefix(line, KrakenPrefix)
    requires var s := line[|KrakenPrefix|..];
      0 < nd < |s| && RunLength(s, 0, IsDigit) == nd && s[nd] == '|' && TwoTokens(s[nd + 1..]) == Some(tk)
    ensures MatchKraken(line) == Some((line[|KrakenPrefix|..][..nd], StripVersion(tk.0), tk.1))
  {
  }

  /** The tax ID and the bar after it, at the head of what follows the
      "kraken:taxid|" prefix. */
  lemma KrakenTail(tid: string, rest: string)
    requires tid != "" && AllDigits(tid)
    ensures var s := tid + "|" + rest;
      RunLength(s, 0, IsDigit) == |tid| && s[|tid|] == '|' && s[..|tid|] == tid && s[|tid| + 1..] == rest
  {
    var s := tid + "|" + rest;
    assert forall j :: 0 <= j < |tid| ==> s[j] == tid[j];
    RunLengthIs(s, 0, IsDigit, |tid|);
    assert s[..|tid|] == tid;
    assert s[|tid| + 1..] == rest;
  }

  /** A line as Kraken writes it, tax ID, versioned accession and tax ID
      again, gives the tax ID and the unversioned accession. */
  lemma SeqIDLineRoundTrip(tid: string, acc: string, v: string)
    requires tid != "" && AllDigits(tid) && acc != "" && v != "" && AllDigits(v)
    requires forall j :: 0 <= j < |acc| ==> NotSpace(acc[j])
    ensures ClassifySeqIDLine(KrakenPrefix + tid + "|" + (acc + "." + v) + "\t" + tid) == Entry(tid, acc)
  {
    var x := acc + "." + v;
    assert forall j :: 0 <= j < |x| ==> NotSpace(x[j]) by {
      forall j | 0 <= j < |x| ensures NotSpace(x[j]) {
        if j >= |acc| + 1 { assert IsDigit(v[j - |acc| - 1]); }
      }
    }
    assert forall j :: 0 <= j < |tid| ==> NotSpace(tid[j]) by {
      forall j | 0 <= j < |tid| ensures NotSpace(tid[j]) { assert IsDigit(tid[j]); }
    }
    MatchKrakenOf(tid, x, tid);
    StripVersionOf(acc, v);
  }

  // ---------------------------------------------------------------------
  // main: accessions attached, then sorted and deduplicated

  /** The accessions `es` give to tax ID `k`, in file order. */
  function AccsFor(es: seq<SeqIDEntry>, k: string): seq<string> {
    if es == [] then []
    else
      var e := es[|es| - 1];
      AccsFor(es[..|es| - 1], k) + (if e.tid == k then [e.acc] else [])
  }

  /** The number of entries whose tax ID has no taxonomy entry. */
  function Missing(es: seq<SeqIDEntry>, tax: map<string, TaxEntry>): nat {
    if es == [] then 0
    else Missing(es[..|es| - 1], tax) + (if es[|es| - 1].tid in tax then 0 else 1)
  }

  /** An accession is listed for `k` exactly when some entry pairs it with `k`. */
  lemma {:induction false} AccsForSpec(es: seq<SeqIDEntry>, k: string, a: string)
    ensures a in AccsFor(es, k) <==> exists i :: 0 <= i < |es| && es[i] == SeqIDEntry(k, a)
  {
    if es != [] {
      var init := es[..|es| - 1];
      AccsForSpec(init, k, a);
      if a in AccsFor(init, k) {
        var i :| 0 <= i < |init| && init[i] == SeqIDEntry(k, a);
        assert es[i] == init[i];
      }
      if exists i :: 0 <= i < |es| && es[i] == SeqIDEntry(k, a) {
        var i :| 0 <= i < |es| && es[i] == SeqIDEntry(k, a);
        if i < |init| {
          assert init[i] == es[i];
        }
      }
    }
  }

  /** Each entry either finds its tax ID or is counted missing: the
      accessions attached and the missing count add up to the entries. */
  lemma {:induction false} MissingBound(es: seq<SeqIDEntry>, tax: map<string, TaxEntry>)
    ensures Missing(es, tax) <= |es|
    ensures Missing(es, tax) == 0 <==> forall i :: 0 <= i < |es| ==> es[i].tid in tax
  {
    if es != [] {
      var init := es[..|es| - 1];
      MissingBound(init, tax);
      assert forall i :: 0 <= i < |init| ==> init[i] == es[i];
    }
  }

  /** The first loop of main: each entry's accession is appended to its
      taxonomy entry, and entries with an unknown tax ID are counted. */
  method AttachAccs(tax: map<string, TaxEntry>, es: seq<SeqIDEntry>) returns (t: map<string, TaxEntry>, bad: nat)
    ensures t.Keys == tax.Keys
    ensures forall k :: k in t ==> t[k] == tax[k].(accs := tax[k].accs + AccsFor(es, k))
    ensures bad == Missing(es, tax)
  {
    t := tax;
    bad := 0;
    for i := 0 to |es|
      invariant t.Keys == tax.Keys && bad == Missing(es[..i], tax)
      invariant forall k :: k in t ==> t[k] == tax[k].(accs := tax[k].accs + AccsFor(es[..i], k))
    {
      assert es[..i + 1][..i] == es[..i];
      var e := es[i];
      if e.tid !in t {
        bad := bad + 1;
        continue;
      }
      t := t[e.tid := t[e.tid].(accs := t[e.tid].accs + [e.acc])];
    }
    assert es[..|es|] == es;
  }

  /** Strictly ascending in string order, hence without repeats. */
  predicate StrictlySorted(r: seq<string>) {
    forall i, j :: 0 <= i < j < |r| ==> StrLt(r[i], r[j])
  }

  /** What the deduplication makes of an accession list: lists of at most
      one element stay, longer ones become their distinct elements in
      ascending order. */
  predicate IsSortedSetOf(r: seq<string>, a: seq<string>) {
    if |a| <= 1 then r == a else StrictlySorted(r) && Elems(r) == Elems(a)
  }

  lemma SubsetCard<T>(a: set<T>, b: set<T>)
    requires a <= b
    ensures |a| <= |b|
  {
    assert b == a + (b - a);
  }

  lemma {:induction false} CardNoDup(r: seq<string>)
    requires |Elems(r)| == |r|
    ensures NoDuplicates(r)
  {
    if !NoDuplicates(r) {
      var i, j :| 0 <= i < j < |r| && r[i] == r[j];
      var r' := r[..j] + r[j + 1..];
      forall x | x in Elems(r) ensures x in Elems(r') {
        var k :| 0 <= k < |r| && r[k] == x;
        if k < j { assert r'[k] == x; }
        else if k == j { assert r'[i] == x; }
        else { assert r'[k - 1] == x; }
      }
      assert Elems(r) <= Elems(r') && |r'| == |r| - 1;
      Common.DistinctCount(r');
      SubsetCard(Elems(r), Elems(r'));
      assert false;
    }
  }

  /** The distinct elements of `a`, sorted ascending. */
  method SortedDistinct(a: seq<string>) returns (r: seq<string>)
    ensures StrictlySorted(r) && Elems(r) == Elems(a)
  {
    var u := Common.SetToSeq(Elems(a));
    r := Sort(u, StrLe);
    StrLeTotalPreorder();
    SortSorted(u, StrLe);
    assert forall x :: x in r <==> x in multiset(r);
    assert forall x :: x in u <==> x in multiset(u);
    assert Elems(r) == Elems(u);
    assert |r| == |multiset(r)| == |multiset(u)| == |u|;
    Common.DistinctElems(u);
    CardNoDup(r);
    forall i, j | 0 <= i < j < |r| ensures StrLt(r[i], r[j]) {
      assert StrLe(r[i], r[j]) && r[i] != r[j];
    }
  }

  /** The ascending distinct list of a set of strings is unique, so the
      deduplicated lists do not depend on the map order. */
  lemma {:induction false} StrictlySortedUnique(r1: seq<string>, r2: seq<string>)
    requires StrictlySorted(r1) && StrictlySorted(r2) && Elems(r1) == Elems(r2)
    ensures r1 == r2
    decreases |r1|
  {
    assert r1 != [] ==> r1[0] in Elems(r1);
    assert r2 != [] ==> r2[0] in Elems(r2);
    if r1 != [] && r2 != [] {
      var a, b := r1[0], r2[0];
      assert a in Elems(r2) && b in Elems(r1);
      if a != b {
        var i :| 0 <= i < |r2| && r2[i] == a;
        var j :| 0 <= j < |r1| && r1[j] == b;
        assert i > 0 && j > 0;
        assert StrLt(b, a) && StrLt(a, b);
        StrLtTransitive(a, b, a);
        StrLtIrreflexive(a);
      }
      assert Elems(r1[1..]) == Elems(r2[1..]) by {
        forall x | x in Elems(r1[1..]) ensures x in Elems(r2[1..]) {
          var k :| 0 <= k < |r1[1..]| && r1[1..][k] == x;
          assert r1[k + 1] == x && x in Elems(r2);
          assert StrLt(a, x);
          StrLtIrreflexive(a);
          var m :| 0 <= m < |r2| && r2[m] == x;
          assert m != 0;
          assert r2[1..][m - 1] == x;
        }
        forall x | x in Elems(r2[1..]) ensures x in Elems(r1[1..]) {
          var k :| 0 <= k < |r2[1..]| && r2[1..][k] == x;
          assert r2[k + 1] == x && x in Elems(r1);
          assert StrLt(b, x);
          StrLtIrreflexive(b);
          var m :| 0 <= m < |r1| && r1[m] == x;
          assert m != 0;
          assert r1[1..][m - 1] == x;
        }
      }
      StrictlySortedUnique(r1[1..], r2[1..]);
      assert r1 == [a] + r1[1..] && r2 == [b] + r2[1..];
    }
  }

  /** The second loop of main, in map order: every accession list longer than
      one is replaced by its sorted distinct elements. */
  method DedupAccs(tax: map<string, TaxEntry>) returns (t: map<string, TaxEntry>)
    ensures t.Keys == tax.Keys
    ensures forall k :: k in t ==> t[k] == tax[k].(accs := t[k].accs) && IsSortedSetOf(t[k].accs, tax[k].accs)
  {
    t := tax;
    var todo := tax.Keys;
    while todo != {}
      invariant todo <= tax.Keys && t.Keys == tax.Keys
      invariant forall k :: k in t && k !in todo ==> t[k] == tax[k].(accs := t[k].accs) && IsSortedSetOf(t[k].accs, tax[k].accs)
      invariant forall k :: k in todo ==> t[k] == tax[k]
      decreases |todo|
    {
      var k :| k in todo;
      if |t[k].accs| > 1 {
        var d := SortedDistinct(t[k].accs);
        t := t[k := t[k].(accs := d)];
      }
      todo := todo - {k};
    }
  }

  datatype KrkTaxError = TaxFileError(tax: TaxError) | SeqIDFileError(seqID: SeqIDError)

  /** The output of main for taxonomy `m0` and sequence IDs `es`: every
      entry keeps its name, level and parent, lists exactly its children,
      and lists the sorted distinct accessions of its sequence IDs. */
  predicate Assembled(m0: map<string, TaxEntry>, es: seq<SeqIDEntry>, tax: map<string, TaxEntry>) {
    tax.Keys == m0.Keys &&
    forall k :: k in tax ==>
      tax[k] == m0[k].(children := tax[k].children, accs := tax[k].accs) &&
      NoDuplicates(tax[k].children) && Elems(tax[k].children) == ChildrenIn(m0, k) &&
      IsSortedSetOf(tax[k].accs, AccsFor(es, k))
  }

  lemma AssembledOf(m0: map<string, TaxEntry>, linked: map<string, TaxEntry>, es: seq<SeqIDEntry>,
                    attached: map<string, TaxEntry>, tax: map<string, TaxEntry>)
    requires forall k :: k in m0 ==> m0[k].accs == []
    requires Linked(m0, linked)
    requires attached.Keys == linked.Keys
    requires forall k :: k in attached ==> attached[k] == linked[k].(accs := linked[k].accs + AccsFor(es, k))
    requires tax.Keys == attached.Keys
    requires forall k :: k in tax ==> tax[k] == attached[k].(accs := tax[k].accs) && IsSortedSetOf(tax[k].accs, attached[k].accs)
    ensures Assembled(m0, es, tax)
  {
    forall k | k in tax
      ensures tax[k] == m0[k].(children := tax[k].children, accs := tax[k].accs)
      ensures IsSortedSetOf(tax[k].accs, AccsFor(es, k))
    {
      assert linked[k].accs == [];
      assert attached[k].accs == AccsFor(es, k);
    }
  }

  /** main without the printing and the JSON output: the linked taxonomy with
      sorted, deduplicated accessions, and the number of sequence IDs whose
      tax ID is not in the taxonomy. */
  method Run(taxLines: seq<string>, seqIDLines: seq<string>) returns (r: Result<(map<string, TaxEntry>, nat), KrkTaxError>)
    ensures ParseTax(taxLines).Err? ==> r == Err(TaxFileError(ParseTax(taxLines).error))
    ensures r.Ok? <==> ParseTax(taxLines).Ok? && ParentsPresent(ParseTax(taxLines).value) && SeqIDs(seqIDLines).Ok?
    ensures r.Ok? ==>
      Assembled(ParseTax(taxLines).value, SeqIDs(seqIDLines).value, r.value.0) &&
      r.value.1 == Missing(SeqIDs(seqIDLines).value, ParseTax(taxLines).value)
  {
    var t := ReadTaxFile(taxLines);
    if t.Err? {
      return Err(TaxFileError(t.error));
    }
    var s := ReadSeqIDs(seqIDLines);
    if s.Err? {
      return Err(SeqIDFileError(s.error));
    }
    ghost var m0 := ParseTax(taxLines).value;
    ParseTaxSpec(taxLines);
    assert forall k :: k in m0 ==> m0[k].accs == [];
    var attached, bad := AttachAccs(t.value, s.value);
    var tax := DedupAccs(attached);
    AssembledOf(m0, t.value, s.value, attached, tax);
    assert Missing(s.value, t.value) == Missing(s.value, m0) by {
      MissingSameKeys(s.value, t.value, m0);
    }
    r := Ok((tax, bad));
  }

  lemma {:induction false} MissingSameKeys(es: seq<SeqIDEntry>, a: map<string, TaxEntry>, b: map<string, TaxEntry>)
    requires a.Keys == b.Keys
    ensures Missing(es, a) == Missing(es, b)
  {
    if es != [] {
      MissingSameKeys(es[..|es| - 1], a, b);
    }
  }
}
