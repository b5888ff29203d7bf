/**
 * GO-term lookup (goterms/goterms.go): UniRef query IDs are read from a
 * file, one slot per line; GO annotation lines whose accession was queried
 * add their GO term to the slots of the lines that asked for it.
 */
module GoTerms {
  import opened Wrappers
  import opened Strs
  import opened Seqs

  // ---------------------------------------------------------------------
  // The pattern UniRef\d+_(\w+)

  /** The pattern matches at `p` with the capture at [a, b): "UniRef", a
      run of digits, '_', then a maximal run of word characters. */
  predicate Matched(s: string, p: nat, a: nat, b: nat) {
    p + 8 <= a < b <= |s| && UniRefAt(s, p) && s[a - 1] == '_' &&
    (forall k :: p + 6 <= k < a - 1 ==> IsDigit(s[k])) &&
    (forall k :: a <= k < b ==> IsWordChar(s[k])) &&
    (b == |s| || !IsWordChar(s[b]))
  }

  /** "UniRef" starts at `p`. */
  predicate UniRefAt(s: string, p: nat) {
    p + 6 <= |s| && s[p] == 'U' && s[p + 1] == 'n' && s[p + 2] == 'i' &&
    s[p + 3] == 'R' && s[p + 4] == 'e' && s[p + 5] == 'f'
  }

  /** The bounds of the captured \w+ when the pattern matches at `p`. The
      greedy \d+ can only hand back digits, which are not '_', so the match
      exists exactly when the whole digit run is followed by '_' and a word
      character. */
  function MatchAt(s: string, p: nat): (r: Option<(nat, nat)>)
    requires p <= |s|
    ensures r.Some? ==> Matched(s, p, r.value.0, r.value.1)
  {
    if UniRefAt(s, p) then
      var u := DigitsEnd(s, p + 6);
      if u > p + 6 && u < |s| && s[u] == '_' then
        var w := WordEnd(s, u + 1);
        if w > u + 1 then Some((u + 1, w)) else None
      else None
    else None
  }

  /** The end of the run of digits from `q`: the greedy \d+. */
  function DigitsEnd(s: string, q: nat): (r: nat)
    requires q <= |s|
    ensures q <= r <= |s| && (r == |s| || !IsDigit(s[r]))
    ensures forall k :: q <= k < r ==> IsDigit(s[k])
    decreases |s| - q
  {
    if q < |s| && IsDigit(s[q]) then DigitsEnd(s, q + 1) else q
  }

  /** The end of the run of word characters from `q`: the greedy \w+. */
  function WordEnd(s: string, q: nat): (r: nat)
    requires q <= |s|
    ensures q <= r <= |s| && (r == |s| || !IsWordChar(s[r]))
    ensures forall k :: q <= k < r ==> IsWordChar(s[k])
    decreases |s| - q
  {
    if q < |s| && IsWordChar(s[q]) then WordEnd(s, q + 1) else q
  }

  /** regexp.FindAllStringSubmatch from `from`: the captured IDs of the
      leftmost non-overlapping matches, in order; each is a non-empty run of
      word characters. */
  function FindIDs(s: string, from: nat): (r: seq<string>)
    requires from <= |s|
    ensures forall id :: id in r ==> id != "" && AllWord(id)
    decreases |s| - from
  {
    if from == |s| then []
    else match MatchAt(s, from)
      case Some((a, b)) =>
        var id := s[a..b];
        assert forall k :: 0 <= k < |id| ==> id[k] == s[a + k];
        [id] + FindIDs(s, b)
      case None => FindIDs(s, from + 1)
  }

  /** The query IDs on one line. */
  function IDsOf(line: string): seq<string> {
    FindIDs(line, 0)
  }

  predicate AllWord(s: string) {
    forall k :: 0 <= k < |s| ==> IsWordChar(s[k])
  }

  /** A query written as UniRef<digits>_<id>. */
  function Query(digits: string, id: string): string {
    "UniRef" + digits + "_" + id
  }

  lemma {:induction false} DigitsEndShift(x: string, y: string, q: nat)
    requires q <= |y|
    ensures DigitsEnd(x + y, |x| + q) == |x| + DigitsEnd(y, q)
    decreases |y| - q
  {
    if q < |y| {
      assert (x + y)[|x| + q] == y[q];
      DigitsEndShift(x, y, q + 1);
    }
  }

  lemma {:induction false} WordEndShift(x: string, y: string, q: nat)
    requires q <= |y|
    ensures WordEnd(x + y, |x| + q) == |x| + WordEnd(y, q)
    decreases |y| - q
  {
    if q < |y| {
      assert (x + y)[|x| + q] == y[q];
      WordEndShift(x, y, q + 1);
    }
  }

  /** A digit run that stops at `e` ends there. */
  lemma {:induction false} DigitsEndIs(s: string, q: nat, e: nat)
    requires q <= e <= |s| && forall k :: q <= k < e ==> IsDigit(s[k])
    requires e == |s| || !IsDigit(s[e])
    ensures DigitsEnd(s, q) == e
    decreases e - q
  {
    if q < e {
      DigitsEndIs(s, q + 1, e);
    }
  }

  /** A word run that stops at `e` ends there. */
  lemma {:induction false} WordEndIs(s: string, q: nat, e: nat)
    requires q <= e <= |s| && forall k :: q <= k < e ==> IsWordChar(s[k])
    requires e == |s| || !IsWordChar(s[e])
    ensures WordEnd(s, q) == e
    decreases e - q
  {
    if q < e {
      WordEndIs(s, q + 1, e);
    }
  }

  lemma MatchAtShift(x: string, y: string, p: nat)
    requires p <= |y|
    ensures MatchAt(y, p).None? ==> MatchAt(x + y, |x| + p).None?
    ensures MatchAt(y, p).Some? ==>
      MatchAt(x + y, |x| + p) == Some((|x| + MatchAt(y, p).value.0, |x| + MatchAt(y, p).value.1))
  {
    var s := x + y;
    if p + 6 <= |y| {
      assert forall j :: p <= j < p + 6 ==> s[|x| + j] == y[j];
    }
    if UniRefAt(y, p) {
      DigitsEndShift(x, y, p + 6);
      var u := DigitsEnd(y, p + 6);
      if u < |y| {
        assert s[|x| + u] == y[u];
        WordEndShift(x, y, u + 1);
      }
    }
  }

  /** The matches in `y` do not depend on text before it. */
  lemma {:induction false} FindIDsShift(x: string, y: string, from: nat)
    requires from <= |y|
    ensures FindIDs(x + y, |x| + from) == FindIDs(y, from)
    decreases |y| - from
  {
    if from < |y| {
      var r := MatchAt(y, from);
      if r.Some? {
        FindIDsShift(x, y, r.value.1);
        ShiftMatched(x, y, from, r.value.0, r.value.1);
      } else {
        FindIDsShift(x, y, from + 1);
        ShiftUnmatched(x, y, from);
      }
    }
  }

  /** A match at `from` is the same match with `x` in front. */
  lemma ShiftMatched(x: string, y: string, from: nat, a: nat, b: nat)
    requires from < |y| && MatchAt(y, from) == Some((a, b))
    requires FindIDs(x + y, |x| + b) == FindIDs(y, b)
    ensures FindIDs(x + y, |x| + from) == FindIDs(y, from)
  {
    FindIDsShiftAt(x, y, from, a, b);
    FindIDsAt(y, from, a, b);
  }

  /** With `x` in front, the match at `p` in `y` captures the same ID. */
  lemma FindIDsShiftAt(x: string, y: string, p: nat, a: nat, b: nat)
    requires p < |y| && MatchAt(y, p) == Some((a, b))
    ensures FindIDs(x + y, |x| + p) == [y[a..b]] + FindIDs(x + y, |x| + b)
  {
    MatchAtShiftSome(x, y, p, a, b);
    FindIDsAt(x + y, |x| + p, |x| + a, |x| + b);
    SliceShift(x, y, a, b);
  }

  lemma MatchAtShiftSome(x: string, y: string, p: nat, a: nat, b: nat)
    requires p <= |y| && MatchAt(y, p) == Some((a, b))
    ensures MatchAt(x + y, |x| + p) == Some((|x| + a, |x| + b))
  {
    MatchAtShift(x, y, p);
  }

  lemma SliceShift<T>(x: seq<T>, y: seq<T>, a: nat, b: nat)
    requires a <= b <= |y|
    ensures (x + y)[|x| + a..|x| + b] == y[a..b]
  {
  }

  /** No match at `from`: none with `x` in front either. */
  lemma ShiftUnmatched(x: string, y: string, from: nat)
    requires from < |y| && MatchAt(y, from).None?
    requires FindIDs(x + y, |x| + from + 1) == FindIDs(y, from + 1)
    ensures FindIDs(x + y, |x| + from) == FindIDs(y, from)
  {
    MatchAtShift(x, y, from);
  }

  /** One match at `from`, then the matches after it. */
  lemma FindIDsAt(s: string, from: nat, a: nat, b: nat)
    requires from < |s| && MatchAt(s, from) == Some((a, b))
    ensures FindIDs(s, from) == [s[a..b]] + FindIDs(s, b)
  {
  }

  /** The pattern matches a query at its start, capturing the ID. */
  lemma QueryMatch(digits: string, id: string, rest: string)
    requires digits != "" && AllDigits(digits)
    requires id != "" && AllWord(id)
    requires rest != "" ==> !IsWordChar(rest[0])
    ensures MatchAt(Query(digits, id) + rest, 0) == Some((7 + |digits|, |Query(digits, id)|))
  {
    var q := Query(digits, id);
    var s := q + rest;
    var u := 6 + |digits|;
    assert UniRefAt(s, 0);
    assert forall j :: 6 <= j < u ==> s[j] == digits[j - 6];
    assert s[u] == '_';
    DigitsEndIs(s, 6, u);
    assert forall j :: u + 1 <= j < |q| ==> s[j] == id[j - u - 1];
    if |q| < |s| {
      assert s[|q|] == rest[0];
    }
    WordEndIs(s, u + 1, |q|);
  }

  /** A query followed by text that does not continue its ID contributes
      exactly that ID, then the IDs of the rest. */
  lemma QueryCons(digits: string, id: string, rest: string)
    requires digits != "" && AllDigits(digits)
    requires id != "" && AllWord(id)
    requires rest != "" ==> !IsWordChar(rest[0])
    ensures IDsOf(Query(digits, id) + rest) == [id] + IDsOf(rest)
  {
    var q := Query(digits, id);
    var s := q + rest;
    QueryMatch(digits, id, rest);
    FindIDsAt(s, 0, 7 + |digits|, |q|);
    assert s[7 + |digits|..|q|] == id;
    FindIDsShift(q, rest, 0);
  }

  /** A line of queries separated by single blanks. */
  function QueryLine(digits: string, ids: seq<string>): string {
    if ids == [] then ""
    else if |ids| == 1 then Query(digits, ids[0])
    else Query(digits, ids[0]) + " " + QueryLine(digits, ids[1..])
  }

  /** A leading blank adds no match. */
  lemma BlankHead(rest: string)
    ensures IDsOf(" " + rest) == IDsOf(rest)
  {
    FindIDsShift(" ", rest, 0);
    assert MatchAt(" " + rest, 0).None?;
  }

  /** Queries separated by blanks give back their IDs, in order. */
  lemma {:induction false} QueriesLine(digits: string, ids: seq<string>)
    requires digits != "" && AllDigits(digits)
    requires forall i :: 0 <= i < |ids| ==> ids[i] != "" && AllWord(ids[i])
    ensures IDsOf(QueryLine(digits, ids)) == ids
  {
    if |ids| == 1 {
      QueryCons(digits, ids[0], "");
      assert Query(digits, ids[0]) + "" == Query(digits, ids[0]);
    } else if |ids| > 1 {
      var rest := QueryLine(digits, ids[1..]);
      QueriesLine(digits, ids[1..]);
      QueryCons(digits, ids[0], " " + rest);
      BlankHead(rest);
      assert Query(digits, ids[0]) + (" " + rest) == Query(digits, ids[0]) + " " + rest;
      assert ids == [ids[0]] + ids[1..];
    }
  }

  // ---------------------------------------------------------------------
  // loadQueries

  /** The line numbers, in order, under which `id` is queried: each line
      once per match of `id` on it. */
  function Occ(lines: seq<string>, id: string): seq<nat> {
    if lines == [] then []
    else
      var n := |lines| - 1;
      Occ(lines[..n], id) + Repeat(n, multiset(IDsOf(lines[n]))[id])
  }

  /** `c` copies of `x`. */
  function Repeat<T>(x: T, c: nat): (r: seq<T>)
    ensures |r| == c && forall i :: 0 <= i < c ==> r[i] == x
  {
    if c == 0 then [] else Repeat(x, c - 1) + [x]
  }

  /** The list under `id`, nil when absent. */
  function Lookup(m: map<string, seq<nat>>, id: string): seq<nat> {
    if id in m then m[id] else []
  }

  /** Line `k` appears in the list of `id` once per match of `id` on it. */
  lemma {:induction false} OccCount(lines: seq<string>, id: string, k: nat)
    ensures multiset(Occ(lines, id))[k] == if k < |lines| then multiset(IDsOf(lines[k]))[id] else 0
  {
    if lines != [] {
      var n := |lines| - 1;
      var c := multiset(IDsOf(lines[n]))[id];
      OccCount(lines[..n], id, k);
      RepeatCount(n, c, k);
      if k < n {
        assert lines[..n][k] == lines[k];
      }
    }
  }

  lemma RepeatCount(n: nat, c: nat, k: nat)
    ensures multiset(Repeat(n, c))[k] == if k == n then c else 0
  {
    if c > 0 {
      assert Repeat(n, c) == Repeat(n, c - 1) + [n];
      RepeatCount(n, c - 1, k);
    }
  }

  /** The line numbers come in file order. */
  lemma {:induction false} OccSorted(lines: seq<string>, id: string)
    ensures forall i, j :: 0 <= i < j < |Occ(lines, id)| ==> Occ(lines, id)[i] <= Occ(lines, id)[j]
    ensures forall x :: x in Occ(lines, id) ==> x < |lines|
  {
    if lines != [] {
      var n := |lines| - 1;
      OccSorted(lines[..n], id);
      var pre := Occ(lines[..n], id);
      var add := Repeat(n, multiset(IDsOf(lines[n]))[id]);
      assert Occ(lines, id) == pre + add;
      assert forall x :: x in pre ==> x < n;
      assert forall i :: 0 <= i < |add| ==> add[i] == n;
      var o := pre + add;
      forall x | x in o ensures x < |lines| {
        if x in pre {
        } else {
          assert x in add;
        }
      }
      forall i, j | 0 <= i < j < |o| ensures o[i] <= o[j] {
        if j < |pre| {
          assert o[i] == pre[i] && o[j] == pre[j];
        } else if i < |pre| {
          assert o[i] == pre[i] && pre[i] in pre;
          assert o[j] == add[j - |pre|];
        } else {
          assert o[i] == add[i - |pre|] && o[j] == add[j - |pre|];
        }
      }
    }
  }

  /** `id` has a list exactly when some line queries it. */
  lemma OccNonEmpty(lines: seq<string>, id: string)
    ensures Occ(lines, id) != [] <==> exists k :: 0 <= k < |lines| && id in IDsOf(lines[k])
  {
    if Occ(lines, id) != [] {
      var k := Occ(lines, id)[0];
      OccSorted(lines, id);
      OccCount(lines, id, k);
    } else {
      forall k | 0 <= k < |lines| ensures id !in IDsOf(lines[k]) {
        OccCount(lines, id, k);
      }
    }
  }

  /** `m` holds the lists of the first `i` lines, and only non-empty ones. */
  ghost predicate Loaded(lines: seq<string>, i: nat, m: map<string, seq<nat>>)
    requires i <= |lines|
  {
    (forall id :: id in m ==> m[id] != []) &&
    forall id :: Lookup(m, id) == Occ(lines[..i], id)
  }

  lemma LoadedStep(lines: seq<string>, i: nat, m: map<string, seq<nat>>)
    requires i < |lines| && forall id :: id in m ==> m[id] != []
    requires forall id :: Lookup(m, id) == Occ(lines[..i], id) + Repeat(i, multiset(IDsOf(lines[i]))[id])
    ensures Loaded(lines, i + 1, m)
  {
    assert lines[..i + 1][..i] == lines[..i];
  }

  /** One match of `id` on line `i` appends `i` to its list. */
  lemma AppendStep(m: map<string, seq<nat>>, id: string, x: string, base: seq<nat>, ids: seq<string>, j: nat, i: nat)
    requires j < |ids| && x == ids[j]
    requires Lookup(m, id) == base + Repeat(i, multiset(ids[..j])[id])
    ensures Lookup(m[x := Lookup(m, x) + [i]], id) == base + Repeat(i, multiset(ids[..j + 1])[id])
  {
    assert ids[..j + 1] == ids[..j] + [x];
    var c := multiset(ids[..j])[id];
    if x == id {
      assert Repeat(i, c + 1) == Repeat(i, c) + [i];
    }
  }

  /** All matches of line `i`, in order. */
  method AddLine(m0: map<string, seq<nat>>, ids: seq<string>, i: nat, ghost base: string -> seq<nat>)
    returns (m: map<string, seq<nat>>)
    requires forall id :: id in m0 ==> m0[id] != []
    requires forall id :: Lookup(m0, id) == base(id)
    ensures forall id :: id in m ==> m[id] != []
    ensures forall id :: Lookup(m, id) == base(id) + Repeat(i, multiset(ids)[id])
  {
    m := m0;
    assert ids[..0] == [];
    for j := 0 to |ids|
      invariant LineUpTo(m, base, ids, j, i)
    {
      var x := ids[j];
      LineStep(m, base, ids, j, i);
      m := m[x := Lookup(m, x) + [i]];
    }
    assert ids[..|ids|] == ids;
  }

  /** `m` holds `base` with line `i` appended once per match among the
      first `j` IDs of the line, and only non-empty lists. */
  ghost predicate LineUpTo(m: map<string, seq<nat>>, base: string -> seq<nat>, ids: seq<string>, j: nat, i: nat)
    requires j <= |ids|
  {
    (forall id :: id in m ==> m[id] != []) &&
    forall id :: Lookup(m, id) == base(id) + Repeat(i, multiset(ids[..j])[id])
  }

  lemma LineStep(m: map<string, seq<nat>>, base: string -> seq<nat>, ids: seq<string>, j: nat, i: nat)
    requires j < |ids| && LineUpTo(m, base, ids, j, i)
    ensures LineUpTo(m[ids[j] := Lookup(m, ids[j]) + [i]], base, ids, j + 1, i)
  {
    var x := ids[j];
    forall id ensures Lookup(m[x := Lookup(m, x) + [i]], id) == base(id) + Repeat(i, multiset(ids[..j + 1])[id]) {
      AppendStep(m, id, x, base(id), ids, j, i);
    }
  }

  /** loadQueries: each ID maps to the lines querying it, in order. */
  method LoadQueries(lines: seq<string>) returns (m: map<string, seq<nat>>)
    ensures forall id :: id in m <==> exists k :: 0 <= k < |lines| && id in IDsOf(lines[k])
    ensures forall id :: Lookup(m, id) == Occ(lines, id)
    ensures forall id :: id in m ==> m[id] != []
  {
    m := map[];
    for i := 0 to |lines|
      invariant Loaded(lines, i, m)
    {
      m := AddLine(m, IDsOf(lines[i]), i, id => Occ(lines[..i], id));
      LoadedStep(lines, i, m);
    }
    assert lines[..|lines|] == lines;
    forall id ensures id in m <==> exists k :: 0 <= k < |lines| && id in IDsOf(lines[k]) {
      OccNonEmpty(lines, id);
    }
  }

  // ---------------------------------------------------------------------
  // iterEntries

  datatype GoEntry = GoEntry(db: string, acc: string, gene: string, relation: string, goTerm: string)

  datatype GoError = BadGoTerm(line: nat, term: string) | NoQueries

  /** The first five fields, in order. */
  function EntryOf(rec: seq<string>): (e: GoEntry)
    requires |rec| >= 5
  {
    GoEntry(rec[0], rec[1], rec[2], rec[3], rec[4])
  }

  /** A record is acceptable when it is skipped or its term starts "GO:". */
  predicate GoodTerm(rec: seq<string>) {
    |rec| < 5 || HasPrefix(rec[4], "GO:")
  }

  /** Record `i` is the first with a bad term, and that term is `t`. */
  predicate FirstBad(records: seq<seq<string>>, i: nat, t: string) {
    i < |records| && !GoodTerm(records[i]) && t == records[i][4] &&
    forall k :: 0 <= k < i ==> GoodTerm(records[k])
  }

  /** The entries of the records with at least five fields, in order. */
  function Kept(records: seq<seq<string>>): seq<GoEntry> {
    if records == [] then []
    else
      var n := |records| - 1;
      Kept(records[..n]) + (if |records[n]| >= 5 then [EntryOf(records[n])] else [])
  }

  /** Each kept entry comes from a long enough record, and each such record
      gives one. */
  lemma {:induction false} KeptMembers(records: seq<seq<string>>)
    ensures forall e :: e in Kept(records) ==> exists i :: 0 <= i < |records| && |records[i]| >= 5 && e == EntryOf(records[i])
    ensures forall i :: 0 <= i < |records| && |records[i]| >= 5 ==> EntryOf(records[i]) in Kept(records)
  {
    if records != [] {
      var n := |records| - 1;
      KeptMembers(records[..n]);
      assert forall i :: 0 <= i < n ==> records[..n][i] == records[i];
    }
  }

  /** iterEntries consumed to the end: the entries, or the first bad term
      with its record number. */
  method IterEntries(records: seq<seq<string>>) returns (r: Result<seq<GoEntry>, GoError>)
    ensures r.Ok? <==> forall i :: 0 <= i < |records| ==> GoodTerm(records[i])
    ensures r.Ok? ==> r.value == Kept(records)
    ensures r.Err? ==> r.error.BadGoTerm? && FirstBad(records, r.error.line, r.error.term)
  {
    var es := [];
    for i := 0 to |records|
      invariant es == Kept(records[..i])
      invariant forall k :: 0 <= k < i ==> GoodTerm(records[k])
    {
      assert records[..i + 1][..i] == records[..i];
      var rec := records[i];
      if |rec| < 5 {
        continue;
      }
      var e := GoEntry(rec[0], rec[1], rec[2], rec[3], rec[4]);
      if !HasPrefix(e.goTerm, "GO:") {
        return Err(BadGoTerm(i, e.goTerm));
      }
      es := es + [e];
    }
    assert records[..|records|] == records;
    return Ok(es);
  }

  // ---------------------------------------------------------------------
  // The found slots

  /** What slot `i` collects, in entry order: the term of each entry once
      per occurrence of `i` in its accession's list. */
  function FoundFor(entries: seq<GoEntry>, m: map<string, seq<nat>>, i: nat): seq<string> {
    if entries == [] then []
    else
      var n := |entries| - 1;
      var e := entries[n];
      FoundFor(entries[..n], m, i) + Repeat(e.goTerm, multiset(Lookup(m, e.acc))[i])
  }

  /** The intended contents of slot `i`: the term of each entry once per
      match of its accession on line `i`. */
  function Wanted(entries: seq<GoEntry>, lines: seq<string>, i: nat): seq<string>
    requires i < |lines|
  {
    if entries == [] then []
    else
      var n := |entries| - 1;
      var e := entries[n];
      Wanted(entries[..n], lines, i) + Repeat(e.goTerm, multiset(IDsOf(lines[i]))[e.acc])
  }

  /** With the lists of loadQueries, the slots hold what they should. */
  lemma {:induction false} FoundForWanted(entries: seq<GoEntry>, lines: seq<string>, m: map<string, seq<nat>>, i: nat)
    requires i < |lines| && forall id :: Lookup(m, id) == Occ(lines, id)
    ensures FoundFor(entries, m, i) == Wanted(entries, lines, i)
  {
    if entries != [] {
      var n := |entries| - 1;
      FoundForWanted(entries[..n], lines, m, i);
      OccCount(lines, entries[n].acc, i);
    }
  }

  /** A term is in slot `i` exactly when an entry with that term has an
      accession matched on line `i`. */
  lemma WantedMembers(entries: seq<GoEntry>, lines: seq<string>, i: nat, t: string)
    requires i < |lines|
    ensures t in Wanted(entries, lines, i) <==> exists e :: e in entries && e.goTerm == t && e.acc in IDsOf(lines[i])
  {
    var w := es => Wanted(es, lines, i);
    var f := (e: GoEntry) => Repeat(e.goTerm, multiset(IDsOf(lines[i]))[e.acc]);
    forall es: seq<GoEntry>, e: GoEntry ensures w(es + [e]) == w(es) + f(e) {
      assert (es + [e])[..|es|] == es;
    }
    FoldMembers(w, f, entries, t);
    forall e ensures t in f(e) <==> e.goTerm == t && e.acc in IDsOf(lines[i]) {
      var c := multiset(IDsOf(lines[i]))[e.acc];
      if c > 0 {
        assert Repeat(e.goTerm, c)[0] == e.goTerm;
      }
    }
  }

  /** An element of a list built by appending one piece per element comes
      from the piece of one of them. */
  lemma {:induction false} FoldMembers<E, T>(w: seq<E> -> seq<T>, f: E -> seq<T>, es: seq<E>, t: T)
    requires forall es: seq<E>, e: E :: w(es + [e]) == w(es) + f(e)
    requires w([]) == []
    ensures t in w(es) <==> exists e :: e in es && t in f(e)
    decreases |es|
  {
    if es != [] {
      var n := |es| - 1;
      var pre := es[..n];
      assert es == pre + [es[n]];
      FoldMembers(w, f, pre, t);
      assert forall e :: e in es <==> e in pre || e == es[n];
    }
  }

  /** Slots fill in entry order: later entries append after earlier ones. */
  lemma WantedAppend(e1: seq<GoEntry>, e2: seq<GoEntry>, lines: seq<string>, i: nat)
    requires i < |lines|
    ensures Wanted(e1 + e2, lines, i) == Wanted(e1, lines, i) + Wanted(e2, lines, i)
  {
    var w := es => Wanted(es, lines, i);
    var f := (e: GoEntry) => Repeat(e.goTerm, multiset(IDsOf(lines[i]))[e.acc]);
    forall es: seq<GoEntry>, e: GoEntry ensures w(es + [e]) == w(es) + f(e) {
      assert (es + [e])[..|es|] == es;
    }
    FoldAppend(w, f, e1, e2);
  }

  /** A list function built by appending one piece per element maps a
      concatenation to the concatenation of its parts. */
  lemma {:induction false} FoldAppend<E, T>(w: seq<E> -> seq<T>, f: E -> seq<T>, e1: seq<E>, e2: seq<E>)
    requires forall es: seq<E>, e: E :: w(es + [e]) == w(es) + f(e)
    requires w([]) == []
    ensures w(e1 + e2) == w(e1) + w(e2)
    decreases |e2|
  {
    if e2 == [] {
      assert e1 + e2 == e1;
    } else {
      var n := |e2| - 1;
      var pre := e2[..n];
      assert e2 == pre + [e2[n]];
      assert e1 + e2 == (e1 + pre) + [e2[n]];
      FoldAppend(w, f, e1, pre);
    }
  }

  /** `found` holds the slots for the first `n` entries. */
  ghost predicate FilledUpTo(found: seq<seq<string>>, entries: seq<GoEntry>, m: map<string, seq<nat>>, n: nat)
    requires n <= |entries|
  {
    forall k :: 0 <= k < |found| ==> found[k] == FoundFor(entries[..n], m, k)
  }

  /** Appends one entry's term to the slots of its accession's lines. */
  method AddEntry(found: array<seq<string>>, ii: seq<nat>, t: string, ghost base: seq<seq<string>>)
    modifies found
    requires forall x :: x in ii ==> x < found.Length
    requires |base| == found.Length && found[..] == base
    ensures forall k :: 0 <= k < found.Length ==> found[k] == base[k] + Repeat(t, multiset(ii)[k])
  {
    for j := 0 to |ii|
      invariant forall k :: 0 <= k < found.Length ==> found[k] == base[k] + Repeat(t, multiset(ii[..j])[k])
    {
      var x := ii[j];
      assert ii[..j + 1] == ii[..j] + [x];
      assert x in ii;
      assert Repeat(t, multiset(ii[..j])[x] + 1) == Repeat(t, multiset(ii[..j])[x]) + [t];
      found[x] := found[x] + [t];
    }
    assert ii[..|ii|] == ii;
  }

  /** The entry loop of main. */
  method Fill(found: array<seq<string>>, m: map<string, seq<nat>>, entries: seq<GoEntry>)
    modifies found
    requires forall id, x :: id in m && x in m[id] ==> x < found.Length
    requires forall k :: 0 <= k < found.Length ==> found[k] == []
    ensures forall k :: 0 <= k < found.Length ==> found[k] == FoundFor(entries, m, k)
  {
    for n := 0 to |entries|
      invariant FilledUpTo(found[..], entries, m, n)
    {
      var e := entries[n];
      assert entries[..n + 1][..n] == entries[..n];
      if e.acc in m {
        AddEntry(found, m[e.acc], e.goTerm, found[..]);
      }
    }
    assert entries[..|entries|] == entries;
  }

  // ---------------------------------------------------------------------
  // main

  /** `mx` is the largest line number over all lists, and it occurs. */
  ghost predicate IsMaxIndex(m: map<string, seq<nat>>, mx: nat) {
    (forall id, x :: id in m && x in m[id] ==> x <= mx) &&
    exists id :: id in m && mx in m[id]
  }

  /** The largest line number over all lists, and it occurs. */
  method MaxIndex(m: map<string, seq<nat>>) returns (mx: nat)
    requires m != map[] && forall id :: id in m ==> m[id] != []
    ensures IsMaxIndex(m, mx)
  {
    var ks := m.Keys;
    var k0 :| k0 in ks;
    mx := MaxOf(m[k0]);
    ks := ks - {k0};
    while ks != {}
      invariant ks <= m.Keys && k0 in m.Keys - ks
      invariant forall id, x :: id in m.Keys - ks && x in m[id] ==> x <= mx
      invariant exists id :: id in m.Keys - ks && mx in m[id]
      decreases |ks|
    {
      var k :| k in ks;
      var top := MaxOf(m[k]);
      if top > mx {
        mx := top;
      }
      ks := ks - {k};
    }
  }

  predicate AnyQuery(lines: seq<string>) {
    exists k :: 0 <= k < |lines| && IDsOf(lines[k]) != []
  }

  /** Line `n - 1` is the last line with a query. */
  predicate LastQueried(lines: seq<string>, n: nat) {
    0 < n <= |lines| && IDsOf(lines[n - 1]) != [] &&
    forall k :: n <= k < |lines| ==> IDsOf(lines[k]) == []
  }

  /** A line with a query is in the list of its first ID. */
  lemma QueriedLine(lines: seq<string>, m: map<string, seq<nat>>, k: nat)
    requires forall id :: Lookup(m, id) == Occ(lines, id)
    requires k < |lines| && IDsOf(lines[k]) != []
    ensures IDsOf(lines[k])[0] in m && k in m[IDsOf(lines[k])[0]]
  {
    var id := IDsOf(lines[k])[0];
    OccCount(lines, id, k);
    assert id in multiset(IDsOf(lines[k]));
    assert k in multiset(Occ(lines, id));
    assert k in Lookup(m, id);
  }

  /** A listed line has a query. */
  lemma ListedLine(lines: seq<string>, m: map<string, seq<nat>>, id: string, x: nat)
    requires forall id :: Lookup(m, id) == Occ(lines, id)
    requires id in m && x in m[id]
    ensures x < |lines| && IDsOf(lines[x]) != []
  {
    assert x in Occ(lines, id) by {
      assert Lookup(m, id) == m[id];
    }
    OccSorted(lines, id);
    OccCount(lines, id, x);
    assert x in multiset(Occ(lines, id));
  }

  /** Nothing was loaded exactly when no line has a query. */
  lemma NoneLoaded(lines: seq<string>, m: map<string, seq<nat>>)
    requires forall id :: Lookup(m, id) == Occ(lines, id)
    requires forall id :: id in m ==> m[id] != []
    ensures m == map[] <==> !AnyQuery(lines)
  {
    if AnyQuery(lines) {
      var k :| 0 <= k < |lines| && IDsOf(lines[k]) != [];
      QueriedLine(lines, m, k);
    } else if m != map[] {
      var id :| id in m;
      ListedLine(lines, m, id, m[id][0]);
    }
  }

  /** The largest listed line number is the last line with a query. */
  lemma MaxIsLast(lines: seq<string>, m: map<string, seq<nat>>, mx: nat)
    requires forall id :: Lookup(m, id) == Occ(lines, id)
    requires IsMaxIndex(m, mx)
    ensures LastQueried(lines, mx + 1)
  {
    var id0 :| id0 in m && mx in m[id0];
    ListedLine(lines, m, id0, mx);
    forall k | mx + 1 <= k < |lines| ensures IDsOf(lines[k]) == [] {
      if IDsOf(lines[k]) != [] {
        QueriedLine(lines, m, k);
      }
    }
  }

  /** The output lines: slot `i` comma-joined. */
  method Slots(lines: seq<string>, m: map<string, seq<nat>>, entries: seq<GoEntry>, n: nat)
    returns (out: seq<string>)
    requires forall id :: Lookup(m, id) == Occ(lines, id)
    requires n <= |lines| && forall id, x :: id in m && x in m[id] ==> x < n
    ensures |out| == n
    ensures forall i :: 0 <= i < n ==> out[i] == Join(Wanted(entries, lines, i), ",")
  {
    var found := new seq<string>[n](_ => []);
    Fill(found, m, entries);
    var slots := found[..];
    forall i | 0 <= i < n ensures slots[i] == Wanted(entries, lines, i) {
      FoundForWanted(entries, lines, m, i);
    }
    out := seq(n, i requires 0 <= i < n => Join(slots[i], ","));
  }

  /** The whole program: an output line per slot, slot `i` holding the GO
      terms wanted by line `i`, comma-joined. */
  method Run(lines: seq<string>, records: seq<seq<string>>) returns (r: Result<seq<string>, GoError>)
    ensures r == Err(NoQueries) <==> !AnyQuery(lines)
    ensures r.Err? && r.error.BadGoTerm? ==> FirstBad(records, r.error.line, r.error.term)
    ensures r.Ok? <==> AnyQuery(lines) && forall i :: 0 <= i < |records| ==> GoodTerm(records[i])
    ensures r.Ok? ==> LastQueried(lines, |r.value|)
    ensures r.Ok? ==> forall i :: 0 <= i < |r.value| <= |lines| ==> r.value[i] == Join(Wanted(Kept(records), lines, i), ",")
  {
    var m := LoadQueries(lines);
    NoneLoaded(lines, m);
    if m == map[] {
      return Err(NoQueries);
    }
    var mx := MaxIndex(m);
    MaxIsLast(lines, m, mx);
    var entries := IterEntries(records);
    if entries.Err? {
      return Err(entries.error);
    }
    var out := Slots(lines, m, entries.value, mx + 1);
    return Ok(out);
  }
}
