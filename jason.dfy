/** The string and layout helpers of the abundance plots: renaming sites
  * and dates in sample names, ordering names by their time part, choosing
  * the top columns, and sizing the subplot grids. The plots themselves are
  * outside this model. */
module Jason {
  import opened Seqs
  import opened Wrappers
  import Strs
  import Jason2

  // ---------------------------------------------------------------------
  // Replacements

  /** s after each replacement of d, in order, over the whole string. */
  function Replaced(s: string, d: seq<(string, string)>): string
  {
    if d == [] then s
    else Strs.ReplaceAll(Replaced(s, d[..|d| - 1]), d[|d| - 1].0, d[|d| - 1].1)
  }

  /** Applies the replacements of d in turn (str.replace for each item). */
  method ReplStrings(s0: string, d: seq<(string, string)>) returns (s: string)
    ensures s == Replaced(s0, d)
  {
    s := s0;
    for i := 0 to |d|
      invariant s == Replaced(s0, d[..i])
    {
      assert d[..i + 1][..i] == d[..i];
      s := Strs.ReplaceAll(s, d[i].0, d[i].1);
    }
    assert d[..|d|] == d;
  }

  /** Replacing with d1 then d2 is replacing with d1 + d2. */
  lemma {:induction false} ReplacedAppend(s: string, d1: seq<(string, string)>, d2: seq<(string, string)>)
    ensures Replaced(s, d1 + d2) == Replaced(Replaced(s, d1), d2)
    decreases |d2|
  {
    if d2 == [] {
      assert d1 + d2 == d1;
    } else {
      var init := d2[..|d2| - 1];
      ReplacedAppend(s, d1, init);
      assert (d1 + d2)[..|d1 + d2| - 1] == d1 + init;
    }
  }

  /** A replacement whose non-empty pattern does not occur changes nothing. */
  lemma ReplaceAbsent(s: string, pat: string, repl: string)
    requires pat != "" && !Strs.Contains(s, pat)
    ensures Strs.ReplaceAll(s, pat, repl) == s
  {
    Strs.ContainsIffIndex(s, pat);
  }

  /** A string holding none of the (non-empty) patterns is left as it is. */
  lemma {:induction false} ReplacedUntouched(s: string, d: seq<(string, string)>)
    requires forall i :: 0 <= i < |d| ==> d[i].0 != "" && !Strs.Contains(s, d[i].0)
    ensures Replaced(s, d) == s
  {
    if d != [] {
      ReplacedUntouched(s, d[..|d| - 1]);
      ReplaceAbsent(s, d[|d| - 1].0, d[|d| - 1].1);
    }
  }

  /** The site markers and their labels, in dictionary order. */
  const Locations: seq<(string, string)> := [
    ("_LB_", "Site 1, "),
    ("_Tur_", "Site 2, "),
    ("_Wod_", "Site 3, ")
  ]

  /** Each name with its site markers replaced by the site labels. */
  function FixLocations(names: seq<string>): (r: seq<string>)
    ensures |r| == |names|
  {
    seq(|names|, i requires 0 <= i < |names| => Replaced(names[i], Locations))
  }

  /** fix_locations renames each name on its own, and leaves a name without
    * a site marker as it is. */
  lemma FixLocationsSpec(names: seq<string>, i: nat)
    requires i < |names|
    ensures FixLocations(names)[i] == Replaced(names[i], Locations)
    ensures (forall j :: 0 <= j < |Locations| ==> !Strs.Contains(names[i], Locations[j].0)) ==>
      FixLocations(names)[i] == names[i]
  {
    if forall j :: 0 <= j < |Locations| ==> !Strs.Contains(names[i], Locations[j].0) {
      ReplacedUntouched(names[i], Locations);
    }
  }

  // ---------------------------------------------------------------------
  // Dates

  /** Six digits at the start of s. */
  predicate SixDigits(s: string)
  {
    |s| >= 6 && Strs.AllDigits(s[..6])
  }

  /** Each six-digit run found scanning from the left, without overlap,
    * written as dd-dd-dd. */
  function FixDate(s: string): (r: string)
    ensures |r| >= |s|
  {
    if s == [] then []
    else if SixDigits(s) then s[..2] + "-" + s[2..4] + "-" + s[4..6] + FixDate(s[6..])
    else [s[0]] + FixDate(s[1..])
  }

  /** The characters other than '-'. */
  function Undashed(s: string): (r: string)
    ensures |r| <= |s|
  {
    if s == [] then [] else (if s[0] == '-' then [] else [s[0]]) + Undashed(s[1..])
  }

  lemma {:induction false} UndashedAppend(a: string, b: string)
    ensures Undashed(a + b) == Undashed(a) + Undashed(b)
  {
    if a != [] {
      UndashedAppend(a[1..], b);
      assert (a + b)[1..] == a[1..] + b;
    } else {
      assert a + b == b;
    }
  }

  /** A string without '-' is its own Undashed. */
  lemma {:induction false} UndashedNoDash(t: string)
    requires forall k :: 0 <= k < |t| ==> t[k] != '-'
    ensures Undashed(t) == t
  {
    if t != [] {
      UndashedNoDash(t[1..]);
    }
  }

  /** The dashes of dd-dd-dd are all that its Undashed removes. */
  lemma DatedUndashed(s: string)
    requires SixDigits(s)
    ensures Undashed(s[..2] + "-" + s[2..4] + "-" + s[4..6]) == s[..6]
  {
    assert forall k :: 0 <= k < 6 ==> Strs.IsDigit(s[..6][k]);
    UndashedAppend(s[..2] + "-" + s[2..4] + "-", s[4..6]);
    UndashedAppend(s[..2] + "-" + s[2..4], "-");
    UndashedAppend(s[..2] + "-", s[2..4]);
    UndashedAppend(s[..2], "-");
    UndashedNoDash(s[..2]);
    UndashedNoDash(s[2..4]);
    UndashedNoDash(s[4..6]);
    assert s[..6] == s[..2] + s[2..4] + s[4..6];
  }

  /** The rewriting only inserts dashes: removing all dashes from the
    * result gives what removing them from the input gives. */
  lemma {:induction false} FixDateOnlyDashes(s: string)
    ensures Undashed(FixDate(s)) == Undashed(s)
  {
    if s != [] {
      if SixDigits(s) {
        FixDateOnlyDashes(s[6..]);
        var p := s[..2] + "-" + s[2..4] + "-" + s[4..6];
        UndashedAppend(p, FixDate(s[6..]));
        UndashedAppend(s[..6], s[6..]);
        assert s == s[..6] + s[6..];
        DatedUndashed(s);
        UndashedNoDash(s[..6]);
      } else {
        FixDateOnlyDashes(s[1..]);
        UndashedAppend([s[0]], FixDate(s[1..]));
        UndashedAppend([s[0]], s[1..]);
        assert s == [s[0]] + s[1..];
      }
    }
  }

  /** A string without six digits in a row is left as it is. */
  lemma {:induction false} FixDateUntouched(s: string)
    requires forall i :: 0 <= i < |s| ==> !SixDigits(s[i..])
    ensures FixDate(s) == s
  {
    if s != [] {
      assert !SixDigits(s[0..]);
      assert s[0..] == s;
      forall i | 0 <= i < |s[1..]| ensures !SixDigits(s[1..][i..]) {
        assert s[1..][i..] == s[i + 1..];
      }
      FixDateUntouched(s[1..]);
    }
  }

  function FixDates(names: seq<string>): (r: seq<string>)
    ensures |r| == |names| && forall i :: 0 <= i < |names| ==> r[i] == FixDate(names[i])
  {
    seq(|names|, i requires 0 <= i < |names| => FixDate(names[i]))
  }

  // ---------------------------------------------------------------------
  // Ordering by time

  /** The text before the first newline. */
  function Line(s: string): (r: string)
    ensures r <= s && '\n' !in r
  {
    if s == [] || s[0] == '\n' then []
    else [s[0]] + Line(s[1..])
  }

  /** The group of .*?_(.*): the text after the first '_', up to a newline;
    * none when the name has no '_'. */
  function TimePart(x: string): (r: Option<string>)
    ensures r.None? <==> '_' !in x
    ensures r.Some? ==> exists i :: 0 <= i < |x| && x[i] == '_' && '_' !in x[..i] && r.value == Line(x[i + 1..])
  {
    if '_' in x then
      var i := IndexOf(x, '_');
      Some(Line(x[i + 1..]))
    else None
  }

  function TimeKey(x: string): string
  {
    match TimePart(x)
    case Some(t) => t
    case None => ""
  }

  /** Order by the time part. */
  function ByTime(): (string, string) -> bool
  {
    (x: string, y: string) => StrLe(TimeKey(x), TimeKey(y))
  }

  lemma ByTimeTotal()
    ensures TotalPreorder(ByTime())
  {
    forall a, b ensures ByTime()(a, b) || ByTime()(b, a) {
      StrLtTotal(TimeKey(a), TimeKey(b));
    }
    forall a, b, c | ByTime()(a, b) && ByTime()(b, c) ensures ByTime()(a, c) {
      var ka, kb, kc := TimeKey(a), TimeKey(b), TimeKey(c);
      if ka != kb && kb != kc {
        StrLtTransitive(ka, kb, kc);
      }
    }
  }

  /** The names ordered by their time part; a name without '_' is an
    * IndexError. */
  function SortedByTime(a: seq<string>): (r: Result<seq<string>, string>)
    ensures r.Err? <==> exists i :: 0 <= i < |a| && '_' !in a[i]
  {
    match FirstWithoutUnderscore(a)
    case None => Ok(Sort(a, ByTime()))
    case Some(i) => Err(a[i])
  }

  /** The position of the first name without '_', whose key raises. */
  function FirstWithoutUnderscore(a: seq<string>): (r: Option<nat>)
    ensures r.None? <==> forall i :: 0 <= i < |a| ==> '_' in a[i]
    ensures r.Some? ==> (r.value < |a| && '_' !in a[r.value] &&
      forall i :: 0 <= i < r.value ==> '_' in a[i])
  {
    if a == [] then None
    else if '_' !in a[0] then Some(0)
    else
      match FirstWithoutUnderscore(a[1..])
      case None => None
      case Some(i) => Some(i + 1)
  }

  /** The result is a permutation of the names in ascending order of their
    * time parts. */
  lemma SortedByTimeSpec(a: seq<string>)
    requires SortedByTime(a).Ok?
    ensures multiset(SortedByTime(a).value) == multiset(a)
    ensures forall i, j :: 0 <= i < j < |SortedByTime(a).value| ==>
      StrLe(TimeKey(SortedByTime(a).value[i]), TimeKey(SortedByTime(a).value[j]))
  {
    ByTimeTotal();
    SortSorted(a, ByTime());
  }

  // ---------------------------------------------------------------------
  // Top columns and grids

  /** The names of the n columns with the largest sums, without 'Other'. */
  function DfTop(cols: seq<Jason2.Column>, n: int): (r: seq<string>)
    ensures n >= 0 ==> |r| <= n
    ensures var t := Jason2.Names(Jason2.SliceTo(Sort(cols, Jason2.ByDescendingSum()), n));
      multiset(r) == multiset(t) - multiset{"Other"} &&
      (NoDuplicates(t) ==> "Other" !in r)
  {
    var t := Jason2.Names(Jason2.SliceTo(Sort(cols, Jason2.ByDescendingSum()), n));
    Jason2.NoOther(t);
    Jason2.RemoveFirst(t, "Other")
  }

  /** The comparison grid: at most four columns, and as many rows as it
    * takes to hold n panels. */
  function Grid(n: nat): (r: (nat, nat))
    ensures r.1 == Min(4, n)
    ensures r.0 * r.1 >= n
    ensures n > 0 ==> (r.0 - 1) * 4 < n
  {
    ((n + 4 - 1) / 4, Min(4, n))
  }

  /** The subplot grid of jason_plot: a = ceil(sqrt(n)) rows, b = ceil(n/a)
    * columns. */
  function NSubplots(n: nat): (r: (nat, nat))
    requires n >= 1
    ensures r.0 * r.0 >= n && (r.0 - 1) * (r.0 - 1) < n
    ensures r.0 * r.1 >= n && r.0 * (r.1 - 1) < n
  {
    var a := CeilSqrt(n, 1);
    (a, (n + a - 1) / a)
  }

  /** The least a from `from` with a * a >= n. */
  function CeilSqrt(n: nat, from: nat): (a: nat)
    requires from >= 1 && (from - 1) * (from - 1) < n
    ensures a >= 1 && a * a >= n && (a - 1) * (a - 1) < n
    decreases n - from
  {
    if from * from >= n then from
    else
      assert from < n;
      CeilSqrt(n, from + 1)
  }
}
