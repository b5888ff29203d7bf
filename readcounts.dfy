/** The read-count summary: each line of the read-count file is a sample
  * name and a count of FASTQ lines, which becomes a read count; the samples
  * are split into influent, solid and other ones, checked to partition the
  * list, and each class's counts, in millions, are sorted. Opening and
  * writing the files and the plots are outside this model. */
module ReadCounts {
  import opened Seqs
  import opened Wrappers
  import Strs
  import Common

  // ---------------------------------------------------------------------
  // Parsing

  /** Python's str.strip() whitespace, over ASCII. */
  predicate IsPySpace(c: char)
  {
    c == ' ' || c == '\t' || c == '\n' || c == '\r' || c as int == 11 || c as int == 12 ||
    28 <= c as int <= 31
  }

  function StripLeft(s: string): (r: string)
    ensures r == [] || !IsPySpace(r[0])
    ensures |r| <= |s| && r == s[|s| - |r|..]
  {
    if s != [] && IsPySpace(s[0]) then StripLeft(s[1..]) else s
  }

  function StripRight(s: string): (r: string)
    ensures r == [] || !IsPySpace(r[|r| - 1])
    ensures r <= s
  {
    if s != [] && IsPySpace(s[|s| - 1]) then StripRight(s[..|s| - 1]) else s
  }

  /** Python's int(s) on a string: surrounding whitespace, an optional sign,
    * then one or more decimal digits. */
  function PyInt(s: string): (r: Option<int>)
  {
    SignedDigits(StripRight(StripLeft(s)))
  }

  /** int() of a string without surrounding whitespace. */
  function SignedDigits(t: string): (r: Option<int>)
  {
    var signed := |t| > 0 && (t[0] == '+' || t[0] == '-');
    var digits := if signed then t[1..] else t;
    if digits == "" || !Strs.AllDigits(digits) then None
    else
      var mag: int := Strs.DigitsValue(digits);
      Some(if signed && t[0] == '-' then -mag else mag)
  }

  /** A formatted integer followed by a newline parses back to itself. */
  lemma PyIntOfIntToString(i: int)
    ensures PyInt(Strs.IntToString(i) + "\n") == Some(i)
  {
    var s := Strs.IntToString(i);
    StripNewline(s);
    SignedDigitsOfIntToString(i);
  }

  lemma SignedDigitsOfIntToString(i: int)
    ensures SignedDigits(Strs.IntToString(i)) == Some(i)
  {
    var s := Strs.IntToString(i);
    if i < 0 {
      assert s == "-" + Strs.NatToString(-i);
      assert s[1..] == Strs.NatToString(-i);
      Strs.DigitsValueOfNatToString(-i);
    } else {
      assert s == Strs.NatToString(i);
      Strs.DigitsValueOfNatToString(i);
    }
  }

  /** A formatted integer has no surrounding whitespace, and the newline
      after it is stripped. */
  lemma StripNewline(s: string)
    requires s != [] && !IsPySpace(s[0]) && !IsPySpace(s[|s| - 1])
    ensures StripRight(StripLeft(s + "\n")) == s
  {
    assert StripLeft(s + "\n") == s + "\n";
    assert (s + "\n")[..|s + "\n"| - 1] == s;
    assert StripRight(s + "\n") == StripRight(s);
  }

  /** int(v / 4): a float division, then truncation toward zero. */
  function Quarter(v: int): (r: int)
    ensures v >= 0 ==> 0 <= 4 * r <= v < 4 * r + 4
    ensures v < 0 ==> 4 * r - 4 < v <= 4 * r <= 0
  {
    if v >= 0 then v / 4 else -((-v) / 4)
  }

  /** A sample and its read count. */
  type Item = (string, int)

  datatype LineError =
    | NotTwoFields(line: string)   // unpacking a split of the wrong length
    | NotAnInt(field: string)      // int() of a bad count

  /** One line: split on single spaces into name and count of FASTQ lines,
    * four per read. */
  function ParseLine(line: string): (r: Result<Item, LineError>)
    ensures r.Ok? ==> |Strs.Split(line, " ")| == 2 && r.value.0 == Strs.Split(line, " ")[0]
  {
    var parts := Strs.Split(line, " ");
    if |parts| != 2 then Err(NotTwoFields(line))
    else
      match PyInt(parts[1])
      case None => Err(NotAnInt(parts[1]))
      case Some(v) => Ok((parts[0], Quarter(v)))
  }

  /** A line written as the name, a space, the count and a newline reads
    * back as the name and a quarter of the count. */
  lemma ParseLineRoundTrip(name: string, count: int)
    requires ' ' !in name
    ensures ParseLine(name + " " + Strs.IntToString(count) + "\n") == Ok((name, Quarter(count)))
  {
    var c := Strs.IntToString(count) + "\n";
    assert Strs.Join([name, c], " ") == name + " " + c;
    forall k | 0 <= k < 2 ensures Strs.Avoids([name, c][k], " ") {
      if k == 1 {
        forall j | 0 <= j < |c| ensures c[j] != ' ' {
          if j < |c| - 1 {
            assert c[j] in Strs.IntToString(count);
          }
        }
      }
    }
    Strs.SplitJoin([name, c], " ");
    assert name + " " + Strs.IntToString(count) + "\n" == name + " " + c;
    PyIntOfIntToString(count);
  }

  /** `f` on every element, in order, stopping at the first failure. */
  function AllOk<A, B, E>(f: A -> Result<B, E>, xs: seq<A>): (r: Result<seq<B>, E>)
    ensures r.Ok? ==> |r.value| == |xs| && forall i :: 0 <= i < |xs| ==> f(xs[i]) == Ok(r.value[i])
    ensures r.Err? ==> exists i :: (0 <= i < |xs| && f(xs[i]) == Err(r.error) &&
      forall j :: 0 <= j < i ==> f(xs[j]).Ok?)
  {
    if xs == [] then Ok([])
    else
      match f(xs[0])
      case Err(e) => Err(e)
      case Ok(y) =>
        match AllOk(f, xs[1..])
        case Err(e) =>
          FirstErrorShift(f, xs, e);
          Err(e)
        case Ok(ys) =>
          assert forall i :: 1 <= i < |xs| ==> xs[i] == xs[1..][i - 1];
          Ok([y] + ys)
  }

  /** The first failure in the tail of a list whose head succeeds is the
      first failure in the list. */
  lemma FirstErrorShift<A, B, E>(f: A -> Result<B, E>, xs: seq<A>, e: E)
    requires xs != [] && f(xs[0]).Ok?
    requires exists k :: (0 <= k < |xs| - 1 && f(xs[1..][k]) == Err(e) &&
      forall j :: 0 <= j < k ==> f(xs[1..][j]).Ok?)
    ensures exists i :: (0 <= i < |xs| && f(xs[i]) == Err(e) &&
      forall j :: 0 <= j < i ==> f(xs[j]).Ok?)
  {
    var k :| 0 <= k < |xs| - 1 && f(xs[1..][k]) == Err(e) && forall j :: 0 <= j < k ==> f(xs[1..][j]).Ok?;
    forall j | 0 <= j < k + 1
      ensures f(xs[j]).Ok?
    {
      if j > 0 {
        assert xs[j] == xs[1..][j - 1];
      }
    }
    assert xs[k + 1] == xs[1..][k];
  }

  /** All lines, in order; the first bad line raises. */
  function ReadLines(lines: seq<string>): (r: Result<seq<Item>, LineError>)
    ensures r.Ok? ==> (|r.value| == |lines| &&
      forall i :: 0 <= i < |lines| ==> ParseLine(lines[i]) == Ok(r.value[i]))
    ensures r.Err? ==> exists i :: (0 <= i < |lines| && ParseLine(lines[i]) == Err(r.error) &&
      forall j :: 0 <= j < i ==> ParseLine(lines[j]).Ok?)
  {
    AllOk(ParseLine, lines)
  }

  // ---------------------------------------------------------------------
  // The dictionary written out

  /** {a: b for a, b in rc}: a later pair for the same name wins. */
  function ToMap(rc: seq<Item>): map<string, int>
  {
    if rc == [] then map[]
    else ToMap(rc[..|rc| - 1])[rc[|rc| - 1].0 := rc[|rc| - 1].1]
  }

  /** The keys are the names, and each holds the count of the last pair
    * with that name. */
  lemma {:induction false} ToMapSpec(rc: seq<Item>)
    ensures forall a :: a in ToMap(rc) <==> exists i :: 0 <= i < |rc| && rc[i].0 == a
    ensures forall a :: a in ToMap(rc) ==> exists i :: 0 <= i < |rc| && rc[i] == (a, ToMap(rc)[a]) &&
                                                     forall j :: i < j < |rc| ==> rc[j].0 != a
  {
    if rc != [] {
      var pre := rc[..|rc| - 1];
      ToMapSpec(pre);
      forall i | 0 <= i < |pre| ensures rc[i] == pre[i] { }
    }
  }

  // ---------------------------------------------------------------------
  // The classes

  datatype Kind = Influent | Solid | Neither

  predicate InKind(name: string, k: Kind)
  {
    match k
    case Influent => Strs.Contains(name, "_INF_")
    case Solid => Strs.Contains(name, "_SOL_")
    case Neither => !Strs.Contains(name, "_INF_") && !Strs.Contains(name, "_SOL_")
  }

  /** The items of one class, in order. */
  function Class(rc: seq<Item>, k: Kind): (r: seq<Item>)
    ensures |r| <= |rc|
  {
    if rc == [] then []
    else Class(rc[..|rc| - 1], k) + (if InKind(rc[|rc| - 1].0, k) then [rc[|rc| - 1]] else [])
  }

  predicate Both(name: string)
  {
    Strs.Contains(name, "_INF_") && Strs.Contains(name, "_SOL_")
  }

  /** The number of items whose name has both markers. */
  function CountBoth(rc: seq<Item>): nat
  {
    if rc == [] then 0 else CountBoth(rc[..|rc| - 1]) + (if Both(rc[|rc| - 1].0) then 1 else 0)
  }

  /** The classes hold every item, an item with both markers twice: so the
    * lengths add up to the number of items exactly when no name has both. */
  lemma {:induction false} ClassLengths(rc: seq<Item>)
    ensures |Class(rc, Influent)| + |Class(rc, Solid)| + |Class(rc, Neither)| == |rc| + CountBoth(rc)
    ensures CountBoth(rc) == 0 <==> forall i :: 0 <= i < |rc| ==> !Both(rc[i].0)
  {
    if rc != [] {
      var pre := rc[..|rc| - 1];
      ClassLengths(pre);
      forall i | 0 <= i < |pre| ensures rc[i] == pre[i] { }
    }
  }

  /** An item is in a class exactly when it is an item of that kind. */
  lemma {:induction false} ClassMembers(rc: seq<Item>, k: Kind)
    ensures forall x :: x in Class(rc, k) <==> x in rc && InKind(x.0, k)
  {
    if rc != [] {
      var pre := rc[..|rc| - 1];
      ClassMembers(pre, k);
      assert rc == pre + [rc[|rc| - 1]];
    }
  }

  /** The three classes together hold exactly the items. */
  lemma ClassesCover(rc: seq<Item>)
    ensures Elems(Class(rc, Influent)) + Elems(Class(rc, Solid)) + Elems(Class(rc, Neither)) == Elems(rc)
  {
    ClassMembers(rc, Influent);
    ClassMembers(rc, Solid);
    ClassMembers(rc, Neither);
  }

  /** A list with a repeat has fewer distinct elements than elements. */
  lemma {:induction false} RepeatShrinks(s: seq<Item>, a: nat, b: nat)
    requires a < b < |s| && s[a] == s[b]
    ensures |Elems(s)| < |s|
  {
    var init := s[..|s| - 1];
    var x := s[|s| - 1];
    assert s == init + [x];
    assert Elems(s) == Elems(init) + {x};
    Common.DistinctCount(init);
    if b < |s| - 1 {
      RepeatShrinks(init, a, b);
    } else {
      assert x == init[a] && x in Elems(init);
    }
  }

  /** The union of the classes has as many elements as there are items
    * exactly when no item is repeated. */
  lemma DistinctUnion(rc: seq<Item>)
    ensures |Elems(Class(rc, Influent)) + Elems(Class(rc, Solid)) + Elems(Class(rc, Neither))| == |rc| <==> NoDuplicates(rc)
  {
    ClassesCover(rc);
    if NoDuplicates(rc) {
      Common.DistinctElems(rc);
    } else {
      var a, b :| 0 <= a < b < |rc| && rc[a] == rc[b];
      RepeatShrinks(rc, a, b);
    }
  }

  /** The assertion that failed. */
  datatype CheckError = NoInfluent | NoSolid | NoOther | NotASet | Overlap

  /** Counts in millions. */
  function Millions(cls: seq<Item>): (r: seq<real>)
    ensures |r| == |cls| && forall i :: 0 <= i < |cls| ==> r[i] == cls[i].1 as real / 1000000.0
  {
    if cls == [] then [] else Millions(cls[..|cls| - 1]) + [cls[|cls| - 1].1 as real / 1000000.0]
  }

  function RealLe(): (real, real) -> bool
  {
    (a: real, b: real) => a <= b
  }

  /** The sorted counts, in millions, of each class. */
  datatype Summary = Summary(vinf: seq<real>, vsol: seq<real>, voth: seq<real>)

  /** A class's counts in millions, sorted. */
  function SortedMillions(cls: seq<Item>): (v: seq<real>)
    ensures |v| == |cls|
    ensures multiset(v) == multiset(Millions(cls))
    ensures forall i, j :: 0 <= i < j < |v| ==> v[i] <= v[j]
  {
    SortedCounts(Millions(cls));
    var v := Sort(Millions(cls), RealLe());
    assert |v| == |multiset(v)| == |cls|;
    v
  }

  /** The checks, in order, then the sorted counts of each class. When they
    * pass, the three classes share out the items and each comes out as its
    * counts in millions, in ascending order. */
  function Check(rc: seq<Item>): (r: Result<Summary, CheckError>)
    ensures r.Ok? ==> |r.value.vinf| + |r.value.vsol| + |r.value.voth| == |rc|
    ensures r.Ok? ==> multiset(r.value.vinf) == multiset(Millions(Class(rc, Influent)))
    ensures r.Ok? ==> multiset(r.value.vsol) == multiset(Millions(Class(rc, Solid)))
    ensures r.Ok? ==> multiset(r.value.voth) == multiset(Millions(Class(rc, Neither)))
    ensures r.Ok? ==> forall i, j :: 0 <= i < j < |r.value.vinf| ==> r.value.vinf[i] <= r.value.vinf[j]
    ensures r.Ok? ==> forall i, j :: 0 <= i < j < |r.value.vsol| ==> r.value.vsol[i] <= r.value.vsol[j]
    ensures r.Ok? ==> forall i, j :: 0 <= i < j < |r.value.voth| ==> r.value.voth[i] <= r.value.voth[j]
  {
    var inf := Class(rc, Influent);
    var sol := Class(rc, Solid);
    var oth := Class(rc, Neither);
    if |inf| == 0 then Err(NoInfluent)
    else if |sol| == 0 then Err(NoSolid)
    else if |oth| == 0 then Err(NoOther)
    else if |Elems(inf) + Elems(sol) + Elems(oth)| != |rc| then Err(NotASet)
    else if |inf| + |sol| + |oth| != |rc| then Err(Overlap)
    else Ok(Summary(SortedMillions(inf), SortedMillions(sol), SortedMillions(oth)))
  }

  /** The checks pass exactly when each class has an item, no item is
    * repeated and no name has both markers: then the classes partition the
    * items. */
  lemma CheckOk(rc: seq<Item>)
    ensures Check(rc).Ok? <==>
      (exists x :: x in rc && InKind(x.0, Influent)) &&
      (exists x :: x in rc && InKind(x.0, Solid)) &&
      (exists x :: x in rc && InKind(x.0, Neither)) &&
      NoDuplicates(rc) &&
      (forall i :: 0 <= i < |rc| ==> !Both(rc[i].0))
  {
    ClassMembers(rc, Influent);
    ClassMembers(rc, Solid);
    ClassMembers(rc, Neither);
    ClassLengths(rc);
    DistinctUnion(rc);
    var inf := Class(rc, Influent);
    var sol := Class(rc, Solid);
    var oth := Class(rc, Neither);
    if |inf| > 0 { assert inf[0] in inf; }
    if |sol| > 0 { assert sol[0] in sol; }
    if |oth| > 0 { assert oth[0] in oth; }
  }

  /** Sorting counts gives them in ascending order, as a permutation. */
  lemma SortedCounts(vs: seq<real>)
    ensures var v := Sort(vs, RealLe());
      multiset(v) == multiset(vs) && forall i, j :: 0 <= i < j < |v| ==> v[i] <= v[j]
  {
    assert TotalPreorder(RealLe());
    SortSorted(vs, RealLe());
  }

  datatype RunError = LineFailed(line: LineError) | CheckFailed(check: CheckError)

  /** The whole script: read the lines, then check and summarise. */
  function Run(lines: seq<string>): (r: Result<Summary, RunError>)
    ensures r.Ok? <==> ReadLines(lines).Ok? && Check(ReadLines(lines).value).Ok?
    ensures r.Ok? ==> r.value == Check(ReadLines(lines).value).value
    ensures ReadLines(lines).Err? ==> r == Err(LineFailed(ReadLines(lines).error))
    ensures ReadLines(lines).Ok? && Check(ReadLines(lines).value).Err? ==>
      r == Err(CheckFailed(Check(ReadLines(lines).value).error))
  {
    match ReadLines(lines)
    case Err(e) => Err(LineFailed(e))
    case Ok(rc) =>
      match Check(rc)
      case Err(e) => Err(CheckFailed(e))
      case Ok(s) => Ok(s)
  }
}
