/**
 * FASTA sequence lengths (falen/falen.go): record names are cut at their
 * first space, each name is mapped to its sequence length, and 21 evenly
 * spaced values of the sorted lengths are reported.
 */
module Falen {
  import opened Wrappers
  import opened Seqs

  // ---------------------------------------------------------------------
  // Name trimming

  /** The name up to its first space, or all of it. */
  function Trimmed(name: string): (r: string)
    ensures r <= name && ' ' !in r
    ensures |r| < |name| ==> name[|r|] == ' '
  {
    if name == [] || name[0] == ' ' then []
    else [name[0]] + Trimmed(name[1..])
  }

  /** The trimming loop: the name is cut at the first space. */
  method TrimName(name: string) returns (r: string)
    ensures r == Trimmed(name)
  {
    for i := 0 to |name|
      invariant forall k :: 0 <= k < i ==> name[k] != ' '
    {
      if name[i] == ' ' {
        TrimmedAt(name, i);
        return name[..i];
      }
    }
    TrimmedAt(name, |name|);
    return name;
  }

  /** Trimming stops at the first space, or at the end. */
  lemma {:induction false} TrimmedAt(name: string, i: nat)
    requires i <= |name| && forall k :: 0 <= k < i ==> name[k] != ' '
    requires i == |name| || name[i] == ' '
    ensures Trimmed(name) == name[..i]
  {
    if i > 0 {
      TrimmedAt(name[1..], i - 1);
      assert name[..i] == [name[0]] + name[1..][..i - 1];
    }
  }

  /** A name without spaces, followed by a space and anything, trims to
      itself; trimming twice is trimming once. */
  lemma {:induction false} TrimmedOf(name: string, rest: string)
    requires ' ' !in name
    ensures Trimmed(name + " " + rest) == name
    ensures Trimmed(name) == name
  {
    if name != [] {
      assert (name + " " + rest)[1..] == name[1..] + " " + rest;
      TrimmedOf(name[1..], rest);
    } else {
      assert (name + " " + rest)[0] == ' ';
    }
  }

  // ---------------------------------------------------------------------
  // The length map

  datatype Fasta = Fasta(name: string, sequence: string)

  datatype FalenError = NameTwice(name: string) | EmptyPanic

  function Get(m: map<string, nat>, k: string): nat {
    if k in m then m[k] else 0
  }

  /** The map after the records, or the first name seen again after a
      non-empty sequence. */
  function Lens(recs: seq<Fasta>): Result<map<string, nat>, FalenError> {
    if recs == [] then Ok(map[])
    else
      var n := |recs| - 1;
      match Lens(recs[..n])
      case Err(e) => Err(e)
      case Ok(m) =>
        var name := Trimmed(recs[n].name);
        if Get(m, name) != 0 then Err(NameTwice(name))
        else Ok(m[name := |recs[n].sequence|])
  }

  /** Records `i` and `j` have the same name after trimming. */
  predicate SameName(recs: seq<Fasta>, i: int, j: int)
    requires 0 <= i < |recs| && 0 <= j < |recs|
  {
    Trimmed(recs[i].name) == Trimmed(recs[j].name)
  }

  /** No name recurs after a non-empty sequence. */
  predicate NoRepeatAfterData(recs: seq<Fasta>) {
    forall i, j :: 0 <= i < j < |recs| && SameName(recs, i, j) ==> |recs[i].sequence| == 0
  }

  /** Record `j` is the last one with name `name`. */
  predicate LastNamed(recs: seq<Fasta>, j: int, name: string) {
    0 <= j < |recs| && Trimmed(recs[j].name) == name &&
    forall k :: j < k < |recs| ==> Trimmed(recs[k].name) != name
  }

  /** The map holds each trimmed name with the length of its last record. */
  ghost predicate LensOf(recs: seq<Fasta>, m: map<string, nat>) {
    KeysOf(recs, m) && LastLens(recs, m)
  }

  /** Every trimmed name of `recs` is a key of `m`, and no other. */
  ghost predicate KeysOf(recs: seq<Fasta>, m: map<string, nat>) {
    forall name :: name in m <==> exists j :: 0 <= j < |recs| && Trimmed(recs[j].name) == name
  }

  /** Every key of `m` holds the length of the last record with that name. */
  ghost predicate LastLens(recs: seq<Fasta>, m: map<string, nat>) {
    forall name :: name in m ==> exists j :: LastNamed(recs, j, name) && m[name] == |recs[j].sequence|
  }

  lemma LensOfStep(recs: seq<Fasta>, m: map<string, nat>)
    requires recs != [] && LensOf(recs[..|recs| - 1], m)
    ensures LensOf(recs, m[Trimmed(recs[|recs| - 1].name) := |recs[|recs| - 1].sequence|])
  {
    var pre := recs[..|recs| - 1];
    var r := recs[|recs| - 1];
    assert recs == pre + [r];
    assert KeysOf(pre, m) && LastLens(pre, m);
    KeysSnoc(pre, r, m);
    LastLensSnoc(pre, r, m);
  }

  lemma KeysSnoc(pre: seq<Fasta>, r: Fasta, m: map<string, nat>)
    requires KeysOf(pre, m)
    ensures KeysOf(pre + [r], m[Trimmed(r.name) := |r.sequence|])
  {
    var recs := pre + [r];
    var m' := m[Trimmed(r.name) := |r.sequence|];
    forall x | x in m' ensures exists j :: 0 <= j < |recs| && Trimmed(recs[j].name) == x {
      if x == Trimmed(r.name) {
        assert recs[|pre|] == r;
      } else {
        var j :| 0 <= j < |pre| && Trimmed(pre[j].name) == x;
        assert recs[j] == pre[j];
      }
    }
    forall x | exists j :: 0 <= j < |recs| && Trimmed(recs[j].name) == x ensures x in m' {
      var j :| 0 <= j < |recs| && Trimmed(recs[j].name) == x;
      if j < |pre| {
        assert recs[j] == pre[j];
      }
    }
  }

  lemma LastLensSnoc(pre: seq<Fasta>, r: Fasta, m: map<string, nat>)
    requires LastLens(pre, m)
    ensures LastLens(pre + [r], m[Trimmed(r.name) := |r.sequence|])
  {
    var recs := pre + [r];
    var name := Trimmed(r.name);
    var m' := m[name := |r.sequence|];
    forall x | x in m' ensures exists j :: LastNamed(recs, j, x) && m'[x] == |recs[j].sequence| {
      if x == name {
        assert LastNamed(recs, |pre|, x);
      } else {
        var j :| LastNamed(pre, j, x) && m[x] == |pre[j].sequence|;
        assert recs[j] == pre[j];
        assert LastNamed(recs, j, x);
      }
    }
  }

  /** The run succeeds exactly when no name recurs after a non-empty
      sequence, and then maps each name to the length of its last record. */
  lemma {:induction false} LensSpec(recs: seq<Fasta>)
    ensures Lens(recs).Ok? <==> NoRepeatAfterData(recs)
    ensures Lens(recs).Ok? ==> LensOf(recs, Lens(recs).value)
  {
    if recs != [] {
      var n := |recs| - 1;
      var pre := recs[..n];
      var r := recs[n];
      LensSpec(pre);
      assert recs == pre + [r];
      if Lens(pre).Ok? {
        var m := Lens(pre).value;
        LensSnoc(pre, r, m);
        if Get(m, Trimmed(r.name)) != 0 {
          RepeatAtEnd(pre, r, m);
        } else {
          LensOfStep(recs, m);
          NoRepeatSnoc(pre, r, m);
        }
      } else {
        RepeatPrefix(pre, r);
      }
    }
  }

  /** A name stored with a non-zero length, seen again: a repeat after data. */
  lemma RepeatAtEnd(pre: seq<Fasta>, r: Fasta, m: map<string, nat>)
    requires LensOf(pre, m) && Get(m, Trimmed(r.name)) != 0
    ensures !NoRepeatAfterData(pre + [r])
  {
    var recs := pre + [r];
    var j :| LastNamed(pre, j, Trimmed(r.name)) && m[Trimmed(r.name)] == |pre[j].sequence|;
    assert recs[j] == pre[j] && recs[|pre|] == r;
    assert SameName(recs, j, |pre|);
  }

  /** A repeat after data in the first records stays one. */
  lemma RepeatPrefix(pre: seq<Fasta>, r: Fasta)
    requires !NoRepeatAfterData(pre)
    ensures !NoRepeatAfterData(pre + [r])
  {
    var recs := pre + [r];
    var i, j :| 0 <= i < j < |pre| && SameName(pre, i, j) && |pre[i].sequence| != 0;
    assert recs[i] == pre[i] && recs[j] == pre[j];
    assert SameName(recs, i, j);
  }

  /** A name whose stored length is 0 adds no repeat after data. */
  lemma NoRepeatSnoc(pre: seq<Fasta>, r: Fasta, m: map<string, nat>)
    requires LensOf(pre, m) && NoRepeatAfterData(pre) && Get(m, Trimmed(r.name)) == 0
    ensures NoRepeatAfterData(pre + [r])
  {
    var recs := pre + [r];
    forall i, j | 0 <= i < j < |recs| && SameName(recs, i, j) ensures |recs[i].sequence| == 0 {
      assert recs[i] == pre[i];
      if j < |pre| {
        assert recs[j] == pre[j];
        assert SameName(pre, i, j);
      } else {
        LastBefore(pre, m, i, Trimmed(r.name));
      }
    }
  }

  /** When the map holds 0 for a name, every earlier record with the name
      was empty, as long as no name recurred after data so far. */
  lemma LastBefore(pre: seq<Fasta>, m: map<string, nat>, i: int, name: string)
    requires LensOf(pre, m) && NoRepeatAfterData(pre) && Get(m, name) == 0
    requires 0 <= i < |pre| && Trimmed(pre[i].name) == name
    ensures |pre[i].sequence| == 0
  {
    var j :| LastNamed(pre, j, name) && m[name] == |pre[j].sequence|;
    if i < j {
      assert SameName(pre, i, j);
    }
  }

  /** The records of all files, in order. */
  function Flatten(files: seq<seq<Fasta>>): seq<Fasta> {
    if files == [] then [] else Flatten(files[..|files| - 1]) + files[|files| - 1]
  }

  /** The records of one file added to the map built so far. */
  method AddRecords(lens0: map<string, nat>, ghost done: seq<Fasta>, recs: seq<Fasta>)
    returns (r: Result<map<string, nat>, FalenError>)
    requires Lens(done) == Ok(lens0)
    ensures r == Lens(done + recs)
  {
    var lens := lens0;
    assert done + recs[..0] == done;
    for k := 0 to |recs|
      invariant Lens(done + recs[..k]) == Ok(lens)
    {
      var name := TrimName(recs[k].name);
      TakeSnoc(done, recs, k);
      LensSnoc(done + recs[..k], recs[k], lens);
      if Get(lens, name) != 0 {
        LensStops(done + recs, |done| + k + 1);
        return Err(NameTwice(name));
      }
      lens := lens[name := |recs[k].sequence|];
    }
    assert recs[..|recs|] == recs;
    return Ok(lens);
  }

  lemma TakeSnoc<T>(d: seq<T>, r: seq<T>, k: nat)
    requires k < |r|
    ensures d + r[..k + 1] == (d + r[..k]) + [r[k]]
    ensures d + r[..k + 1] == (d + r)[..|d| + k + 1]
  {
  }

  /** One more record: its name is stored, or found again after data. */
  lemma LensSnoc(pre: seq<Fasta>, r: Fasta, m: map<string, nat>)
    requires Lens(pre) == Ok(m)
    ensures Lens(pre + [r]) ==
      if Get(m, Trimmed(r.name)) != 0 then Err(NameTwice(Trimmed(r.name))) else Ok(m[Trimmed(r.name) := |r.sequence|])
  {
    assert (pre + [r])[..|pre|] == pre;
  }

  /** The loop of main over the files and their records. */
  method CollectLens(files: seq<seq<Fasta>>) returns (r: Result<map<string, nat>, FalenError>)
    ensures r == Lens(Flatten(files))
  {
    var lens: map<string, nat> := map[];
    ghost var done: seq<Fasta> := [];
    for f := 0 to |files|
      invariant done == Flatten(files[..f])
      invariant Lens(done) == Ok(lens)
    {
      assert files[..f + 1][..f] == files[..f];
      var next := AddRecords(lens, done, files[f]);
      if next.Err? {
        FlattenPrefix(files, f + 1);
        var all := done + files[f];
        assert all == Flatten(files)[..|all|];
        LensStops(Flatten(files), |all|);
        return next;
      }
      lens := next.value;
      done := done + files[f];
    }
    assert files[..|files|] == files;
    return Ok(lens);
  }

  /** A failure on a prefix of the records is the outcome of all of them. */
  lemma {:induction false} LensStops(recs: seq<Fasta>, n: nat)
    requires n <= |recs| && Lens(recs[..n]).Err?
    ensures Lens(recs) == Lens(recs[..n])
    decreases |recs| - n
  {
    if n < |recs| {
      assert recs[..n + 1][..n] == recs[..n];
      LensStops(recs, n + 1);
    } else {
      assert recs[..n] == recs;
    }
  }

  /** The records of the first files come first. */
  lemma {:induction false} FlattenPrefix(files: seq<seq<Fasta>>, f: nat)
    requires f <= |files|
    ensures Flatten(files[..f]) <= Flatten(files)
    decreases |files| - f
  {
    if f < |files| {
      FlattenPrefix(files, f + 1);
      assert files[..f + 1][..f] == files[..f];
    } else {
      assert files[..f] == files;
    }
  }

  // ---------------------------------------------------------------------
  // The summary

  function IntLe(a: int, b: int): bool {
    a <= b
  }

  lemma IntLeTotal()
    ensures TotalPreorder(IntLe)
  {
  }

  /** The `i`th of the 21 printed positions in a list of `len` values. */
  function Position(len: nat, i: nat, idiv: (int, int) -> int): int {
    idiv((len - 1) * i, 20)
  }

  /** gnum.Idiv is not part of this model: it is a parameter that rounds a
      non-negative quotient either way. */
  ghost predicate RoundsQuotient(idiv: (int, int) -> int) {
    forall a: int, b: int :: 0 <= a && 0 < b ==> a / b <= idiv(a, b) <= (a + b - 1) / b
  }

  lemma PositionInRange(len: nat, i: nat, idiv: (int, int) -> int)
    requires RoundsQuotient(idiv) && len > 0 && i <= 20
    ensures 0 <= Position(len, i, idiv) < len
    ensures i == 0 ==> Position(len, i, idiv) == 0
    ensures i == 20 ==> Position(len, i, idiv) == len - 1
  {
    var a := (len - 1) * i;
    assert a / 20 <= idiv(a, 20) <= (a + 19) / 20;
    DivBounds(len - 1, i);
  }

  /** `l * i / 20` rounded either way stays within 0 .. l for i <= 20,
      and is exactly 0 or l at the ends. */
  lemma DivBounds(l: nat, i: nat)
    requires i <= 20
    ensures 0 <= (l * i) / 20 && (l * i + 19) / 20 <= l
    ensures i == 0 ==> (l * i + 19) / 20 == 0
    ensures i == 20 ==> (l * i) / 20 == l
  {
    assert 0 <= l * i <= l * 20 by {
      MulLe(l, i, 20);
    }
  }

  lemma MulLe(l: nat, i: nat, j: nat)
    requires i <= j
    ensures l * i <= l * j
  {
    assert l * j == l * i + l * (j - i);
  }

  /** The printed summary: 21 values at evenly spaced positions of the
      sorted lengths; indexing an empty list panics. */
  method Summary(sorted: seq<int>, idiv: (int, int) -> int) returns (r: Result<seq<int>, FalenError>)
    requires RoundsQuotient(idiv)
    ensures sorted == [] <==> r.Err?
    ensures r.Err? ==> r.error == EmptyPanic
    ensures r.Ok? ==> |r.value| == 21 && r.value[0] == sorted[0] && r.value[20] == sorted[|sorted| - 1]
    ensures r.Ok? ==> forall i :: 0 <= i < 21 ==> r.value[i] == sorted[Position(|sorted|, i, idiv)]
  {
    if sorted == [] {
      return Err(EmptyPanic);
    }
    var out := [];
    for i := 0 to 21
      invariant |out| == i
      invariant forall k :: 0 <= k < i ==> 0 <= Position(|sorted|, k, idiv) < |sorted| && out[k] == sorted[Position(|sorted|, k, idiv)]
    {
      PositionInRange(|sorted|, i, idiv);
      var ii := idiv((|sorted| - 1) * i, 20);
      out := out + [sorted[ii]];
    }
    PositionInRange(|sorted|, 0, idiv);
    PositionInRange(|sorted|, 20, idiv);
    return Ok(out);
  }

  /** The smallest and largest values of a sorted permutation are its
      first and last. */
  lemma SortedEnds(vals: seq<int>)
    requires vals != []
    ensures var s := Sort(vals, IntLe);
      |s| == |vals| && forall x :: x in vals ==> s[0] <= x <= s[|s| - 1]
  {
    var s := Sort(vals, IntLe);
    IntLeTotal();
    SortSorted(vals, IntLe);
    assert |s| == |multiset(s)| == |multiset(vals)| == |vals|;
    forall x | x in vals ensures s[0] <= x <= s[|s| - 1] {
      assert x in multiset(vals);
      assert x in multiset(s);
      var k :| 0 <= k < |s| && s[k] == x;
      if k > 0 { assert IntLe(s[0], s[k]); }
      if k < |s| - 1 { assert IntLe(s[k], s[|s| - 1]); }
    }
  }

  /** The map's values, taken in the order of `order`. */
  function ValuesIn(m: map<string, nat>, order: seq<string>): (vals: seq<int>)
    requires Elems(order) <= m.Keys
    ensures |vals| == |order|
  {
    seq(|order|, i requires 0 <= i < |order| => (assert order[i] in Elems(order); m[order[i]]))
  }

  /** The sorted values are empty exactly when there were no records. */
  lemma NoRecordsNoValues(recs: seq<Fasta>, m: map<string, nat>, order: seq<string>)
    requires Lens(recs) == Ok(m) && Elems(order) == m.Keys
    ensures |Sort(ValuesIn(m, order), IntLe)| == |order|
    ensures |order| == 0 <==> recs == []
  {
    LensSpec(recs);
    var vals := ValuesIn(m, order);
    assert |Sort(vals, IntLe)| == |multiset(vals)| == |vals|;
    if recs != [] {
      assert Trimmed(recs[0].name) in m;
      assert Trimmed(recs[0].name) in Elems(order);
    }
  }

  /** Every value lies between the first and the last printed value. */
  lemma ValuesBetween(m: map<string, nat>, order: seq<string>, out: seq<int>)
    requires Elems(order) == m.Keys && order != []
    requires |out| == 21
    requires out[0] == Sort(ValuesIn(m, order), IntLe)[0]
    requires out[20] == Sort(ValuesIn(m, order), IntLe)[|order| - 1]
    ensures forall name :: name in m ==> out[0] <= m[name] <= out[20]
  {
    var vals := ValuesIn(m, order);
    SortedEnds(vals);
    forall name | name in m ensures out[0] <= m[name] <= out[20] {
      assert name in Elems(order);
      var k :| 0 <= k < |order| && order[k] == name;
      assert vals[k] == m[name] && vals[k] in vals;
    }
  }

  /** main after the glob: the length map, then the summary of its values
      taken in map order `order`. */
  method Run(files: seq<seq<Fasta>>, order: seq<string>, idiv: (int, int) -> int)
    returns (r: Result<(map<string, nat>, seq<int>), FalenError>)
    requires RoundsQuotient(idiv) && NoDuplicates(order)
    requires Lens(Flatten(files)).Ok? ==> Elems(order) == Lens(Flatten(files)).value.Keys
    ensures Lens(Flatten(files)).Err? ==> r == Err(Lens(Flatten(files)).error)
    ensures Lens(Flatten(files)).Ok? ==> (r.Ok? <==> Flatten(files) != [])
    ensures r.Ok? ==> r.value.0 == Lens(Flatten(files)).value && |r.value.1| == 21
    ensures r.Ok? ==> forall name :: name in r.value.0 ==> r.value.1[0] <= r.value.0[name] <= r.value.1[20]
    ensures r.Ok? ==> var sorted := Sort(ValuesIn(r.value.0, order), IntLe);
      sorted != [] && forall i :: 0 <= i < 21 ==>
        0 <= Position(|sorted|, i, idiv) < |sorted| && r.value.1[i] == sorted[Position(|sorted|, i, idiv)]
  {
    var lens := CollectLens(files);
    if lens.Err? {
      return Err(lens.error);
    }
    var m := lens.value;
    var sorted := Sort(ValuesIn(m, order), IntLe);
    NoRecordsNoValues(Flatten(files), m, order);
    var s := Summary(sorted, idiv);
    if s.Err? {
      return Err(s.error);
    }
    ValuesBetween(m, order, s.value);
    forall i | 0 <= i < 21 ensures 0 <= Position(|sorted|, i, idiv) < |sorted| {
      PositionInRange(|sorted|, i, idiv);
    }
    return Ok((m, s.value));
  }
}
