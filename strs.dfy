/**
 * String helpers with the semantics of the Go and Python standard-library
 * calls the analysis code uses: prefixes and suffixes, trimming, base names,
 * splitting and joining, replacing, decimal formatting and parsing.
 * Strings are sequences of characters; case conversion covers ASCII only.
 */
module Strs {
  import opened Wrappers

  // ---------------------------------------------------------------------
  // Prefixes, suffixes, occurrences

  /** `prefix` starts `s` (Go strings.HasPrefix, Python str.startswith). */
  predicate HasPrefix(s: string, prefix: string) {
    prefix <= s
  }

  /** `suffix` ends `s` (Go strings.HasSuffix, Python str.endswith). */
  predicate HasSuffix(s: string, suffix: string) {
    |suffix| <= |s| && s[|s| - |suffix|..] == suffix
  }

  /** Removes `suffix` once when present (Go strings.TrimSuffix, Python str.removesuffix). */
  function TrimSuffix(s: string, suffix: string): (r: string)
    ensures HasSuffix(s, suffix) ==> r + suffix == s
    ensures !HasSuffix(s, suffix) ==> r == s
  {
    if HasSuffix(s, suffix) then s[..|s| - |suffix|] else s
  }

  /** Removes each of `suffixes` at most once, in order: a chain of
      TrimSuffix (Python removesuffix) calls. */
  function TrimSuffixes(s: string, suffixes: seq<string>): (r: string)
    ensures HasPrefix(s, r)
    decreases |suffixes|
  {
    if suffixes == [] then s
    else
      var t := TrimSuffix(s, suffixes[0]);
      assert HasPrefix(s, t) by {
        if HasSuffix(s, suffixes[0]) { assert s == t + suffixes[0]; }
      }
      TrimSuffixes(t, suffixes[1..])
  }

  /** Appending a suffix and trimming it gives the text back. */
  lemma TrimOff(x: string, suffix: string)
    ensures TrimSuffix(x + suffix, suffix) == x
  {
    assert (x + suffix)[|x|..] == suffix;
    assert (x + suffix)[..|x|] == x;
  }

  /** Three steps of TrimSuffixes. */
  lemma Unfold3(s: string, a: string, b: string, c: string)
    ensures TrimSuffixes(s, [a, b, c]) == TrimSuffix(TrimSuffix(TrimSuffix(s, a), b), c)
  {
    var t1 := TrimSuffix(s, a);
    var t2 := TrimSuffix(t1, b);
    assert [a, b, c][1..] == [b, c] && [b, c][1..] == [c] && [c][1..] == [];
    assert TrimSuffixes(s, [a, b, c]) == TrimSuffixes(t1, [b, c]);
    assert TrimSuffixes(t1, [b, c]) == TrimSuffixes(t2, [c]);
  }

  /** Four steps of TrimSuffixes. */
  lemma Unfold4(s: string, a: string, b: string, c: string, d: string)
    ensures TrimSuffixes(s, [a, b, c, d]) == TrimSuffix(TrimSuffix(TrimSuffix(TrimSuffix(s, a), b), c), d)
  {
    assert [a, b, c, d][1..] == [b, c, d];
    Unfold3(TrimSuffix(s, a), b, c, d);
  }

  /** A suffix starting with '.' does not end a text whose dots all lie
      before its last |suffix| characters. */
  lemma NoDotNoSuffix(s: string, suffix: string)
    requires |suffix| > 0 && suffix[0] == '.'
    requires forall i :: 0 <= i < |s| && s[i] == '.' ==> i + |suffix| < |s|
    ensures !HasSuffix(s, suffix)
  {
    if |suffix| <= |s| {
      var t := s[|s| - |suffix|..];
      assert t[0] == s[|s| - |suffix|];
      assert t[0] != suffix[0];
    }
  }

  /** A suffix whose last character differs from the text's does not end it. */
  lemma LastDiffers(s: string, suffix: string)
    requires |s| > 0 && |suffix| > 0 && s[|s| - 1] != suffix[|suffix| - 1]
    ensures !HasSuffix(s, suffix)
  {
    if |suffix| <= |s| {
      var t := s[|s| - |suffix|..];
      assert t[|t| - 1] == s[|s| - 1];
    }
  }

  /** `sub` occurs in `s` starting at index `i`. */
  predicate OccursAt(s: string, sub: string, i: nat) {
    i + |sub| <= |s| && s[i..i + |sub|] == sub
  }

  /** Python's `sub in s`, Go's strings.Contains. */
  predicate Contains(s: string, sub: string) {
    exists i: nat :: i <= |s| && OccursAt(s, sub, i)
  }

  /** The leftmost occurrence of `sub` in `s` at or after `from`. */
  function IndexFrom(s: string, sub: string, from: nat): (r: Option<nat>)
    requires from <= |s|
    decreases |s| - from
    ensures r.Some? ==> from <= r.value <= |s| && OccursAt(s, sub, r.value)
  {
    if OccursAt(s, sub, from) then Some(from)
    else if from == |s| then None
    else IndexFrom(s, sub, from + 1)
  }

  /** IndexFrom finds the leftmost occurrence, and None means there is none. */
  lemma IndexFromSpec(s: string, sub: string, from: nat)
    requires from <= |s|
    decreases |s| - from
    ensures var r := IndexFrom(s, sub, from);
      (r.Some? ==> forall j: nat :: from <= j < r.value ==> !OccursAt(s, sub, j)) &&
      (r.None? ==> forall j: nat :: from <= j <= |s| ==> !OccursAt(s, sub, j))
  {
    if !OccursAt(s, sub, from) && from < |s| {
      IndexFromSpec(s, sub, from + 1);
    }
  }

  lemma ContainsIffIndex(s: string, sub: string)
    ensures Contains(s, sub) <==> IndexFrom(s, sub, 0).Some?
  {
    var r := IndexFrom(s, sub, 0);
    IndexFromSpec(s, sub, 0);
    if r.Some? {
      assert OccursAt(s, sub, r.value);
    }
  }

  // ---------------------------------------------------------------------
  // Trimming

  /** Drops leading occurrences of `c`. */
  function TrimLeftChar(s: string, c: char): (r: string)
    ensures |r| <= |s|
  {
    if s != "" && s[0] == c then TrimLeftChar(s[1..], c) else s
  }

  /** TrimLeftChar removes exactly the leading run of `c`. */
  lemma TrimLeftCharSpec(s: string, c: char)
    ensures var r := TrimLeftChar(s, c);
      r == s[|s| - |r|..] && (r == "" || r[0] != c) && forall i :: 0 <= i < |s| - |r| ==> s[i] == c
  {
    if s != "" && s[0] == c {
      TrimLeftCharSpec(s[1..], c);
    }
  }

  /** Drops trailing occurrences of `c`. */
  function TrimRightChar(s: string, c: char): (r: string)
    ensures |r| <= |s|
  {
    if s != "" && s[|s| - 1] == c then TrimRightChar(s[..|s| - 1], c) else s
  }

  /** TrimRightChar removes exactly the trailing run of `c`. */
  lemma TrimRightCharSpec(s: string, c: char)
    ensures var r := TrimRightChar(s, c);
      r == s[..|r|] && (r == "" || r[|r| - 1] != c) && forall i :: |r| <= i < |s| ==> s[i] == c
  {
    if s != "" && s[|s| - 1] == c {
      TrimRightCharSpec(s[..|s| - 1], c);
    }
  }

  /** Go's strings.Trim(s, " "): drops leading and trailing spaces. */
  function TrimSpaces(s: string): string {
    TrimRightChar(TrimLeftChar(s, ' '), ' ')
  }

  // ---------------------------------------------------------------------
  // Base names

  /** The text after the last '/', or all of `s` when it has none. */
  function AfterLastSlash(s: string): (r: string)
    ensures HasSuffix(s, r) && '/' !in r
    ensures |r| < |s| ==> s[|s| - |r| - 1] == '/'
  {
    if s == "" then ""
    else if s[|s| - 1] == '/' then ""
    else
      var r' := AfterLastSlash(s[..|s| - 1]);
      assert s[..|s| - 1][|s| - 1 - |r'|..] == s[|s| - 1 - |r'|..|s| - 1];
      r' + [s[|s| - 1]]
  }

  /** The base name of a path joined from a directory and a slash-free name
      is that name. */
  lemma {:induction false} AfterLastSlashOf(dir: string, name: string)
    requires '/' !in name
    ensures AfterLastSlash(dir + "/" + name) == name
    decreases |name|
  {
    if name == "" {
      assert dir + "/" + name == dir + "/";
    } else {
      var n := |name| - 1;
      var pre := name[..n];
      assert name == pre + [name[n]];
      assert '/' !in pre && name[n] != '/' by {
        assert forall c :: c in pre ==> c in name;
      }
      AfterLastSlashOf(dir, pre);
      assert dir + "/" + name == (dir + "/" + pre) + [name[n]];
      AfterLastSlashSnoc(dir + "/" + pre, name[n]);
    }
  }

  /** A character other than '/' extends the base name. */
  lemma AfterLastSlashSnoc(p: string, c: char)
    requires c != '/'
    ensures AfterLastSlash(p + [c]) == AfterLastSlash(p) + [c]
  {
    assert (p + [c])[..|p|] == p;
  }

  /** Python's os.path.basename on a POSIX path. */
  function PyBasename(path: string): string {
    AfterLastSlash(path)
  }

  /** Go's filepath.Base on a POSIX path: "." for "", "/" for only slashes,
      otherwise the last element after trailing slashes are removed. */
  function GoBase(path: string): (r: string)
    ensures r != ""
  {
    if path == "" then "."
    else
      var stripped := TrimRightChar(path, '/');
      if stripped == "" then "/"
      else
        var b := AfterLastSlash(stripped);
        assert b != "" by { TrimRightCharSpec(path, '/'); }
        b
  }

  // ---------------------------------------------------------------------
  // Splitting and joining

  /** Go's strings.Split and Python's str.split with an explicit, non-empty
      separator: the pieces between the non-overlapping occurrences of `sep`,
      scanned from the left. */
  function Split(s: string, sep: string): (parts: seq<string>)
    requires sep != ""
    ensures |parts| >= 1
    decreases |s|
  {
    match IndexFrom(s, sep, 0)
    case None => [s]
    case Some(i) => [s[..i]] + Split(s[i + |sep|..], sep)
  }

  /** Go's strings.Join and Python's str.join. */
  function Join(parts: seq<string>, sep: string): string {
    if |parts| == 0 then ""
    else if |parts| == 1 then parts[0]
    else parts[0] + sep + Join(parts[1..], sep)
  }

  /** No character of `sep` appears in `s`. */
  predicate Avoids(s: string, sep: string) {
    forall c :: c in s ==> c !in sep
  }

  lemma {:induction false} NoOccurrenceInAvoiding(s: string, sep: string, j: nat)
    requires sep != "" && Avoids(s, sep) && j < |s|
    ensures !OccursAt(s, sep, j)
  {
    assert s[j] in s;
    assert s[j] != sep[0];
  }

  /** Splitting a joined list gives the list back when no piece shares a
      character with the separator. */
  lemma {:induction false} SplitJoin(parts: seq<string>, sep: string)
    requires sep != "" && |parts| >= 1
    requires forall k :: 0 <= k < |parts| ==> Avoids(parts[k], sep)
    ensures Split(Join(parts, sep), sep) == parts
  {
    var s := Join(parts, sep);
    var p0 := parts[0];
    if |parts| == 1 {
      forall j: nat | j <= |s| ensures !OccursAt(s, sep, j) {
        if j < |s| { NoOccurrenceInAvoiding(s, sep, j); }
      }
      IndexFromSpec(s, sep, 0);
      assert IndexFrom(s, sep, 0).None?;
    } else {
      var rest := Join(parts[1..], sep);
      assert s == p0 + sep + rest;
      forall j: nat | j < |p0| ensures !OccursAt(s, sep, j) {
        assert s[j] == p0[j] && p0[j] in p0;
        assert s[j] != sep[0];
      }
      assert OccursAt(s, sep, |p0|) by {
        assert s[|p0|..|p0| + |sep|] == sep;
      }
      IndexFromSpec(s, sep, 0);
      assert IndexFrom(s, sep, 0) == Some(|p0|);
      assert s[..|p0|] == p0;
      assert s[|p0| + |sep|..] == rest;
      SplitJoin(parts[1..], sep);
    }
  }

  /** Joining the pieces of a split gives the string back. */
  lemma JoinCons(p: string, parts: seq<string>, sep: string)
    requires |parts| >= 1
    ensures Join([p] + parts, sep) == p + sep + Join(parts, sep)
  {
    assert ([p] + parts)[1..] == parts;
  }

  lemma SplitAt(s: string, sep: string, i: nat)
    requires sep != "" && i <= |s| && IndexFrom(s, sep, 0) == Some(i)
    ensures Split(s, sep) == [s[..i]] + Split(s[i + |sep|..], sep)
  {
  }

  lemma {:induction false} JoinSplit(s: string, sep: string)
    requires sep != ""
    ensures Join(Split(s, sep), sep) == s
    decreases |s|
  {
    var r := IndexFrom(s, sep, 0);
    if r.Some? {
      var i := r.value;
      var rest := s[i + |sep|..];
      JoinSplit(rest, sep);
      SplitAt(s, sep, i);
      JoinCons(s[..i], Split(rest, sep), sep);
      assert s[i..i + |sep|] == sep;
      assert s == s[..i] + s[i..i + |sep|] + rest;
    }
  }

  // ---------------------------------------------------------------------
  // Replacing

  /** Python's str.replace(pat, repl): every non-overlapping occurrence of
      `pat`, scanned from the left, becomes `repl`; an empty `pat` inserts
      `repl` before every character and at the end. */
  function ReplaceAll(s: string, pat: string, repl: string): string
    decreases |s|
  {
    if pat == "" then
      if s == "" then repl else repl + [s[0]] + ReplaceAll(s[1..], pat, repl)
    else
      match IndexFrom(s, pat, 0)
      case None => s
      case Some(i) => s[..i] + repl + ReplaceAll(s[i + |pat|..], pat, repl)
  }

  /** Go's strings.Replace(s, pat, repl, 1) with a non-empty `pat`. */
  function ReplaceFirst(s: string, pat: string, repl: string): (r: string)
    requires pat != ""
    ensures !Contains(s, pat) ==> r == s
  {
    match IndexFrom(s, pat, 0)
    case None =>
      ContainsIffIndex(s, pat);
      s
    case Some(i) => s[..i] + repl + s[i + |pat|..]
  }

  // ---------------------------------------------------------------------
  // Characters

  predicate IsDigit(c: char) {
    '0' <= c <= '9'
  }

  predicate AllDigits(s: string) {
    forall i :: 0 <= i < |s| ==> IsDigit(s[i])
  }

  /** RE2's \s: tab, newline, form feed, carriage return, space. */
  predicate IsSpaceRE(c: char) {
    c == ' ' || c == '\t' || c == '\n' || c as int == 12 || c == '\r'
  }

  /** RE2's \w: ASCII letters, digits and underscore. */
  predicate IsWordChar(c: char) {
    ('a' <= c <= 'z') || ('A' <= c <= 'Z') || IsDigit(c) || c == '_'
  }

  predicate IsAsciiLetter(c: char) {
    ('a' <= c <= 'z') || ('A' <= c <= 'Z')
  }

  /** The length of the longest run of characters satisfying `p` that starts at `q`. */
  function RunLength(s: string, q: nat, p: char -> bool): (n: nat)
    requires q <= |s|
    ensures q + n <= |s|
    ensures forall j :: q <= j < q + n ==> p(s[j])
    ensures q + n == |s| || !p(s[q + n])
    decreases |s| - q
  {
    if q < |s| && p(s[q]) then 1 + RunLength(s, q + 1, p) else 0
  }
  /** The run is exactly `n` long when `n` matching characters are followed
      by the end or a non-matching one. */
  lemma {:induction false} RunLengthIs(s: string, q: nat, p: char -> bool, n: nat)
    requires q + n <= |s| && forall j :: q <= j < q + n ==> p(s[j])
    requires q + n == |s| || !p(s[q + n])
    ensures RunLength(s, q, p) == n
    decreases n
  {
    if n > 0 {
      RunLengthIs(s, q + 1, p, n - 1);
    }
  }

  function LowerChar(c: char): char {
    if 'A' <= c <= 'Z' then (c as int + 32) as char else c
  }

  /** Lower-casing, for ASCII letters. */
  function ToLower(s: string): (r: string)
    ensures |r| == |s|
    ensures forall i :: 0 <= i < |s| ==> r[i] == LowerChar(s[i])
  {
    seq(|s|, i requires 0 <= i < |s| => LowerChar(s[i]))
  }

  /** Upper-casing, for ASCII letters. */
  function ToUpper(s: string): (r: string)
    ensures |r| == |s|
  {
    seq(|s|, i requires 0 <= i < |s| => if 'a' <= s[i] <= 'z' then (s[i] as int - 32) as char else s[i])
  }

  // ---------------------------------------------------------------------
  // Decimal numbers

  function DigitChar(d: nat): (c: char)
    requires d < 10
    ensures IsDigit(c)
  {
    (48 + d) as char
  }

  function DigitValue(c: char): nat
    requires IsDigit(c)
  {
    c as int - 48
  }

  /** Decimal digits of `n`, without leading zeros (fmt.Sprint on a non-negative int). */
  function NatToString(n: nat): (r: string)
    ensures |r| >= 1 && AllDigits(r)
    ensures |r| > 1 ==> r[0] != '0'
    decreases n
  {
    if n < 10 then [DigitChar(n)] else NatToString(n / 10) + [DigitChar(n % 10)]
  }

  /** fmt.Sprint / Python str() of an integer. */
  function IntToString(i: int): (r: string)
    ensures |r| >= 1
  {
    if i < 0 then "-" + NatToString(-i) else NatToString(i)
  }

  /** The value of a string of decimal digits. */
  function DigitsValue(s: string): nat
    requires AllDigits(s)
  {
    if s == "" then 0 else DigitsValue(s[..|s| - 1]) * 10 + DigitValue(s[|s| - 1])
  }

  lemma {:induction false} DigitsValueOfNatToString(n: nat)
    ensures DigitsValue(NatToString(n)) == n
    decreases n
  {
    var r := NatToString(n);
    if n >= 10 {
      DigitsValueOfNatToString(n / 10);
      assert r[..|r| - 1] == NatToString(n / 10);
    }
  }

  const MinInt64: int := -0x8000_0000_0000_0000
  const MaxInt64: int := 0x7FFF_FFFF_FFFF_FFFF

  datatype AtoiError = SyntaxError | RangeError

  /** Go's strconv.Atoi on a 64-bit platform: an optional sign, then one or
      more decimal digits; a value outside the int64 range is a range error. */
  function Atoi(s: string): (r: Result<int, AtoiError>)
    ensures r.Ok? ==> MinInt64 <= r.value <= MaxInt64
    ensures s == "" ==> r == Err(SyntaxError)
  {
    var signed := |s| > 0 && (s[0] == '+' || s[0] == '-');
    var digits := if signed then s[1..] else s;
    if digits == "" || !AllDigits(digits) then Err(SyntaxError)
    else
      var mag: int := DigitsValue(digits);
      var v := if signed && s[0] == '-' then -mag else mag;
      if v < MinInt64 || v > MaxInt64 then Err(RangeError) else Ok(v)
  }

  /** Formatting an int64 and parsing it back gives the same value. */
  lemma AtoiOfIntToString(i: int)
    requires MinInt64 <= i <= MaxInt64
    ensures Atoi(IntToString(i)) == Ok(i)
  {
    var s := IntToString(i);
    if i < 0 {
      DigitsValueOfNatToString(-i);
      assert s[1..] == NatToString(-i);
    } else {
      DigitsValueOfNatToString(i);
    }
  }
}
