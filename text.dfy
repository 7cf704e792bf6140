/**
  JavaScript string primitives used by the rest of the model.

  A JavaScript string is a sequence of UTF-16 code units, and `length`
  counts code units, so a string here is a `seq<CodeUnit>`. `Lit` turns a
  Dafny literal (only characters of the Basic Multilingual Plane are used)
  into code units.
*/
module Text {

  import opened Wrappers

  newtype CodeUnit = x: int | 0 <= x < 0x1_0000

  type Str = seq<CodeUnit>

  /** The code unit of a Basic Multilingual Plane character. */
  function Unit(c: char): CodeUnit {
    if c as int < 0x1_0000 then c as int as CodeUnit else 0xFFFD
  }

  /** A literal written as a Dafny string, as code units. */
  function Lit(s: string): (r: Str)
    ensures |r| == |s|
  {
    seq(|s|, k requires 0 <= k < |s| => Unit(s[k]))
  }

  /** A literal that lacks a character lacks its code unit. */
  lemma LitLacks(s: string, c: char)
    requires c !in s && (c as int) < 0xFFFD
    ensures Unit(c) !in Lit(s)
  {
    forall k | 0 <= k < |s| ensures Lit(s)[k] != Unit(c) {
      assert s[k] != c;
    }
  }

  const NL: CodeUnit := 0x0A

  /**
    ECMAScript WhiteSpace and LineTerminator code units: exactly what
    `String.prototype.trim` removes and what the regular-expression class
    `\s` matches.
  */
  predicate IsWs(c: CodeUnit) {
    c == 0x09 || c == 0x0A || c == 0x0B || c == 0x0C || c == 0x0D || c == 0x20
    || c == 0xA0 || c == 0x1680 || (0x2000 <= c <= 0x200A) || c == 0x2028
    || c == 0x2029 || c == 0x202F || c == 0x205F || c == 0x3000 || c == 0xFEFF
  }

  /** The regular-expression class `\d`: ASCII digits only. */
  predicate IsDigit(c: CodeUnit) {
    0x30 <= c <= 0x39
  }

  /** The regular-expression class `\w`. */
  predicate IsWordChar(c: CodeUnit) {
    IsDigit(c) || (0x41 <= c <= 0x5A) || (0x61 <= c <= 0x7A) || c == 0x5F
  }

  /** `String.prototype.trimStart`: the longest suffix that does not start with white space. */
  function TrimStart(s: Str): (r: Str)
    ensures |r| <= |s|
  {
    if s == [] || !IsWs(s[0]) then s else TrimStart(s[1..])
  }

  /** The longest suffix that does not start with a digit. */
  function DropDigits(s: Str): (r: Str)
    ensures |r| <= |s|
  {
    if s == [] || !IsDigit(s[0]) then s else DropDigits(s[1..])
  }

  /** The longest suffix that does not start with a word character. */
  function DropWordChars(s: Str): (r: Str)
    ensures |r| <= |s|
  {
    if s == [] || !IsWordChar(s[0]) then s else DropWordChars(s[1..])
  }

  /** `String.prototype.trimEnd`: the longest prefix that does not end with white space. */
  function TrimEnd(s: Str): (r: Str)
    ensures |r| <= |s|
  {
    if s == [] || !IsWs(s[|s| - 1]) then s else TrimEnd(s[..|s| - 1])
  }

  /** `trimStart` removes exactly the leading white space. */
  lemma {:induction false} TrimStartShape(s: Str)
    ensures var r := TrimStart(s);
      && r == s[|s| - |r|..]
      && (r == [] || !IsWs(r[0]))
      && (forall k :: 0 <= k < |s| - |r| ==> IsWs(s[k]))
    decreases |s|
  {
    if s != [] && IsWs(s[0]) {
      TrimStartShape(s[1..]);
    }
  }

  /** The digit run that `DropDigits` removes is exactly the leading digits. */
  lemma {:induction false} DropDigitsShape(s: Str)
    ensures var r := DropDigits(s);
      && r == s[|s| - |r|..]
      && (r == [] || !IsDigit(r[0]))
      && (forall k :: 0 <= k < |s| - |r| ==> IsDigit(s[k]))
    decreases |s|
  {
    if s != [] && IsDigit(s[0]) {
      DropDigitsShape(s[1..]);
    }
  }

  /** The run that `DropWordChars` removes is exactly the leading word characters. */
  lemma {:induction false} DropWordCharsShape(s: Str)
    ensures var r := DropWordChars(s);
      && r == s[|s| - |r|..]
      && (r == [] || !IsWordChar(r[0]))
      && (forall k :: 0 <= k < |s| - |r| ==> IsWordChar(s[k]))
    decreases |s|
  {
    if s != [] && IsWordChar(s[0]) {
      DropWordCharsShape(s[1..]);
    }
  }

  /** `trimEnd` removes exactly the trailing white space. */
  lemma {:induction false} TrimEndShape(s: Str)
    ensures var r := TrimEnd(s);
      && r == s[..|r|]
      && (r == [] || !IsWs(r[|r| - 1]))
      && (forall k :: |r| <= k < |s| ==> IsWs(s[k]))
    decreases |s|
  {
    if s != [] && IsWs(s[|s| - 1]) {
      TrimEndShape(s[..|s| - 1]);
    }
  }

  /** `String.prototype.trim`. */
  function Trim(s: Str): Str {
    TrimEnd(TrimStart(s))
  }

  predicate AllWs(s: Str) {
    forall k :: 0 <= k < |s| ==> IsWs(s[k])
  }

  /** How many white-space units `trim` removes at the front. */
  function TrimmedLead(s: Str): nat {
    |s| - |TrimStart(s)|
  }

  /**
    What `trim` promises: the result is the part of the input between the
    leading and the trailing white space, and it neither starts nor ends
    with white space.
  */
  lemma TrimSpec(s: Str)
    ensures var t, a := Trim(s), TrimmedLead(s);
      && a + |t| <= |s| && t == s[a..a + |t|]
      && (forall k :: 0 <= k < a ==> IsWs(s[k]))
      && (forall k :: a + |t| <= k < |s| ==> IsWs(s[k]))
      && (t == [] || (!IsWs(t[0]) && !IsWs(t[|t| - 1])))
  {
    TrimSlice(s);
    TrimTrailing(s);
    TrimEdges(s);
    TrimStartShape(s);
  }

  /** The trimmed text is the slice of the input after the leading white space. */
  lemma TrimSlice(s: Str)
    ensures TrimmedLead(s) + |Trim(s)| <= |s| && Trim(s) == s[TrimmedLead(s)..TrimmedLead(s) + |Trim(s)|]
  {
    var u := TrimStart(s);
    TrimStartShape(s);
    var a := |s| - |u|;
    var t := TrimEnd(u);
    TrimEndShape(u);
    calc {
      t;
      u[..|t|];
      s[a..][..|t|];
      s[a..a + |t|];
    }
  }

  /** What follows the trimmed text is white space. */
  lemma TrimTrailing(s: Str)
    ensures forall k :: TrimmedLead(s) + |Trim(s)| <= k < |s| ==> IsWs(s[k])
  {
    var u := TrimStart(s);
    TrimStartShape(s);
    TrimEndShape(u);
    SuffixRun(s, u, |TrimEnd(u)|, IsWs);
  }

  /** A run at the end of a suffix of `s` is a run at the end of `s`. */
  lemma SuffixRun(s: Str, u: Str, n: nat, p: CodeUnit -> bool)
    requires |u| <= |s| && u == s[|s| - |u|..] && n <= |u|
    requires forall k :: n <= k < |u| ==> p(u[k])
    ensures forall k :: |s| - |u| + n <= k < |s| ==> p(s[k])
  {
    forall k | |s| - |u| + n <= k < |s| ensures p(s[k]) {
      assert u[k - (|s| - |u|)] == s[k];
    }
  }

  /** The trimmed text neither starts nor ends with white space. */
  lemma TrimEdges(s: Str)
    ensures Trim(s) == [] || (!IsWs(Trim(s)[0]) && !IsWs(Trim(s)[|Trim(s)| - 1]))
  {
    var u := TrimStart(s);
    TrimStartShape(s);
    var t := TrimEnd(u);
    TrimEndShape(u);
    if t != [] {
      assert t[0] == u[0];
    }
  }

  lemma {:induction false} TrimStartAllWs(s: Str)
    requires AllWs(s)
    ensures TrimStart(s) == []
    decreases |s|
  {
    if s != [] {
      TrimStartAllWs(s[1..]);
    }
  }

  /** A line trims to nothing exactly when it is all white space. */
  lemma TrimEmptyIffAllWs(s: Str)
    ensures Trim(s) == [] <==> AllWs(s)
  {
    var u := TrimStart(s);
    TrimStartShape(s);
    TrimEndShape(u);
    if Trim(s) == [] {
      assert u == [];
    }
    if AllWs(s) {
      TrimStartAllWs(s);
    }
  }

  /** Trimming twice is trimming once. */
  lemma TrimIdempotent(s: Str)
    ensures Trim(Trim(s)) == Trim(s)
  {
    var t := Trim(s);
    TrimSpec(s);
    if t != [] {
      assert !IsWs(t[0]) && TrimStart(t) == t;
      assert TrimEnd(t) == t;
    }
  }

  predicate StartsWith(s: Str, prefix: Str) {
    |prefix| <= |s| && s[..|prefix|] == prefix
  }

  /** Whether `needle` occurs at position `k` of `s`. */
  predicate OccursAt(s: Str, needle: Str, k: int) {
    0 <= k && k + |needle| <= |s| && s[k..k + |needle|] == needle
  }

  /** `String.prototype.includes`. */
  predicate Contains(s: Str, needle: Str) {
    exists k :: 0 <= k <= |s| - |needle| && OccursAt(s, needle, k)
  }

  /** A string that lacks one of the needle's units cannot contain the needle. */
  lemma {:induction false} AbsentUnitExcludes(s: Str, needle: Str, i: nat)
    requires i < |needle| && needle[i] !in s
    ensures !Contains(s, needle)
  {
    forall k | 0 <= k <= |s| - |needle| ensures !OccursAt(s, needle, k) {
      assert s[k + i] in s;
      assert s[k..k + |needle|][i] != needle[i];
    }
  }

  /** A one-unit needle occurs exactly where the unit does. */
  lemma UnitContains(s: Str, c: CodeUnit)
    ensures Contains(s, [c]) <==> c in s
  {
    if c in s {
      var k :| 0 <= k < |s| && s[k] == c;
      assert OccursAt(s, [c], k);
    }
    if Contains(s, [c]) {
      var k :| 0 <= k <= |s| - 1 && OccursAt(s, [c], k);
      assert s[k..k + 1][0] == s[k];
    }
  }

  /** The position of the leftmost occurrence of a non-empty `sep` in `s`. */
  function FirstIndex(s: Str, sep: Str): (r: Option<nat>)
    requires sep != []
    ensures r.Some? ==> OccursAt(s, sep, r.value)
    ensures r.Some? ==> forall k :: 0 <= k < r.value ==> !OccursAt(s, sep, k)
    ensures r.None? ==> !Contains(s, sep)
    decreases |s|
  {
    if |s| < |sep| then None
    else if s[..|sep|] == sep then Some(0)
    else
      assert !OccursAt(s, sep, 0);
      assert forall k :: 1 <= k <= |s| - |sep| ==> (OccursAt(s, sep, k) <==> OccursAt(s[1..], sep, k - 1));
      match FirstIndex(s[1..], sep)
      case None => None
      case Some(j) =>
        Some(j + 1)
  }

  /** The first occurrence is determined by its two defining properties. */
  lemma FirstIndexAt(s: Str, sep: Str, m: nat)
    requires sep != [] && OccursAt(s, sep, m)
    requires forall k :: 0 <= k < m ==> !OccursAt(s, sep, k)
    ensures FirstIndex(s, sep) == Some(m)
  {
  }

  /**
    `s.split(sep)` for a non-empty string separator: the pieces between the
    successive leftmost non-overlapping occurrences of `sep`.
  */
  function Split(s: Str, sep: Str): (pieces: seq<Str>)
    requires sep != []
    ensures |pieces| >= 1
    decreases |s|
  {
    match FirstIndex(s, sep)
    case None => [s]
    case Some(k) => [s[..k]] + Split(s[k + |sep|..], sep)
  }

  /** No piece of a split contains the separator. */
  lemma {:induction false} SplitPiecesLackSeparator(s: Str, sep: Str)
    requires sep != []
    ensures forall p :: p in Split(s, sep) ==> !Contains(p, sep)
    decreases |s|
  {
    match FirstIndex(s, sep)
    case None =>
    case Some(k) =>
      SplitPiecesLackSeparator(s[k + |sep|..], sep);
      forall j | 0 <= j <= k - |sep| ensures !OccursAt(s[..k], sep, j) {
        assert !OccursAt(s, sep, j);
        if j + |sep| <= k {
          assert s[..k][j..j + |sep|] == s[j..j + |sep|];
        }
      }
  }

  /** `pieces.join(sep)`. */
  function Join(pieces: seq<Str>, sep: Str): Str {
    if pieces == [] then []
    else if |pieces| == 1 then pieces[0]
    else pieces[0] + sep + Join(pieces[1..], sep)
  }

  /** Joining the pieces of a split gives back the original string. */
  lemma {:induction false} JoinSplit(s: Str, sep: Str)
    requires sep != []
    ensures Join(Split(s, sep), sep) == s
    decreases |s|
  {
    match FirstIndex(s, sep)
    case None =>
    case Some(k) =>
      var rest := s[k + |sep|..];
      var tail := Split(rest, sep);
      assert Split(s, sep) == [s[..k]] + tail;
      JoinSplit(rest, sep);
      assert Join([s[..k]] + tail, sep) == s[..k] + sep + Join(tail, sep) by {
        assert ([s[..k]] + tail)[1..] == tail;
      }
      assert s == s[..k] + s[k..k + |sep|] + rest;
  }

  /** No proper suffix of `sep` is also a prefix of it. */
  predicate BorderFree(sep: Str) {
    forall j :: 0 < j < |sep| ==> sep[j..] != sep[..|sep| - j]
  }

  /** With a border-free separator, an occurrence cannot straddle a piece and the separator after it. */
  lemma {:induction false} FirstIndexOfJoined(p: Str, sep: Str, rest: Str)
    requires sep != [] && BorderFree(sep) && !Contains(p, sep)
    ensures FirstIndex(p + sep + rest, sep) == Some(|p|)
  {
    var s := p + sep + rest;
    assert OccursAt(s, sep, |p|) by { assert s[|p|..|p| + |sep|] == sep; }
    forall k | 0 <= k < |p| ensures !OccursAt(s, sep, k) {
      if k + |sep| <= |p| {
        assert s[k..k + |sep|] == p[k..k + |sep|];
        assert !OccursAt(p, sep, k);
      } else {
        var j := |p| - k;
        assert sep[j..] != sep[..|sep| - j];
        var t :| 0 <= t < |sep| - j && sep[j..][t] != sep[..|sep| - j][t];
        assert s[|p| + t] == sep[t];
        assert s[k..k + |sep|][j + t] != sep[j + t];
      }
    }
    FirstIndexAt(s, sep, |p|);
  }

  /** The first piece of a split is what precedes the first separator. */
  lemma SplitHead(p: Str, sep: Str, rest: Str)
    requires sep != [] && BorderFree(sep) && !Contains(p, sep)
    ensures Split(p + sep + rest, sep)[0] == p
  {
    FirstIndexOfJoined(p, sep, rest);
    assert (p + sep + rest)[..|p|] == p;
  }

  /** The first piece of `p + q` is `p` when `q` starts with the separator. */
  lemma SplitBefore(p: Str, sep: Str, q: Str)
    requires sep != [] && BorderFree(sep) && !Contains(p, sep)
    requires |sep| <= |q| && q[..|sep|] == sep
    ensures Split(p + q, sep)[0] == p
  {
    var rest := q[|sep|..];
    assert q == sep + rest;
    assert p + q == p + sep + rest;
    SplitHead(p, sep, rest);
  }

  /**
    Splitting a join gives back the pieces, provided no piece contains the
    separator and the separator cannot overlap itself.
  */
  lemma {:induction false} SplitJoin(pieces: seq<Str>, sep: Str)
    requires sep != [] && BorderFree(sep) && |pieces| >= 1
    requires forall p :: p in pieces ==> !Contains(p, sep)
    ensures Split(Join(pieces, sep), sep) == pieces
    decreases |pieces|
  {
    if |pieces| == 1 {
      assert FirstIndex(pieces[0], sep).None?;
    } else {
      var p, rest := pieces[0], Join(pieces[1..], sep);
      FirstIndexOfJoined(p, sep, rest);
      var s := p + sep + rest;
      assert s[..|p|] == p;
      assert s[|p| + |sep|..] == rest;
      SplitJoin(pieces[1..], sep);
    }
  }

  /** A single code unit is a border-free separator. */
  lemma SingleUnitBorderFree(c: CodeUnit)
    ensures BorderFree([c])
  {
  }

  /** JavaScript's `String(n)` for an integer `n`. */
  function Decimal(n: int): (r: Str)
    ensures r != []
    decreases if n < 0 then -n + 1 else n
  {
    if n < 0 then Lit("-") + Decimal(-n)
    else if n < 10 then [(0x30 + n) as CodeUnit]
    else Decimal(n / 10) + [(0x30 + n % 10) as CodeUnit]
  }
}
