/**
 * The .NET string operations the services rely on, over `seq<char>`:
 * ordinal and case-insensitive search and replace, trimming, splitting,
 * whitespace collapsing (`Regex.Replace(s, @"\s+", " ")`) and the decimal
 * `int.ToString()` / `int.TryParse` pair.
 */
module Strings {
  import opened Wrappers

  // ---------------------------------------------------------------- search

  /** `s.StartsWith(p)`, ordinal. */
  predicate StartsWith(s: string, p: string)
  {
    |p| <= |s| && s[..|p|] == p
  }

  /** `s.Contains(p)`, ordinal. */
  predicate Contains(s: string, p: string)
    decreases |s|
  {
    StartsWith(s, p) || (|s| > 0 && Contains(s[1..], p))
  }

  lemma {:induction false} ContainsAt(s: string, p: string, i: nat)
    requires i + |p| <= |s| && s[i..i + |p|] == p
    ensures Contains(s, p)
    decreases i
  {
    if i > 0 {
      assert s[1..][i - 1..i - 1 + |p|] == s[i..i + |p|];
      ContainsAt(s[1..], p, i - 1);
    }
  }

  lemma {:induction false} ContainsWitness(s: string, p: string) returns (i: nat)
    requires Contains(s, p)
    ensures i + |p| <= |s| && s[i..i + |p|] == p
    decreases |s|
  {
    if StartsWith(s, p) {
      i := 0;
    } else {
      var j := ContainsWitness(s[1..], p);
      i := j + 1;
      assert s[1..][j..j + |p|] == s[i..i + |p|];
    }
  }

  // ----------------------------------------------------------- case folding

  /** `char.ToLowerInvariant` on ASCII and the Latin-1 upper-case letters. */
  function LowerChar(c: char): char
  {
    var n := c as int;
    if ('A' as int <= n <= 'Z' as int) || (0xC0 <= n <= 0xDE && n != 0xD7) then (n + 32) as char
    else c
  }

  /** `s.ToLowerInvariant()` / `s.ToLower()`. */
  function ToLower(s: string): string
  {
    seq(|s|, i requires 0 <= i < |s| => LowerChar(s[i]))
  }

  predicate IsLower(s: string)
  {
    forall i :: 0 <= i < |s| ==> LowerChar(s[i]) == s[i]
  }

  lemma ToLowerIsLower(s: string)
    ensures IsLower(ToLower(s))
  {
  }

  lemma LowerIsFixed(s: string)
    requires IsLower(s)
    ensures ToLower(s) == s
  {
  }

  lemma ToLowerSlice(s: string, i: nat, j: nat)
    requires i <= j <= |s|
    ensures ToLower(s)[i..j] == ToLower(s[i..j])
  {
  }

  lemma ToLowerConcat(a: string, b: string)
    ensures ToLower(a + b) == ToLower(a) + ToLower(b)
  {
  }

  /** `a.Equals(b, StringComparison.OrdinalIgnoreCase)`. */
  predicate EqualsIgnoreCase(a: string, b: string)
  {
    ToLower(a) == ToLower(b)
  }

  /** `s.StartsWith(p, ...IgnoreCase)`. */
  predicate StartsWithIgnoreCase(s: string, p: string)
  {
    |p| <= |s| && ToLower(s[..|p|]) == ToLower(p)
  }

  /** `s.Contains(p, ...IgnoreCase)`. */
  predicate ContainsIgnoreCase(s: string, p: string)
    decreases |s|
  {
    StartsWithIgnoreCase(s, p) || (|s| > 0 && ContainsIgnoreCase(s[1..], p))
  }

  // --------------------------------------------------------------- replace

  /** `s.Replace(p, r)`: every non-overlapping occurrence, scanned left to right. */
  function Replace(s: string, p: string, r: string): string
    requires |p| > 0
    decreases |s|
  {
    if |s| < |p| then s
    else if s[..|p|] == p then r + Replace(s[|p|..], p, r)
    else [s[0]] + Replace(s[1..], p, r)
  }

  /** `s.Replace(p, r, ...IgnoreCase)`. */
  function ReplaceIgnoreCase(s: string, p: string, r: string): string
    requires |p| > 0
    decreases |s|
  {
    if |s| < |p| then s
    else if StartsWithIgnoreCase(s, p) then r + ReplaceIgnoreCase(s[|p|..], p, r)
    else [s[0]] + ReplaceIgnoreCase(s[1..], p, r)
  }

  lemma {:induction false} ReplaceAbsent(s: string, p: string, r: string)
    requires |p| > 0 && !Contains(s, p)
    ensures Replace(s, p, r) == s
    decreases |s|
  {
    if |s| >= |p| {
      ReplaceAbsent(s[1..], p, r);
    }
  }

  /** A string that does not start with the pattern's first character loses only its head to the scan. */
  lemma ReplaceHead(s: string, p: string, r: string)
    requires |p| > 0 && |s| > 0 && s[0] != p[0]
    ensures Replace(s, p, r) == [s[0]] + Replace(s[1..], p, r)
  {
    if |s| >= |p| {
      assert s[..|p|][0] == s[0];
    } else {
      assert Replace(s[1..], p, r) == s[1..];
      assert [s[0]] + s[1..] == s;
    }
  }

  /** A prefix without the pattern's first character is copied unchanged. */
  lemma {:induction false} ReplaceSkipsPrefix(a: string, b: string, p: string, r: string)
    requires |p| > 0 && forall i :: 0 <= i < |a| ==> a[i] != p[0]
    ensures Replace(a + b, p, r) == a + Replace(b, p, r)
    decreases |a|
  {
    if a == [] {
      assert a + b == b;
    } else {
      var s := a + b;
      assert s[0] == a[0] && s[1..] == a[1..] + b;
      ReplaceHead(s, p, r);
      ReplaceSkipsPrefix(a[1..], b, p, r);
      assert [a[0]] + (a[1..] + Replace(b, p, r)) == a + Replace(b, p, r);
    }
  }

  /** An occurrence at the front is replaced and the scan resumes right after it. */
  lemma ReplaceAtMatch(p: string, rest: string, r: string)
    requires |p| > 0
    ensures Replace(p + rest, p, r) == r + Replace(rest, p, r)
  {
    assert (p + rest)[..|p|] == p && (p + rest)[|p|..] == rest;
  }

  lemma ReplaceWithoutFirstChar(s: string, p: string, r: string)
    requires |p| > 0 && forall i :: 0 <= i < |s| ==> s[i] != p[0]
    ensures Replace(s, p, r) == s
  {
    ReplaceSkipsPrefix(s, [], p, r);
    assert s + [] == s;
  }

  /** A single occurrence between two stretches without the pattern's first character is the only change. */
  lemma ReplaceSingleMatch(a: string, p: string, t: string, r: string)
    requires |p| > 0
    requires forall i :: 0 <= i < |a| ==> a[i] != p[0]
    requires forall i :: 0 <= i < |t| ==> t[i] != p[0]
    ensures Replace(a + (p + t), p, r) == a + (r + t)
  {
    ReplaceSkipsPrefix(a, p + t, p, r);
    ReplaceAtMatch(p, t, r);
    ReplaceWithoutFirstChar(t, p, r);
  }

  /** Removing a pattern that occurs only as the leading prefix leaves the rest. */
  lemma ReplaceLeadingPrefix(p: string, v: string)
    requires |p| > 0 && !Contains(v, p)
    ensures Replace(p + v, p, "") == v
  {
    assert (p + v)[..|p|] == p && (p + v)[|p|..] == v;
    ReplaceAbsent(v, p, "");
  }

  // ------------------------------------------------------------ whitespace

  /** `char.IsWhiteSpace`, which is also the class `\s` of .NET regular expressions. */
  predicate IsWhiteSpace(c: char)
  {
    var n := c as int;
    (9 <= n <= 13) || n == 0x20 || n == 0x85 || n == 0xA0 || n == 0x1680
    || (0x2000 <= n <= 0x200A) || n == 0x2028 || n == 0x2029 || n == 0x202F
    || n == 0x205F || n == 0x3000
  }

  function TrimStart(s: string): (r: string)
    ensures |r| <= |s| && r == s[|s| - |r|..]
    ensures r == [] || !IsWhiteSpace(r[0])
    ensures forall i :: 0 <= i < |s| - |r| ==> IsWhiteSpace(s[i])
    decreases |s|
  {
    if |s| > 0 && IsWhiteSpace(s[0]) then TrimStart(s[1..]) else s
  }

  function TrimEnd(s: string): (r: string)
    ensures |r| <= |s| && r == s[..|r|]
    ensures r == [] || !IsWhiteSpace(r[|r| - 1])
    ensures forall i :: |r| <= i < |s| ==> IsWhiteSpace(s[i])
    decreases |s|
  {
    if |s| > 0 && IsWhiteSpace(s[|s| - 1]) then TrimEnd(s[..|s| - 1]) else s
  }

  /** `s.Trim()`. */
  function Trim(s: string): string
  {
    TrimEnd(TrimStart(s))
  }

  lemma TrimEndKeepsFirst(s: string)
    requires s == [] || !IsWhiteSpace(s[0])
    ensures TrimEnd(s) == [] || !IsWhiteSpace(TrimEnd(s)[0])
  {
  }

  lemma {:induction false} TrimStartNoOp(s: string)
    requires s == [] || !IsWhiteSpace(s[0])
    ensures TrimStart(s) == s
  {
  }

  lemma {:induction false} TrimEndNoOp(s: string)
    requires s == [] || !IsWhiteSpace(s[|s| - 1])
    ensures TrimEnd(s) == s
  {
  }

  /** Trimming twice is trimming once. */
  lemma {:induction false} TrimIdempotent(s: string)
    ensures Trim(Trim(s)) == Trim(s)
  {
    var t := TrimStart(s);
    var u := TrimEnd(t);
    TrimEndKeepsFirst(t);
    TrimStartNoOp(u);
    TrimEndNoOp(u);
  }

  /** `string.IsNullOrWhiteSpace`. */
  predicate IsNullOrWhiteSpace(s: Option<string>)
  {
    s.None? || forall i :: 0 <= i < |s.value| ==> IsWhiteSpace(s.value[i])
  }

  /** `string.IsNullOrEmpty`. */
  predicate IsNullOrEmpty(s: Option<string>)
  {
    s.None? || s.value == ""
  }

  lemma {:induction false} TrimOfNonBlank(s: string)
    requires !IsNullOrWhiteSpace(Some(s))
    ensures Trim(s) != []
  {
  }

  /** `Regex.Replace(s, @"\s+", " ")`: every maximal run of whitespace becomes one space. */
  function CollapseWhitespace(s: string): string
    decreases |s|
  {
    if s == [] then []
    else if IsWhiteSpace(s[0]) then " " + CollapseWhitespace(TrimStart(s[1..]))
    else [s[0]] + CollapseWhitespace(s[1..])
  }

  /** No whitespace other than single spaces between non-whitespace characters. */
  predicate Collapsed(s: string)
  {
    forall i :: 0 <= i < |s| && IsWhiteSpace(s[i]) ==> s[i] == ' ' && (i + 1 == |s| || !IsWhiteSpace(s[i + 1]))
  }

  /** A single space before a collapsed string that starts with a non-whitespace character keeps it collapsed. */
  lemma SpaceConsCollapsed(t: string)
    requires Collapsed(t) && (t == [] || !IsWhiteSpace(t[0]))
    ensures Collapsed(" " + t)
  {
    var u := " " + t;
    forall i | 0 <= i < |u| && IsWhiteSpace(u[i])
      ensures u[i] == ' ' && (i + 1 == |u| || !IsWhiteSpace(u[i + 1]))
    {
      if i > 0 {
        assert u[i] == t[i - 1];
        if i + 1 < |u| {
          assert u[i + 1] == t[i];
        }
      }
    }
  }

  /** A non-whitespace character before a collapsed string keeps it collapsed. */
  lemma CharConsCollapsed(c: char, t: string)
    requires Collapsed(t) && !IsWhiteSpace(c)
    ensures Collapsed([c] + t)
  {
    var u := [c] + t;
    forall i | 0 <= i < |u| && IsWhiteSpace(u[i])
      ensures u[i] == ' ' && (i + 1 == |u| || !IsWhiteSpace(u[i + 1]))
    {
      assert i > 0 && u[i] == t[i - 1];
      if i + 1 < |u| {
        assert u[i + 1] == t[i];
      }
    }
  }

  lemma {:induction false} CollapseWhitespaceCollapsed(s: string)
    ensures Collapsed(CollapseWhitespace(s))
    ensures s == [] || IsWhiteSpace(s[0]) == IsWhiteSpace(CollapseWhitespace(s)[0])
    decreases |s|
  {
    if s == [] {
    } else if IsWhiteSpace(s[0]) {
      var t := TrimStart(s[1..]);
      CollapseWhitespaceCollapsed(t);
      SpaceConsCollapsed(CollapseWhitespace(t));
    } else {
      CollapseWhitespaceCollapsed(s[1..]);
      CharConsCollapsed(s[0], CollapseWhitespace(s[1..]));
    }
  }

  /** A string already in collapsed form is left as it is. */
  lemma {:induction false} CollapseWhitespaceFixed(s: string)
    requires Collapsed(s)
    ensures CollapseWhitespace(s) == s
    decreases |s|
  {
    if s != [] {
      var t := s[1..];
      assert Collapsed(t) by {
        forall i | 0 <= i < |t| && IsWhiteSpace(t[i])
          ensures t[i] == ' ' && (i + 1 == |t| || !IsWhiteSpace(t[i + 1]))
        {
          assert t[i] == s[i + 1];
        }
      }
      CollapseWhitespaceFixed(t);
      if IsWhiteSpace(s[0]) {
        TrimStartNoOp(t);
        assert " " + t == s;
      } else {
        assert [s[0]] + t == s;
      }
    }
  }

  // ---------------------------------------------------------------- split

  /** `s.Split(separators)`: the pieces between separator characters, empty pieces included. */
  function Split(s: string, separators: set<char>): (pieces: seq<string>)
    ensures |pieces| >= 1
    decreases |s|
  {
    if s == [] then [""]
    else if s[0] in separators then [""] + Split(s[1..], separators)
    else
      var rest := Split(s[1..], separators);
      [[s[0]] + rest[0]] + rest[1..]
  }

  /** `StringSplitOptions.RemoveEmptyEntries`. */
  function NonEmpty(pieces: seq<string>): (r: seq<string>)
    ensures forall i :: 0 <= i < |r| ==> r[i] != ""
    ensures |r| <= |pieces|
  {
    if pieces == [] then []
    else if pieces[0] == "" then NonEmpty(pieces[1..])
    else [pieces[0]] + NonEmpty(pieces[1..])
  }

  /** `string.Join(separator, pieces)`. */
  function Join(pieces: seq<string>, separator: char): string
  {
    if |pieces| == 0 then ""
    else if |pieces| == 1 then pieces[0]
    else pieces[0] + [separator] + Join(pieces[1..], separator)
  }

  /** The first piece of a split is everything before the first separator. */
  lemma {:induction false} SplitFirstPiece(s: string, separators: set<char>)
    ensures var p := Split(s, separators)[0];
      Free(p, separators) && StartsWith(s, p) && (|p| < |s| ==> s[|p|] in separators)
    decreases |s|
  {
    if s != [] && s[0] !in separators {
      SplitFirstPiece(s[1..], separators);
      var p := Split(s[1..], separators)[0];
      assert [s[0]] + p == s[..|p| + 1];
    }
  }

  predicate Free(s: string, separators: set<char>)
  {
    forall i :: 0 <= i < |s| ==> s[i] !in separators
  }

  lemma {:induction false} SplitFree(w: string, separators: set<char>)
    requires Free(w, separators)
    ensures Split(w, separators) == [w]
    decreases |w|
  {
    if w != [] {
      SplitFree(w[1..], separators);
      assert [w[0]] + w[1..] == w;
    }
  }

  lemma {:induction false} SplitAfterPiece(w: string, sep: char, rest: string, separators: set<char>)
    requires Free(w, separators) && sep in separators
    ensures Split(w + [sep] + rest, separators) == [w] + Split(rest, separators)
    decreases |w|
  {
    if w == [] {
      assert w + [sep] + rest == [sep] + rest;
      assert ([sep] + rest)[1..] == rest;
    } else {
      SplitAfterPiece(w[1..], sep, rest, separators);
      assert (w + [sep] + rest)[1..] == w[1..] + [sep] + rest;
      assert [w[0]] + w[1..] == w;
    }
  }

  /** Splitting a join of separator-free pieces gives the pieces back. */
  lemma {:induction false} SplitJoin(pieces: seq<string>, sep: char)
    requires |pieces| >= 1
    requires forall i :: 0 <= i < |pieces| ==> Free(pieces[i], {sep})
    ensures Split(Join(pieces, sep), {sep}) == pieces
    decreases |pieces|
  {
    if |pieces| == 1 {
      SplitFree(pieces[0], {sep});
    } else {
      SplitJoin(pieces[1..], sep);
      SplitAfterPiece(pieces[0], sep, Join(pieces[1..], sep), {sep});
      assert [pieces[0]] + pieces[1..] == pieces;
    }
  }

  // -------------------------------------------------------------- integers

  const Int32Min: int := -0x8000_0000
  const Int32Max: int := 0x7FFF_FFFF

  predicate IsInt32(n: int)
  {
    Int32Min <= n <= Int32Max
  }

  predicate IsDigit(c: char)
  {
    '0' <= c <= '9'
  }

  predicate AllDigits(d: string)
  {
    forall i :: 0 <= i < |d| ==> IsDigit(d[i])
  }

  function DigitsValue(d: string): nat
    requires AllDigits(d)
    decreases |d|
  {
    if d == [] then 0 else DigitsValue(d[..|d| - 1]) * 10 + (d[|d| - 1] as int - '0' as int)
  }

  /** The decimal digits of `n`, most significant first, without leading zeros. */
  function NatToString(n: nat): string
    decreases n
  {
    if n < 10 then [('0' as int + n) as char]
    else NatToString(n / 10) + [('0' as int + n % 10) as char]
  }

  /** `n.ToString()` with the invariant culture. */
  function IntToString(n: int): string
  {
    if n < 0 then "-" + NatToString(-n) else NatToString(n)
  }

  /** The white space `NumberStyles.Integer` allows around a number. */
  predicate IsNumberWhite(c: char)
  {
    c == ' ' || '\t' <= c <= '\r'
  }

  function StripNumberWhite(s: string): (r: string)
    ensures |r| <= |s|
    decreases |s|
  {
    if |s| > 0 && IsNumberWhite(s[0]) then StripNumberWhite(s[1..])
    else if |s| > 0 && IsNumberWhite(s[|s| - 1]) then StripNumberWhite(s[..|s| - 1])
    else s
  }

  /**
   * `int.TryParse(s, out v)`: optional surrounding white space, an optional
   * sign, at least one decimal digit, and a value in the 32-bit range.
   */
  function Int32TryParse(s: string): (r: Option<int>)
    ensures r.Some? ==> IsInt32(r.value)
  {
    var t := StripNumberWhite(s);
    var signed := |t| > 0 && (t[0] == '-' || t[0] == '+');
    var digits := if signed then t[1..] else t;
    if |digits| == 0 || !AllDigits(digits) then None
    else
      var v: int := if signed && t[0] == '-' then -(DigitsValue(digits) as int) else DigitsValue(digits);
      if IsInt32(v) then Some(v) else None
  }

  /** A bare run of digits parses to its value when that value fits in 32 bits, and fails otherwise. */
  lemma DigitsParse(d: string)
    requires AllDigits(d) && d != []
    ensures Int32TryParse(d) == if DigitsValue(d) <= Int32Max then Some(DigitsValue(d)) else None
  {
    assert IsDigit(d[0]) && IsDigit(d[|d| - 1]);
    assert StripNumberWhite(d) == d;
  }

  lemma {:induction false} NatToStringDigits(n: nat)
    ensures |NatToString(n)| >= 1
    ensures AllDigits(NatToString(n))
    ensures DigitsValue(NatToString(n)) == n
    decreases n
  {
    if n >= 10 {
      NatToStringDigits(n / 10);
      var a := NatToString(n / 10);
      var s := NatToString(n);
      assert s[..|s| - 1] == a;
    }
  }

  /** Printing an int and parsing it back gives the same int. */
  lemma {:induction false} IntToStringRoundTrip(n: int)
    requires IsInt32(n)
    ensures Int32TryParse(IntToString(n)) == Some(n)
  {
    var m: nat := if n < 0 then -n else n;
    NatToStringDigits(m);
    var s := IntToString(n);
    assert StripNumberWhite(s) == s;
    if n < 0 {
      assert s[1..] == NatToString(m);
    }
  }

  lemma IntToStringNoComma(n: int)
    ensures Free(IntToString(n), {','})
  {
    var m: nat := if n < 0 then -n else n;
    NatToStringDigits(m);
  }
}
