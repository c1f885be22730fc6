/** The JavaScript string and number primitives the podcast player relies on,
    stated over Dafny strings (sequences of Unicode scalar values) and
    unbounded integers. */
module Js {
  import opened Wrappers

  // ---------------------------------------------------------------------
  // Whitespace and trimming
  // ---------------------------------------------------------------------

  /** The WhiteSpace and LineTerminator code points of ECMAScript: the set
      that `String.prototype.trim` removes and that the regular-expression
      class `\s` matches. It includes U+FEFF, the byte-order mark. */
  predicate IsWhite(c: char) {
    || c == ' ' || c == '\t' || c == '\n' || c == '\r'
    || c == '\U{000B}' || c == '\U{000C}' || c == '\U{00A0}' || c == '\U{1680}'
    || ('\U{2000}' <= c <= '\U{200A}')
    || c == '\U{2028}' || c == '\U{2029}' || c == '\U{202F}' || c == '\U{205F}'
    || c == '\U{3000}' || c == '\U{FEFF}'
  }

  /** The number of whitespace characters s starts with. */
  function LeadingWhite(s: string): (n: nat)
    ensures n <= |s|
    ensures forall i :: 0 <= i < n ==> IsWhite(s[i])
    ensures n < |s| ==> !IsWhite(s[n])
  {
    if s != [] && IsWhite(s[0]) then 1 + LeadingWhite(s[1..]) else 0
  }

  /** The number of whitespace characters s ends with. */
  function TrailingWhite(s: string): (n: nat)
    ensures n <= |s|
    ensures forall i :: |s| - n <= i < |s| ==> IsWhite(s[i])
    ensures n < |s| ==> !IsWhite(s[|s| - n - 1])
  {
    if s != [] && IsWhite(s[|s| - 1]) then 1 + TrailingWhite(s[..|s| - 1]) else 0
  }

  /** `s.trimStart()`: the suffix left after dropping leading whitespace. */
  function TrimStart(s: string): string {
    s[LeadingWhite(s)..]
  }

  /** `s.trimEnd()`: the prefix left after dropping trailing whitespace. */
  function TrimEnd(s: string): string {
    s[..|s| - TrailingWhite(s)]
  }

  /** `s.trim()`. */
  function Trim(s: string): string {
    TrimEnd(TrimStart(s))
  }

  /** A string that neither starts nor ends with whitespace is its own trim. */
  lemma TrimUnchanged(s: string)
    requires s == [] || (!IsWhite(s[0]) && !IsWhite(s[|s| - 1]))
    ensures Trim(s) == s
  {
  }

  /** The result of trim has no whitespace at either end. */
  lemma TrimShape(s: string)
    ensures Trim(s) == [] || (!IsWhite(Trim(s)[0]) && !IsWhite(Trim(s)[|Trim(s)| - 1]))
  {
  }

  /** Trimming is idempotent. */
  lemma TrimIdempotent(s: string)
    ensures Trim(Trim(s)) == Trim(s)
  {
    TrimShape(s);
    TrimUnchanged(Trim(s));
  }

  // ---------------------------------------------------------------------
  // Case, search and prefix tests
  // ---------------------------------------------------------------------

  /** ASCII lower-casing of one character. */
  function LowerChar(c: char): char {
    if 'A' <= c <= 'Z' then (c as int + 32) as char else c
  }

  /** `s.toLowerCase()` restricted to ASCII letters. */
  function Lower(s: string): (r: string)
    ensures |r| == |s|
    ensures forall i :: 0 <= i < |s| ==> r[i] == LowerChar(s[i])
  {
    if s == [] then [] else [LowerChar(s[0])] + Lower(s[1..])
  }

  /** Lower-casing twice is lower-casing once. */
  lemma LowerIdempotent(s: string)
    ensures Lower(Lower(s)) == Lower(s)
  {
    assert forall i | 0 <= i < |s| :: Lower(Lower(s))[i] == Lower(s)[i];
  }

  /** q occurs in s starting at position i. */
  predicate OccursAt(s: string, q: string, i: int) {
    0 <= i <= |s| - |q| && s[i..i + |q|] == q
  }

  /** `s.includes(q)`: q occurs somewhere in s. */
  predicate Contains(s: string, q: string) {
    exists i | 0 <= i <= |s| - |q| :: OccursAt(s, q, i)
  }

  /** `s.startsWith(p)`. */
  predicate StartsWith(s: string, p: string) {
    |p| <= |s| && s[..|p|] == p
  }

  /** A string contains each of its prefixes. */
  lemma StartsWithConcat(a: string, b: string)
    ensures StartsWith(a + b, a)
  {
    assert (a + b)[..|a|] == a;
  }

  lemma StartsWithTrans(s: string, p: string, q: string)
    requires StartsWith(s, p) && StartsWith(p, q)
    ensures StartsWith(s, q)
  {
    assert s[..|q|] == s[..|p|][..|q|];
  }

  lemma SplitAtPrefix(s: string, p: string)
    requires StartsWith(s, p)
    ensures s == p + s[|p|..]
  {
    assert s == s[..|p|] + s[|p|..];
  }

  lemma SuffixConcat(a: string, b: string)
    ensures (a + b)[|a + b| - |b|..] == b
  {
  }

  lemma PrefixAssoc(a: string, b: string, c: string, d: string)
    ensures StartsWith(a + (b + c) + d, a + b)
  {
    assert (a + (b + c) + d)[..|a + b|] == a + b;
  }

  lemma ContainsSelf(s: string)
    ensures Contains(s, s)
  {
    assert OccursAt(s, s, 0);
  }

  lemma PrefixContained(s: string, p: string)
    requires StartsWith(s, p)
    ensures Contains(s, p)
  {
    assert OccursAt(s, p, 0);
  }

  /** A string contains whatever a piece of it contains. */
  lemma ContainsInConcat(a: string, b: string, c: string, q: string)
    requires Contains(b, q)
    ensures Contains(a + b + c, q)
  {
    var i :| 0 <= i <= |b| - |q| && OccursAt(b, q, i);
    assert (a + b + c)[|a| + i..|a| + i + |q|] == b[i..i + |q|];
    assert OccursAt(a + b + c, q, |a| + i);
  }

  /** JavaScript truthiness of an optional string combined with `||`:
      `x || d` yields x when x is present and non-empty, d otherwise. */
  function Or(x: Option<string>, d: string): (r: string)
    ensures x.Some? && x.value != "" ==> r == x.value
    ensures x.None? || x.value == "" ==> r == d
  {
    if x.Some? && x.value != "" then x.value else d
  }

  // ---------------------------------------------------------------------
  // Replacement and splitting
  // ---------------------------------------------------------------------

  /** `s.replace(/pat/g, rep)` for a literal pattern: matches are found left
      to right and do not overlap; scanning resumes after each match. */
  function ReplaceAll(s: string, pat: string, rep: string): string
    requires |pat| > 0
    decreases |s|
  {
    if |s| < |pat| then s
    else if s[..|pat|] == pat then rep + ReplaceAll(s[|pat|..], pat, rep)
    else [s[0]] + ReplaceAll(s[1..], pat, rep)
  }

  /** A prefix that cannot start a match passes through unchanged. */
  lemma {:induction false} ReplaceAllSkip(a: string, r: string, pat: string, rep: string)
    requires |pat| > 0 && pat[0] !in a
    ensures ReplaceAll(a + r, pat, rep) == a + ReplaceAll(r, pat, rep)
    decreases |a|
  {
    if a != [] {
      if |a + r| < |pat| {
        assert |r| < |pat|;
      } else {
        assert (a + r)[..|pat|][0] == a[0];
        assert (a + r)[1..] == a[1..] + r;
        ReplaceAllSkip(a[1..], r, pat, rep);
        assert [a[0]] + a[1..] == a;
      }
    } else {
      assert a + r == r;
    }
  }

  /** A whole occurrence of the pattern at the front is replaced. */
  lemma ReplaceAllMatch(r: string, pat: string, rep: string)
    requires |pat| > 0
    ensures ReplaceAll(pat + r, pat, rep) == rep + ReplaceAll(r, pat, rep)
  {
    assert (pat + r)[..|pat|] == pat;
    assert (pat + r)[|pat|..] == r;
  }

  /** A token that starts like the pattern but disagrees with it at some
      position inside both passes through unchanged. */
  lemma ReplaceAllMismatch(t: string, r: string, pat: string, rep: string, i: nat)
    requires |pat| > 0 && |t| > 0 && pat[0] !in t[1..]
    requires i < |t| && i < |pat| && t[i] != pat[i]
    ensures ReplaceAll(t + r, pat, rep) == t + ReplaceAll(r, pat, rep)
  {
    var s := t + r;
    if |s| < |pat| {
      assert |r| < |pat|;
    } else {
      assert s[..|pat|] != pat by {
        assert s[..|pat|][i] == t[i];
      }
      ReplaceAllStep(s, pat, rep);
      assert s[1..] == t[1..] + r;
      ReplaceAllSkip(t[1..], r, pat, rep);
      Cons(t, ReplaceAll(r, pat, rep));
    }
  }

  /** Past a position where the pattern does not start, the first character
      is kept. */
  lemma ReplaceAllStep(s: string, pat: string, rep: string)
    requires |pat| > 0 && |s| >= |pat| && s[..|pat|] != pat
    ensures ReplaceAll(s, pat, rep) == [s[0]] + ReplaceAll(s[1..], pat, rep)
  {
  }

  lemma Cons(t: string, u: string)
    requires |t| > 0
    ensures [t[0]] + (t[1..] + u) == t + u
  {
    assert [t[0]] + t[1..] == t;
  }

  /** With a one-character pattern, replacement distributes over concatenation. */
  lemma {:induction false} ReplaceCharConcat(a: string, b: string, c: char, rep: string)
    ensures ReplaceAll(a + b, [c], rep) == ReplaceAll(a, [c], rep) + ReplaceAll(b, [c], rep)
    decreases |a|
  {
    if a == [] {
      assert a + b == b;
    } else {
      assert (a + b)[1..] == a[1..] + b;
      assert (a + b)[..1] == a[..1];
      ReplaceCharConcat(a[1..], b, c, rep);
    }
  }

  /** The number of positions at which pat occurs in s (overlaps counted). */
  function Count(s: string, pat: string): nat
    requires |pat| > 0
    decreases |s|
  {
    if |s| < |pat| then 0
    else (if s[..|pat|] == pat then 1 else 0) + Count(s[1..], pat)
  }

  /** s already disagrees with pat somewhere in their common length, so no
      continuation of s starts with pat. */
  predicate Diverges(s: string, pat: string) {
    var n := if |s| < |pat| then |s| else |pat|;
    s[..n] != pat[..n]
  }

  /** No suffix of s can start an occurrence of pat, whatever follows s. */
  predicate Inert(s: string, pat: string) {
    forall k | 0 <= k < |s| :: Diverges(s[k..], pat)
  }

  lemma DivergesAt(s: string, pat: string, i: nat)
    requires i < |s| && i < |pat| && s[i] != pat[i]
    ensures Diverges(s, pat)
  {
    var n := if |s| < |pat| then |s| else |pat|;
    assert s[..n][i] != pat[..n][i];
  }

  /** A disagreement stays one when more text follows. */
  lemma DivergesExtend(s: string, t: string, pat: string)
    requires Diverges(s, pat)
    ensures Diverges(s + t, pat)
  {
    var n := if |s| < |pat| then |s| else |pat|;
    var m := if |s + t| < |pat| then |s + t| else |pat|;
    assert (s + t)[..m][..n] == s[..n];
  }

  /** An inert string diverges at its start, and so does its tail. */
  lemma InertUncons(s: string, pat: string)
    requires |s| > 0 && Inert(s, pat)
    ensures Diverges(s, pat) && Inert(s[1..], pat)
  {
    assert s[0..] == s;
    forall k | 0 <= k < |s[1..]|
      ensures Diverges(s[1..][k..], pat)
    {
      assert s[1..][k..] == s[k + 1..];
    }
  }

  /** A string without the pattern's first character is inert. */
  lemma InertWithout(s: string, pat: string)
    requires |pat| > 0 && pat[0] !in s
    ensures Inert(s, pat)
  {
    forall k | 0 <= k < |s|
      ensures Diverges(s[k..], pat)
    {
      DivergesAt(s[k..], pat, 0);
    }
  }

  /** A token that holds the pattern's first character only at its start and
      disagrees with the pattern at position i is inert. */
  lemma InertToken(t: string, pat: string, i: nat)
    requires |t| > 0 && |pat| > 0 && pat[0] !in t[1..]
    requires i < |t| && i < |pat| && t[i] != pat[i]
    ensures Inert(t, pat)
  {
    forall k | 0 <= k < |t|
      ensures Diverges(t[k..], pat)
    {
      if k == 0 {
        assert t[0..] == t;
        DivergesAt(t, pat, i);
      } else {
        assert t[k] == t[1..][k - 1];
        DivergesAt(t[k..], pat, 0);
      }
    }
  }

  /** Inert strings stay inert when concatenated. */
  lemma InertConcat(a: string, b: string, pat: string)
    requires Inert(a, pat) && Inert(b, pat)
    ensures Inert(a + b, pat)
  {
    forall k | 0 <= k < |a + b|
      ensures Diverges((a + b)[k..], pat)
    {
      if k < |a| {
        assert (a + b)[k..] == a[k..] + b;
        DivergesExtend(a[k..], b, pat);
      } else {
        assert (a + b)[k..] == b[k - |a|..];
      }
    }
  }

  /** An inert prefix holds no occurrence and cannot start one. */
  lemma {:induction false} CountInert(a: string, r: string, pat: string)
    requires |pat| > 0 && Inert(a, pat)
    ensures Count(a + r, pat) == Count(r, pat)
    decreases |a|
  {
    if a == [] {
      assert a + r == r;
    } else {
      var s := a + r;
      InertUncons(a, pat);
      if |s| < |pat| {
        assert |r| < |pat|;
      } else {
        var n := if |a| < |pat| then |a| else |pat|;
        assert s[..|pat|][..n] == a[..n];
        assert s[1..] == a[1..] + r;
        CountInert(a[1..], r, pat);
      }
    }
  }

  /** An inert string holds no occurrence. */
  lemma CountInertAlone(a: string, pat: string)
    requires |pat| > 0 && Inert(a, pat)
    ensures Count(a, pat) == 0
  {
    CountInert(a, [], pat);
    assert a + [] == a;
  }

  /** The pattern itself, when its first character does not recur in it,
      contributes exactly one occurrence. */
  lemma CountMatch(r: string, pat: string)
    requires |pat| > 0 && pat[0] !in pat[1..]
    ensures Count(pat + r, pat) == 1 + Count(r, pat)
  {
    var s := pat + r;
    assert s[..|pat|] == pat;
    assert s[1..] == pat[1..] + r;
    InertWithout(pat[1..], pat);
    CountInert(pat[1..], r, pat);
  }

  /** `s.split(sep)` for a one-character separator: the pieces between
      separators, always at least one (the empty string splits to [""]). */
  function Split(s: string, sep: char): (r: seq<string>)
    ensures |r| >= 1
    decreases |s|
  {
    if s == [] then [""]
    else if s[0] == sep then [""] + Split(s[1..], sep)
    else
      var rest := Split(s[1..], sep);
      [[s[0]] + rest[0]] + rest[1..]
  }

  /** A string without the separator splits into itself alone. */
  lemma {:induction false} SplitNone(a: string, sep: char)
    requires sep !in a
    ensures Split(a, sep) == [a]
    decreases |a|
  {
    if a != [] {
      SplitNone(a[1..], sep);
      assert [a[0]] + a[1..] == a;
    }
  }

  /** Splitting `a + sep + b`, where a has no separator, yields a then the
      pieces of b. */
  lemma {:induction false} SplitAt(a: string, b: string, sep: char)
    requires sep !in a
    ensures Split(a + [sep] + b, sep) == [a] + Split(b, sep)
    decreases |a|
  {
    if a == [] {
      assert a + [sep] + b == [sep] + b;
      assert ([sep] + b)[1..] == b;
    } else {
      var s := a + [sep] + b;
      assert s[0] == a[0];
      assert s[1..] == a[1..] + [sep] + b;
      SplitAt(a[1..], b, sep);
      assert [a[0]] + a[1..] == a;
    }
  }

  /** `xs.findIndex(p)`: the index of the first element satisfying p. */
  function Find<T>(xs: seq<T>, p: T -> bool): (r: Option<nat>)
    ensures r.Some? ==> r.value < |xs| && p(xs[r.value]) && forall j | 0 <= j < r.value :: !p(xs[j])
    ensures r.None? ==> forall j | 0 <= j < |xs| :: !p(xs[j])
  {
    if xs == [] then None
    else if p(xs[0]) then Some(0)
    else match Find(xs[1..], p)
      case None => None
      case Some(k) => Some(k + 1)
  }

  /** `parts.filter(p => p)`: the non-empty pieces, in order. */
  function NonEmpty(parts: seq<string>): (r: seq<string>)
    ensures forall i :: 0 <= i < |r| ==> r[i] != ""
    ensures |r| <= |parts|
  {
    if parts == [] then []
    else if parts[0] == "" then NonEmpty(parts[1..])
    else [parts[0]] + NonEmpty(parts[1..])
  }

  // ---------------------------------------------------------------------
  // Numbers
  // ---------------------------------------------------------------------

  /** A JavaScript number as the player uses it: NaN, or a finite value. */
  datatype Number = NaN | Finite(value: real)

  /** `Math.trunc` on a real, as an integer: the integer nearest x on the
      side of zero, so it never moves x away from zero by a whole unit. */
  function Trunc(x: real): (r: int)
    ensures x >= 0.0 ==> 0 <= r && r as real <= x < r as real + 1.0
    ensures x < 0.0 ==> r <= 0 && r as real - 1.0 < x <= r as real
  {
    if x >= 0.0 then x.Floor else -((-x).Floor)
  }

  /** JavaScript's `%` on reals: the remainder takes the sign of the dividend. */
  function RemReal(x: real, m: real): real
    requires m > 0.0
  {
    x - m * (Trunc(x / m) as real)
  }

  /** The truncated quotient `Math.trunc(a / m)` for a positive divisor. */
  function TruncDiv(a: int, m: int): int
    requires m > 0
  {
    if a >= 0 then a / m else -((-a) / m)
  }

  /** JavaScript's `%` on integers (truncating), for a positive divisor:
      what is left of a after the truncated quotient, smaller than m in
      magnitude and of the sign of the dividend. */
  function RemInt(a: int, m: int): (r: int)
    requires m > 0
    ensures a == m * TruncDiv(a, m) + r
    ensures -m < r < m
    ensures a >= 0 ==> 0 <= r
    ensures a < 0 ==> r <= 0
  {
    if a >= 0 then a % m else -((-a) % m)
  }

  predicate IsDigit(c: char) {
    '0' <= c <= '9'
  }

  function DigitChar(d: nat): (c: char)
    requires d < 10
    ensures IsDigit(c) && c as int - '0' as int == d
  {
    ('0' as int + d) as char
  }

  /** `n.toString()` for a natural number: decimal digits, most significant first. */
  function NatToString(n: nat): (r: string)
    ensures |r| >= 1
    ensures forall i :: 0 <= i < |r| ==> IsDigit(r[i])
  {
    if n < 10 then [DigitChar(n)] else NatToString(n / 10) + [DigitChar(n % 10)]
  }

  /** `i.toString()` for an integer. */
  function IntToString(i: int): (r: string)
    ensures i >= 0 ==> r == NatToString(i)
    ensures i < 0 ==> r == "-" + NatToString(-i)
  {
    if i < 0 then "-" + NatToString(-i) else NatToString(i)
  }

  /** `s.padStart(2, '0')`. */
  function PadStart2(s: string): (r: string)
    ensures |s| >= 2 ==> r == s
    ensures |s| < 2 ==> |r| == 2 && r[2 - |s|..] == s && forall i :: 0 <= i < 2 - |s| ==> r[i] == '0'
  {
    if |s| >= 2 then s else seq(2 - |s|, _ => '0') + s
  }

  function DigitValue(c: char): nat
    requires IsDigit(c)
  {
    c as int - '0' as int
  }

  /** The value of a string of decimal digits. */
  function DecimalValue(s: string): nat
    requires forall i :: 0 <= i < |s| ==> IsDigit(s[i])
  {
    if s == [] then 0 else DecimalValue(s[..|s| - 1]) * 10 + DigitValue(s[|s| - 1])
  }

  /** Decimal rendering and decimal value are inverse. */
  lemma {:induction false} DecimalValueOfNatToString(n: nat)
    ensures DecimalValue(NatToString(n)) == n
  {
    if n >= 10 {
      var s := NatToString(n);
      assert s[..|s| - 1] == NatToString(n / 10);
      DecimalValueOfNatToString(n / 10);
    }
  }

  /** Leading zeros do not change a decimal value. */
  lemma {:induction false} DecimalValueLeadingZero(s: string)
    requires forall i :: 0 <= i < |s| ==> IsDigit(s[i])
    ensures DecimalValue("0" + s) == DecimalValue(s)
    decreases |s|
  {
    if s != [] {
      var t := "0" + s;
      assert t[..|t| - 1] == "0" + s[..|s| - 1];
      DecimalValueLeadingZero(s[..|s| - 1]);
    }
  }

  predicate IsHexDigit(c: char) {
    IsDigit(c) || 'a' <= c <= 'f' || 'A' <= c <= 'F'
  }

  function HexDigitValue(c: char): nat
    requires IsHexDigit(c)
  {
    if IsDigit(c) then c as int - '0' as int
    else if 'a' <= c <= 'f' then c as int - 'a' as int + 10
    else c as int - 'A' as int + 10
  }

  /** The longest prefix of s whose characters satisfy the radix's digits. */
  function DigitRun(s: string, hex: bool): (r: string)
    ensures |r| <= |s| && r == s[..|r|]
    ensures forall i :: 0 <= i < |r| ==> if hex then IsHexDigit(r[i]) else IsDigit(r[i])
    ensures |r| < |s| ==> !(if hex then IsHexDigit(s[|r|]) else IsDigit(s[|r|]))
  {
    if s != [] && (if hex then IsHexDigit(s[0]) else IsDigit(s[0]))
    then [s[0]] + DigitRun(s[1..], hex)
    else []
  }

  function HexValue(s: string): nat
    requires forall i :: 0 <= i < |s| ==> IsHexDigit(s[i])
  {
    if s == [] then 0 else HexValue(s[..|s| - 1]) * 16 + HexDigitValue(s[|s| - 1])
  }

  /** The magnitude part of `parseInt`: a radix-16 run after "0x"/"0X",
      a decimal run otherwise; None (NaN) when there are no digits. */
  function ParseMagnitude(s: string): Option<nat> {
    if StartsWith(s, "0x") || StartsWith(s, "0X") then
      var ds := DigitRun(s[2..], true);
      if ds == [] then None else Some(HexValue(ds))
    else
      var ds := DigitRun(s, false);
      if ds == [] then None else Some(DecimalValue(ds))
  }

  /** `parseInt(s)` with no radix: leading whitespace is skipped, one sign
      is read, a "0x" prefix selects radix 16, and the longest run of digits
      is read; None stands for NaN. */
  function ParseInt(s: string): Option<int> {
    var t := TrimStart(s);
    if t != [] && (t[0] == '-' || t[0] == '+') then
      match ParseMagnitude(t[1..])
      case None => None
      case Some(m) => var v: int := if t[0] == '-' then -(m as int) else m; Some(v)
    else
      match ParseMagnitude(t) case None => None case Some(m) => Some(m)
  }

  /** A run of decimal digits is read in full by DigitRun. */
  lemma {:induction false} DigitRunAll(s: string)
    requires forall i :: 0 <= i < |s| ==> IsDigit(s[i])
    ensures DigitRun(s, false) == s
    decreases |s|
  {
    if s != [] {
      DigitRunAll(s[1..]);
      assert [s[0]] + s[1..] == s;
    }
  }

  /** The digits of a natural number read back as that number. */
  lemma MagnitudeOfNatToString(n: nat)
    ensures ParseMagnitude(NatToString(n)) == Some(n)
  {
    var s := NatToString(n);
    assert !StartsWith(s, "0x") by {
      if |s| >= 2 { assert IsDigit(s[1]); assert s[..2][1] == s[1]; }
    }
    assert !StartsWith(s, "0X") by {
      if |s| >= 2 { assert IsDigit(s[1]); assert s[..2][1] == s[1]; }
    }
    DigitRunAll(s);
    DecimalValueOfNatToString(n);
  }

  /** `parseInt(String(n)) === n` for natural n. */
  lemma ParseIntOfNatToString(n: nat)
    ensures ParseInt(NatToString(n)) == Some(n)
  {
    var s := NatToString(n);
    assert IsDigit(s[0]) && !IsWhite(s[0]);
    assert TrimStart(s) == s;
    assert !(s[0] == '-' || s[0] == '+');
    MagnitudeOfNatToString(n);
  }

  /** `parseInt(String(i)) === i` for every integer i, negative ones included. */
  lemma ParseIntOfIntToString(i: int)
    ensures ParseInt(IntToString(i)) == Some(i)
  {
    if i >= 0 {
      ParseIntOfNatToString(i);
    } else {
      var s := IntToString(i);
      assert s[0] == '-' && !IsWhite(s[0]);
      assert TrimStart(s) == s;
      assert s[1..] == NatToString(-i);
      MagnitudeOfNatToString(-i);
    }
  }
}
