/** Display formatting: episode durations, playback clock times and
    download file names. */
module Format {
  import opened Wrappers
  import opened Js

  // ---------------------------------------------------------------------
  // Clock strings
  // ---------------------------------------------------------------------

  /** The template both formatters share: `h:mm:ss` when the hours field
      is positive, `m:ss` otherwise, with the minute (in h:mm:ss) and second
      fields padded to two characters. */
  function Clock(hours: int, mins: int, secs: int): string {
    if hours > 0 then IntToString(hours) + ":" + PadStart2(IntToString(mins)) + ":" + PadStart2(IntToString(secs))
    else IntToString(mins) + ":" + PadStart2(IntToString(secs))
  }

  /** The fields formatDuration computes from an integer count of seconds:
      `Math.floor(secs / 3600)`, `Math.floor((secs % 3600) / 60)` and
      `secs % 60`, with JavaScript's truncating `%`. Dafny's `/` by a
      positive divisor already rounds down. */
  function DurationClock(secs: int): string {
    Clock(secs / 3600, RemInt(secs, 3600) / 60, RemInt(secs, 60))
  }

  /** `formatDuration(duration)` for the text of an itunes:duration element. */
  function FormatDuration(d: string): (r: string)
    ensures d == "" ==> r == ""
    ensures ':' in d ==> r == d
    ensures d != "" && ':' !in d && ParseInt(d).None? ==> r == d
    ensures d != "" && ':' !in d && ParseInt(d).Some? ==> r == DurationClock(ParseInt(d).value)
  {
    if d == "" then ""
    else if ':' in d then d
    else match ParseInt(d)
      case None => d
      case Some(secs) => DurationClock(secs)
  }

  /** `formatTime(seconds)` of the full player: '0:00' for 0 and NaN, then
      the same template over `Math.floor` of the fields of a real number. */
  function FormatTime(seconds: Number): string {
    match seconds
    case NaN => "0:00"
    case Finite(x) =>
      if x == 0.0 then "0:00" else FullClock(x)
  }

  /** The full player's template over the fields of x. */
  function FullClock(x: real): string {
    Clock((x / 3600.0).Floor, (RemReal(x, 3600.0) / 60.0).Floor, RemReal(x, 60.0).Floor)
  }

  /** `formatTime(seconds)` of the basic player: minutes are never carried
      into hours. */
  function FormatTimeBasic(seconds: Number): string {
    match seconds
    case NaN => "0:00"
    case Finite(x) =>
      if x == 0.0 then "0:00"
      else BasicClock(x)
  }

  /** The basic player's `m:ss` over the whole minutes of x, uncapped. */
  function BasicClock(x: real): string {
    IntToString((x / 60.0).Floor) + ":" + PadStart2(IntToString(RemReal(x, 60.0).Floor))
  }

  // ---------------------------------------------------------------------
  // Reading a clock string back
  // ---------------------------------------------------------------------

  /** A non-empty run of decimal digits. */
  predicate Digits(p: string) {
    |p| > 0 && forall i | 0 <= i < |p| :: IsDigit(p[i])
  }

  predicate AllDigits(parts: seq<string>) {
    forall i | 0 <= i < |parts| :: Digits(parts[i])
  }

  /** The seconds the fields of a clock string denote: `m:ss` or
      `h:mm:ss`, every field a digit run; None otherwise. */
  function ClockValue(parts: seq<string>): Option<nat> {
    if !AllDigits(parts) then None
    else if |parts| == 2 then Some(DecimalValue(parts[0]) * 60 + DecimalValue(parts[1]))
    else if |parts| == 3 then Some(DecimalValue(parts[0]) * 3600 + DecimalValue(parts[1]) * 60 + DecimalValue(parts[2]))
    else None
  }

  /** The number of seconds a clock string denotes. This is the reference
      reading of the formatters' output. */
  function ParseClock(s: string): Option<nat> {
    ClockValue(Split(s, ':'))
  }

  // ---------------------------------------------------------------------
  // Properties of the clock formatters
  // ---------------------------------------------------------------------

  /** A padded two-digit field reads back as its value. */
  lemma PaddedValue(x: nat)
    requires x < 100
    ensures Digits(PadStart2(NatToString(x)))
    ensures DecimalValue(PadStart2(NatToString(x))) == x
  {
    var s := NatToString(x);
    DecimalValueOfNatToString(x);
    if |s| < 2 {
      assert PadStart2(s) == "0" + s;
      DecimalValueLeadingZero(s);
    }
  }

  /** A digit run holds no ':'. */
  lemma DigitsNoColon(p: string)
    requires forall i | 0 <= i < |p| :: IsDigit(p[i])
    ensures ':' !in p
  {
  }

  /** Two pieces joined by ':' split back into the two pieces. */
  lemma SplitTwo(a: string, b: string)
    requires Digits(a) && Digits(b)
    ensures Split(a + ":" + b, ':') == [a, b]
  {
    DigitsNoColon(a);
    DigitsNoColon(b);
    SplitAt(a, b, ':');
    SplitNone(b, ':');
  }

  /** Three pieces joined by ':' split back into the three pieces. */
  lemma SplitThree(a: string, b: string, c: string)
    requires Digits(a) && Digits(b) && Digits(c)
    ensures Split(a + ":" + b + ":" + c, ':') == [a, b, c]
  {
    DigitsNoColon(a);
    assert a + ":" + b + ":" + c == a + [':'] + (b + ":" + c);
    SplitAt(a, b + ":" + c, ':');
    SplitTwo(b, c);
  }

  /** The decimal rendering of a natural number is a digit run. */
  lemma NatDigits(n: nat)
    ensures Digits(NatToString(n))
  {
  }

  /** The `m:ss` rendering of whole seconds reads back as those seconds. */
  lemma MinutesRoundTrip(mins: nat, secs: nat, t: string, n: nat)
    requires secs < 60 && n == mins * 60 + secs
    requires t == NatToString(mins) + ":" + PadStart2(NatToString(secs))
    ensures ParseClock(t) == Some(n)
  {
    var a, b := NatToString(mins), PadStart2(NatToString(secs));
    NatDigits(mins);
    PaddedValue(secs);
    DecimalValueOfNatToString(mins);
    JoinedTwo(t, a, b, n);
  }

  /** Two digit runs joined by ':' read back as m:ss. */
  lemma JoinedTwo(t: string, a: string, b: string, n: nat)
    requires Digits(a) && Digits(b) && t == a + ":" + b
    requires n == DecimalValue(a) * 60 + DecimalValue(b)
    ensures ParseClock(t) == Some(n)
  {
    SplitTwo(a, b);
    ParseClockTwo(t, a, b, n);
  }

  /** For a natural number of seconds the fields are its hours, its
      minutes within the hour and its seconds within the minute. */
  lemma DurationFields(n: nat)
    ensures RemInt(n, 3600) / 60 == (n % 3600) / 60 < 60
    ensures RemInt(n, 60) == n % 60 == (n % 3600) % 60
    ensures n == (n / 3600) * 3600 + ((n % 3600) / 60) * 60 + n % 60
  {
    var h, r := n / 3600, n % 3600;
    assert n == h * 3600 + r;
    assert n % 60 == r % 60 by {
      assert n == (h * 60) * 60 + r;
      assert r == (r / 60) * 60 + r % 60;
      assert n == (h * 60 + r / 60) * 60 + r % 60;
    }
  }

  /** The `h:mm:ss` rendering reads back as its seconds. */
  lemma HoursRoundTrip(hours: nat, mins: nat, secs: nat, t: string, n: nat)
    requires mins < 60 && secs < 60 && n == hours * 3600 + mins * 60 + secs
    requires t == NatToString(hours) + ":" + PadStart2(NatToString(mins)) + ":" + PadStart2(NatToString(secs))
    ensures ParseClock(t) == Some(n)
  {
    var a, b, c := NatToString(hours), PadStart2(NatToString(mins)), PadStart2(NatToString(secs));
    NatDigits(hours);
    PaddedValue(mins);
    PaddedValue(secs);
    DecimalValueOfNatToString(hours);
    JoinedThree(t, a, b, c, n);
  }

  /** Three digit runs joined by ':' read back as h:mm:ss. */
  lemma JoinedThree(t: string, a: string, b: string, c: string, n: nat)
    requires Digits(a) && Digits(b) && Digits(c) && t == a + ":" + b + ":" + c
    requires n == DecimalValue(a) * 3600 + DecimalValue(b) * 60 + DecimalValue(c)
    ensures ParseClock(t) == Some(n)
  {
    SplitThree(a, b, c);
    ParseClockThree(t, a, b, c, n);
  }

  /** ParseClock on a string already known to split into three digit runs. */
  lemma ParseClockThree(s: string, a: string, b: string, c: string, n: nat)
    requires Split(s, ':') == [a, b, c] && Digits(a) && Digits(b) && Digits(c)
    requires n == DecimalValue(a) * 3600 + DecimalValue(b) * 60 + DecimalValue(c)
    ensures ParseClock(s) == Some(n)
  {
    ClockValueThree(a, b, c, n);
  }

  lemma ClockValueThree(a: string, b: string, c: string, n: nat)
    requires Digits(a) && Digits(b) && Digits(c)
    requires n == DecimalValue(a) * 3600 + DecimalValue(b) * 60 + DecimalValue(c)
    ensures ClockValue([a, b, c]) == Some(n)
  {
    assert AllDigits([a, b, c]);
  }

  /** ParseClock on a string already known to split into two digit runs. */
  lemma ParseClockTwo(s: string, a: string, b: string, n: nat)
    requires Split(s, ':') == [a, b] && Digits(a) && Digits(b)
    requires n == DecimalValue(a) * 60 + DecimalValue(b)
    ensures ParseClock(s) == Some(n)
  {
    ClockValueTwo(a, b, n);
  }

  lemma ClockValueTwo(a: string, b: string, n: nat)
    requires Digits(a) && Digits(b) && n == DecimalValue(a) * 60 + DecimalValue(b)
    ensures ClockValue([a, b]) == Some(n)
  {
    assert AllDigits([a, b]);
  }

  /** Reading a rendered duration back gives the seconds it was made from. */
  lemma DurationClockRoundTrip(n: nat)
    ensures ParseClock(DurationClock(n)) == Some(n)
  {
    var h, m, s := n / 3600, (n % 3600) / 60, n % 60;
    DurationFields(n);
    ClockRoundTrip(h, m, s, n);
  }

  /** The template over fields h, m < 60, s < 60 reads back as their seconds. */
  lemma ClockRoundTrip(h: nat, m: nat, s: nat, n: nat)
    requires m < 60 && s < 60 && n == h * 3600 + m * 60 + s
    ensures ParseClock(Clock(h, m, s)) == Some(n)
  {
    if h > 0 {
      HoursClockRoundTrip(h, m, s, n);
    } else {
      MinutesClockRoundTrip(m, s, n);
    }
  }

  lemma HoursClockRoundTrip(h: nat, m: nat, s: nat, n: nat)
    requires h > 0 && m < 60 && s < 60 && n == h * 3600 + m * 60 + s
    ensures ParseClock(Clock(h, m, s)) == Some(n)
  {
    var text := Clock(h, m, s);
    ClockText(h, m, s, text);
    HoursRoundTrip(h, m, s, text, n);
  }

  lemma MinutesClockRoundTrip(m: nat, s: nat, n: nat)
    requires m < 60 && s < 60 && n == m * 60 + s
    ensures ParseClock(Clock(0, m, s)) == Some(n)
  {
    var text := Clock(0, m, s);
    ClockText(0, m, s, text);
    MinutesRoundTrip(m, s, text, n);
  }

  /** The template's text over non-negative fields, in terms of NatToString. */
  lemma ClockText(h: nat, m: nat, s: nat, text: string)
    requires text == Clock(h, m, s)
    ensures h > 0 ==> text == NatToString(h) + ":" + PadStart2(NatToString(m)) + ":" + PadStart2(NatToString(s))
    ensures h == 0 ==> text == NatToString(m) + ":" + PadStart2(NatToString(s))
  {
    var hs, ms, ss := IntToString(h), IntToString(m), IntToString(s);
    assert hs == NatToString(h) && ms == NatToString(m) && ss == NatToString(s);
  }

  /** Every rendering contains ':', negative counts included. */
  lemma ClockHasColon(secs: int)
    ensures ':' in DurationClock(secs)
  {
    var h, m, s := secs / 3600, RemInt(secs, 3600) / 60, RemInt(secs, 60);
    if h > 0 {
      var a := IntToString(h);
      assert (a + ":" + PadStart2(IntToString(m)) + ":" + PadStart2(IntToString(s)))[|a|] == ':';
    } else {
      var a := IntToString(m);
      assert (a + ":" + PadStart2(IntToString(s)))[|a|] == ':';
    }
  }

  /** formatDuration is idempotent: its output contains ':' or is returned
      unchanged the second time as it was the first. */
  lemma FormatDurationIdempotent(d: string)
    ensures FormatDuration(FormatDuration(d)) == FormatDuration(d)
  {
    if d != "" && ':' !in d && ParseInt(d).Some? {
      ClockHasColon(ParseInt(d).value);
    }
  }

  /** A whole number of seconds written in decimal is rendered as a
      clock string that reads back as that number. */
  lemma FormatDurationRoundTrip(n: nat)
    ensures ParseClock(FormatDuration(NatToString(n))) == Some(n)
  {
    var d := NatToString(n);
    DigitsNoColon(d);
    ParseIntOfNatToString(n);
    DurationClockRoundTrip(n);
  }

  /** Flooring a non-negative real before or after dividing by k agrees,
      and so does its remainder; n is the floor of x. */
  lemma FloorDivision(x: real, n: int, k: int)
    requires x >= 0.0 && (k == 60 || k == 3600) && n == x.Floor
    ensures (x / k as real).Floor == n / k
    ensures RemReal(x, k as real) == x - (k * (n / k)) as real
    ensures RemReal(x, k as real).Floor == n % k
  {
    FloorSplit(x, n, k, n / k, n % k);
  }

  /** FloorDivision with the quotient q and remainder r of n by k named. */
  lemma FloorSplit(x: real, n: int, k: int, q: int, r: int)
    requires x >= 0.0 && k > 0 && n == x.Floor && n == k * q + r && 0 <= r < k
    ensures (x / k as real).Floor == q
    ensures RemReal(x, k as real) == x - (k * q) as real
    ensures RemReal(x, k as real).Floor == r
  {
    var kr, qr, rr := k as real, q as real, r as real;
    CastProduct(k, q);
    ScaledBounds(x, n as real, kr, qr, rr);
    QuotientBounds(x, kr, qr);
    RemainderOf(x, kr, q, r);
  }

  /** The integer product k * q read as a real. */
  lemma CastProduct(k: int, q: int)
    ensures (k * q) as real == (k as real) * (q as real)
  {
  }

  /** n = kr * q + r with 0 <= r < kr and n <= x < n + 1 place x in the
      q-th interval of width kr, at offset between r and r + 1. */
  lemma ScaledBounds(x: real, nr: real, kr: real, qr: real, rr: real)
    requires nr <= x < nr + 1.0 && nr == kr * qr + rr && 0.0 <= rr && rr + 1.0 <= kr
    ensures kr * qr <= x < kr * qr + kr
    ensures rr <= x - kr * qr < rr + 1.0
  {
  }

  /** The JavaScript remainder of x by kr once the quotient's floor is q. */
  lemma RemainderOf(x: real, kr: real, q: int, r: int)
    requires x >= 0.0 && kr > 0.0 && (q as real) <= x / kr < (q as real) + 1.0
    requires (r as real) <= x - kr * (q as real) < (r as real) + 1.0
    ensures (x / kr).Floor == q
    ensures RemReal(x, kr) == x - kr * (q as real)
    ensures RemReal(x, kr).Floor == r
  {
    assert Trunc(x / kr) == q;
  }

  /** Dividing bounds kr * q <= x < kr * (q + 1) by the positive kr. */
  lemma QuotientBounds(x: real, kr: real, qr: real)
    requires kr > 0.0 && kr * qr <= x < kr * qr + kr
    ensures qr <= x / kr < qr + 1.0
  {
    var y := x / kr;
    assert x == kr * y;
    if y < qr {
      ScaleStrict(kr, y, qr);
    }
    if y >= qr + 1.0 {
      ScaleWeak(kr, qr + 1.0, y);
    }
  }

  lemma ScaleStrict(kr: real, a: real, b: real)
    requires kr > 0.0 && a < b
    ensures kr * a < kr * b
  {
  }

  lemma ScaleWeak(kr: real, a: real, b: real)
    requires kr > 0.0 && a <= b
    ensures kr * a <= kr * b
  {
  }

  /** On non-negative times formatTime renders the whole seconds exactly
      as formatDuration renders a seconds count. */
  lemma FormatTimeWholeSeconds(x: real)
    requires x >= 0.0
    ensures FormatTime(Finite(x)) == DurationClock(x.Floor)
  {
    var n := x.Floor;
    if x == 0.0 {
      ZeroClock();
    } else {
      var h, m, s := n / 3600, (n % 3600) / 60, n % 60;
      assert (x / 3600.0).Floor == h && (RemReal(x, 3600.0) / 60.0).Floor == m by {
        FloorDivision(x, n, 3600);
        FloorDivision(RemReal(x, 3600.0), n % 3600, 60);
      }
      assert RemReal(x, 60.0).Floor == s by {
        FloorDivision(x, n, 60);
      }
      FullText(x, h, m, s);
      DurationFields(n);
      DurationText(n, h, m, s);
    }
  }

  /** formatTime of a positive x is the template over its three fields. */
  lemma FullText(x: real, h: int, m: int, s: int)
    requires x > 0.0 && (x / 3600.0).Floor == h
    requires (RemReal(x, 3600.0) / 60.0).Floor == m && RemReal(x, 60.0).Floor == s
    ensures FormatTime(Finite(x)) == Clock(h, m, s)
  {
    assert FormatTime(Finite(x)) == FullClock(x);
  }

  /** formatDuration's text for n is the template over its three fields. */
  lemma DurationText(n: int, h: int, m: int, s: int)
    requires h == n / 3600 && m == RemInt(n, 3600) / 60 && s == RemInt(n, 60)
    ensures DurationClock(n) == Clock(h, m, s)
  {
  }

  /** Zero seconds render as '0:00' through the template too. */
  lemma ZeroClock()
    ensures NatToString(0) + ":" + PadStart2(NatToString(0)) == "0:00"
    ensures DurationClock(0) == "0:00"
  {
    assert NatToString(0) == "0";
    assert PadStart2("0") == "00";
  }

  /** Reading formatTime's output back gives the whole seconds. */
  lemma FormatTimeRoundTrip(x: real)
    requires x >= 0.0
    ensures ParseClock(FormatTime(Finite(x))) == Some(x.Floor)
  {
    FormatTimeWholeSeconds(x);
    DurationClockRoundTrip(x.Floor);
  }

  /** On non-negative times the basic formatTime renders the whole minutes,
      unbounded, and the seconds within the minute... */
  lemma FormatTimeBasicMinutes(x: real)
    requires x >= 0.0
    ensures FormatTimeBasic(Finite(x)) == NatToString(x.Floor / 60) + ":" + PadStart2(NatToString(x.Floor % 60))
  {
    var n := x.Floor;
    if x == 0.0 {
      ZeroClock();
    } else {
      FloorDivision(x, n, 60);
      BasicText(x, n / 60, n % 60);
    }
  }

  /** The basic rendering of a positive x in terms of its two fields. */
  lemma BasicText(x: real, q: nat, r: nat)
    requires x > 0.0 && (x / 60.0).Floor == q && RemReal(x, 60.0).Floor == r
    ensures FormatTimeBasic(Finite(x)) == NatToString(q) + ":" + PadStart2(NatToString(r))
  {
    assert FormatTimeBasic(Finite(x)) == BasicClock(x);
  }

  /** ...and that rendering reads back as the whole seconds. */
  lemma FormatTimeBasicRoundTrip(x: real)
    requires x >= 0.0
    ensures ParseClock(FormatTimeBasic(Finite(x))) == Some(x.Floor)
  {
    FormatTimeBasicMinutes(x);
    MinutesRoundTrip(x.Floor / 60, x.Floor % 60, FormatTimeBasic(Finite(x)), x.Floor);
  }

  /** An hour of playback is shown with an hours field by the full player... */
  lemma OneHourFull()
    ensures FormatTime(Finite(3600.0)) == "1:00:00"
  {
    FormatTimeWholeSeconds(3600.0);
    assert 3600.0.Floor == 3600;
    HourClock();
  }

  lemma HourClock()
    ensures DurationClock(3600) == "1:00:00"
  {
    assert RemInt(3600, 3600) / 60 == 0 && RemInt(3600, 60) == 0;
    assert IntToString(1) == "1";
    assert PadStart2(IntToString(0)) == "00";
  }

  /** ...while the basic player keeps counting minutes: sixty of them. */
  lemma OneHourBasic()
    ensures FormatTimeBasic(Finite(3600.0)) == NatToString(60) + ":" + "00"
  {
    FormatTimeBasicMinutes(3600.0);
    var n := 3600.0.Floor;
    assert n == 3600;
    assert PadStart2(NatToString(n % 60)) == "00";
  }

  // ---------------------------------------------------------------------
  // File names
  // ---------------------------------------------------------------------

  predicate IsAsciiAlnum(c: char) {
    'a' <= c <= 'z' || 'A' <= c <= 'Z' || '0' <= c <= '9'
  }

  /** The characters a sanitized file name is made of: `[a-z0-9_]`. */
  predicate IsFilenameChar(c: char) {
    'a' <= c <= 'z' || '0' <= c <= '9' || c == '_'
  }

  /** `.replace(/[^a-z0-9 ]/gi, '_')`: every character other than an ASCII
      letter, a digit or a space becomes '_'. */
  function ReplaceOthers(s: string): (r: string)
    ensures |r| == |s|
    ensures forall i | 0 <= i < |s| :: r[i] == if IsAsciiAlnum(s[i]) || s[i] == ' ' then s[i] else '_'
  {
    if s == [] then [] else [if IsAsciiAlnum(s[0]) || s[0] == ' ' then s[0] else '_'] + ReplaceOthers(s[1..])
  }

  /** `.replace(/\s+/g, '_')`: every maximal run of whitespace becomes one '_'. */
  function CollapseWhite(s: string): (r: string)
    ensures |r| <= |s|
    ensures forall i | 0 <= i < |r| :: !IsWhite(r[i])
    ensures forall i | 0 <= i < |r| :: r[i] == '_' || r[i] in s
    decreases |s|
  {
    if s == [] then []
    else if IsWhite(s[0]) then "_" + CollapseWhite(s[LeadingWhite(s)..])
    else [s[0]] + CollapseWhite(s[1..])
  }

  /** `sanitizeFilename(filename)`. */
  function SanitizeFilename(s: string): string {
    Lower(CollapseWhite(ReplaceOthers(s)))
  }

  /** A sanitized name uses only `[a-z0-9_]` and is never longer than the input. */
  lemma SanitizeCharset(s: string)
    ensures |SanitizeFilename(s)| <= |s|
    ensures forall i | 0 <= i < |SanitizeFilename(s)| :: IsFilenameChar(SanitizeFilename(s)[i])
  {
    var a := ReplaceOthers(s);
    var b := CollapseWhite(a);
    forall i | 0 <= i < |b|
      ensures IsFilenameChar(LowerChar(b[i]))
    {
      if b[i] != '_' {
        var j :| 0 <= j < |a| && a[j] == b[i];
        assert a[j] != ' ';
      }
    }
  }

  /** Each pass leaves a name made of `[a-z0-9_]` as it is. */
  lemma ReplaceOthersKeeps(s: string)
    requires forall i | 0 <= i < |s| :: IsFilenameChar(s[i])
    ensures ReplaceOthers(s) == s
  {
  }

  lemma {:induction false} CollapseWhiteKeeps(s: string)
    requires forall i | 0 <= i < |s| :: !IsWhite(s[i])
    ensures CollapseWhite(s) == s
    decreases |s|
  {
    if s != [] {
      CollapseWhiteKeeps(s[1..]);
      assert [s[0]] + s[1..] == s;
    }
  }

  lemma LowerKeeps(s: string)
    requires forall i | 0 <= i < |s| :: IsFilenameChar(s[i])
    ensures Lower(s) == s
  {
  }

  /** Sanitizing a sanitized name changes nothing. */
  lemma SanitizeIdempotent(s: string)
    ensures SanitizeFilename(SanitizeFilename(s)) == SanitizeFilename(s)
  {
    var r := SanitizeFilename(s);
    SanitizeCharset(s);
    ReplaceOthersKeeps(r);
    CollapseWhiteKeeps(r);
    LowerKeeps(r);
  }
}
