/** The part of Go's time package the runner relies on: time.ParseDuration and Duration.String,
    as a stated specification over integer nanoseconds, and how the recommender reads what they write.
    Go scales the digits after a decimal point in floating point; here that product is exact. */
module GoDurations {
  import opened Text
  import opened Numerals
  import opened Durations

  const MAX_DURATION: int := 0x7fff_ffff_ffff_ffff

  // ---------- time.ParseDuration ----------

  datatype Span = Nanos | Micros | Millis | Seconds | Minutes | Hours

  function SpanOf(s: string): Option<Span> {
    if s == "ns" then Some(Nanos)
    else if s == "us" || s == "\U{b5}s" || s == "\U{3bc}s" then Some(Micros)
    else if s == "ms" then Some(Millis)
    else if s == "s" then Some(Seconds)
    else if s == "m" then Some(Minutes)
    else if s == "h" then Some(Hours)
    else None
  }

  /** A whole number of units in nanoseconds. */
  function WholeNanos(n: int, u: Span): (ns: int)
    ensures n == 0 ==> ns == 0
  {
    match u
    case Nanos => n
    case Micros => n * 1_000
    case Millis => n * 1_000_000
    case Seconds => n * 1_000_000_000
    case Minutes => n * 60_000_000_000
    case Hours => n * 3_600_000_000_000
  }

  /** A fraction of a unit, cut to a whole nanosecond. */
  function FractionNanos(x: real, u: Span): (ns: int)
    ensures x == 0.0 ==> ns == 0
  {
    match u
    case Nanos => x.Floor
    case Micros => (x * 1_000.0).Floor
    case Millis => (x * 1_000_000.0).Floor
    case Seconds => (x * 1_000_000_000.0).Floor
    case Minutes => (x * 60_000_000_000.0).Floor
    case Hours => (x * 3_600_000_000_000.0).Floor
  }

  /** Where the unit that starts at a position ends: before the next digit or dot. */
  function SpanEnd(s: string, from: nat): (end: nat)
    requires from <= |s|
    ensures from <= end <= |s|
    decreases |s| - from
  {
    if from < |s| && s[from] != '.' && !IsDigit(s[from]) then SpanEnd(s, from + 1) else from
  }

  function PairNanos(whole: string, fraction: string, u: Span): int {
    WholeNanos(Whole(whole), u) + FractionNanos(Fraction(fraction), u)
  }

  /** The sum of the number-unit pairs from a position to the end. */
  function Pairs(s: string, i: nat): (r: Option<int>)
    requires i <= |s|
    decreases |s| - i
  {
    if i == |s| then Some(0)
    else
      var a := RunEnd(s, i);
      var f := if a < |s| && s[a] == '.' then a + 1 else a;
      var b := if f == a then a else RunEnd(s, f);
      var end := SpanEnd(s, b);
      if (a == i && b == f) || end == b then None
      else
        match SpanOf(s[b..end])
        case None => None
        case Some(u) =>
          match Pairs(s, end)
          case None => None
          case Some(rest) =>
            Some(PairNanos(s[i..a], s[f..b], u) + rest)
  }

  function ParseDuration(s: string): (r: Option<int>) {
    var negative := s != "" && s[0] == '-';
    var t := if s != "" && (s[0] == '-' || s[0] == '+') then s[1..] else s;
    if t == "0" then Some(0)
    else if t == "" then None
    else
      match Pairs(t, 0)
      case None => None
      case Some(total) =>
        if negative then (if total <= MAX_DURATION + 1 then Some(-total) else None)
        else if total <= MAX_DURATION then Some(total) else None
  }

  /** parseDurationFlag. */
  function ParseDurationFlag(raw: string): (r: Option<int>)
    ensures r.Some? ==> r.value >= 0
  {
    var value := Trim(Lower(raw), GoSpace);
    if value == "" || value == "0" || value == "off" || value == "none" || value == "disabled" then Some(0)
    else
      var d := ParseDuration(value);
      if d.Some? && d.value < 0 then None else d
  }

  // ---------- the runner reads what the recommender prints ----------

  function SpanOfUnit(u: Unit): Span {
    match u
    case Milli => Millis
    case Second => Seconds
    case Minute => Minutes
    case Hour => Hours
  }

  lemma UnfoldPair(s: string, i: nat, b: nat, end: nat, u: Span)
    requires i < b < end <= |s| && RunEnd(s, i) == b && s[b] != '.' && SpanEnd(s, b) == end
    requires SpanOf(s[b..end]) == Some(u) && Pairs(s, end).Some?
    ensures Pairs(s, i) == Some(PairNanos(s[i..b], "", u) + Pairs(s, end).value)
  {
    hide RunEnd, SpanEnd, SpanOf, PairNanos;
    assert s[b..b] == "";
  }

  lemma PairOfNumeral(n: nat, u: Span)
    ensures PairNanos(Dec(n), "", u) == WholeNanos(n, u)
  {
    ValueOfNumeral(n, Decimal);
  }

  lemma PairOfPart(s: string, i: nat, j: nat, n: nat, u: Unit, always: bool)
    requires !u.Milli? && i <= j <= |s| && s[i..j] == Part(n, u, always) && (j == |s| || IsDigit(s[j]))
    requires Pairs(s, j).Some?
    ensures Pairs(s, i) == Some(WholeNanos(n, SpanOfUnit(u)) + Pairs(s, j).value)
  {
    hide Pairs, Value, Numeral, PairNanos;
    if n > 0 || always {
      PartAt(s, i, n, u);
      var b := i + |Dec(n)|;
      RunEndIs(s, i, b);
      UnfoldPair(s, i, b, j, SpanOfUnit(u));
      PairOfNumeral(n, SpanOfUnit(u));
    }
  }

  /** The nanoseconds of a whole number of seconds split into hours, minutes and seconds. */
  lemma SpansOfSeconds(n: nat)
    ensures WholeNanos(n / 3600, Hours) + (WholeNanos(n % 3600 / 60, Minutes) + WholeNanos(n % 60, Seconds))
         == n * 1_000_000_000
  {
    SplitSeconds(n);
  }

  lemma NoPairs(s: string)
    ensures Pairs(s, |s|) == Some(0)
  {
  }

  lemma PairsOfThreeParts(h: nat, m: nat, rest: nat)
    ensures Pairs(Part(h, Hour, false) + (Part(m, Minute, false) + Part(rest, Second, h == 0 && m == 0)), 0)
         == Some(WholeNanos(h, Hours) + (WholeNanos(m, Minutes) + WholeNanos(rest, Seconds)))
  {
    hide Pairs, WholeNanos, Part;
    var zero := h == 0 && m == 0;
    var p, q, r := Part(h, Hour, false), Part(m, Minute, false), Part(rest, Second, zero);
    var s := p + (q + r);
    ThreeParts(h, m, rest);
    NoPairs(s);
    PairOfPart(s, |p| + |q|, |s|, rest, Second, zero);
    PairOfPart(s, |p|, |p| + |q|, m, Minute, false);
    PairOfPart(s, 0, |p|, h, Hour, false);
  }

  /** The whole seconds formatDuration prints. */
  function PrintedSeconds(ms: real): (n: nat)
    ensures n == if Ceil(ms / 1000.0) > 0 then Ceil(ms / 1000.0) else 0
  {
    if Ceil(ms / 1000.0) > 0 then Ceil(ms / 1000.0) else 0
  }

  lemma PairsOfFormatted(ms: real)
    ensures Pairs(FormatDuration(ms), 0) == Some(PrintedSeconds(ms) * 1_000_000_000)
  {
    hide Pairs;
    var seconds := PrintedSeconds(ms);
    PairsOfThreeParts(seconds / 3600, seconds % 3600 / 60, seconds % 60);
    SpansOfSeconds(seconds);
    if seconds == 0 {
      assert Dec(0) == "0";
      assert Part(0, Hour, false) + (Part(0, Minute, false) + Part(0, Second, true)) == "0s";
    }
  }

  /** Empty, or starting with a digit and ending in a unit. */
  predicate Ends(s: string) {
    s == "" || (IsDigit(s[0]) && !IsDigit(s[|s| - 1]))
  }

  lemma EndsJoin(a: string, b: string)
    requires Ends(a) && Ends(b)
    ensures Ends(a + b)
  {
    var s := a + b;
    if a != "" && b != "" {
      assert s[0] == a[0] && s[|s| - 1] == b[|b| - 1];
    } else {
      assert s == a || s == b;
    }
  }

  lemma PartEnds(n: nat, u: Unit, always: bool)
    requires !u.Milli?
    ensures Ends(Part(n, u, always))
    ensures Part(n, u, always) == "" <==> n == 0 && !always
  {
    PartFacts(n, u, always);
  }

  lemma ZeroEnds()
    ensures Ends("0s")
  {
  }

  lemma FormattedEnds(ms: real)
    ensures FormatDuration(ms) != "" && Ends(FormatDuration(ms))
  {
    hide Part, Ends;
    var seconds := PrintedSeconds(ms);
    if seconds == 0 {
      ZeroEnds();
    } else {
      var h, m, rest := seconds / 3600, seconds % 3600 / 60, seconds % 60;
      var z := h == 0 && m == 0;
      SplitSeconds(seconds);
      PartEnds(h, Hour, false);
      PartEnds(m, Minute, false);
      PartEnds(rest, Second, z);
      EndsJoin(Part(m, Minute, false), Part(rest, Second, z));
      EndsJoin(Part(h, Hour, false), Part(m, Minute, false) + Part(rest, Second, z));
    }
  }

  lemma LowerOfClean(s: string)
    requires forall c <- s :: IsFormatChar(c)
    ensures Lower(s) == s
  {
    LowerLower(s);
  }

  /** What the recommender prints, the runner's flag parser reads as the same number of seconds -
      exactly while it fits Go's 63-bit nanosecond count; beyond that Go rejects it. */
  lemma ParseFormattedInGo(ms: real)
    ensures var ns := PrintedSeconds(ms) * 1_000_000_000;
      ParseDurationFlag(FormatDuration(ms)) == if ns <= MAX_DURATION then Some(ns) else None
  {
    hide Pairs, FormatDuration, Lower, Trim, Part;
    var s := FormatDuration(ms);
    FormattedIsClean(ms);
    FormattedEnds(ms);
    PairsOfFormatted(ms);
    LowerOfClean(s);
    assert s != "0" && s[0] != '-' && s[0] != '+';
    assert s != "off" && s != "none" && s != "disabled" by {
      assert s[0] != 'o' && s[0] != 'n' && s[0] != 'd';
    }
  }

  // ---------- Duration.String, as the runner's report prints it ----------

  /** r / 10^k as decimal digits, most significant first, without trailing zeros. */
  function FractionDigits(r: nat, k: nat): (s: string)
    requires r < Pow10(k)
    ensures s == "" <==> r == 0
  {
    if r == 0 then ""
    else
      var w := Pow10(k - 1);
      DivMod(r, w);
      QuotientIsDigit(r, w);
      [DigitChar(r / w)] + FractionDigits(r % w, k - 1)
  }

  lemma NoDigits()
    ensures AllDigits("") && Fraction("") == 0.0
  {
  }

  lemma OneMoreDigit(d: nat, rest: string)
    requires d < 10 && AllDigits(rest)
    ensures var s := [DigitChar(d)] + rest; AllDigits(s) && Fraction(s) == (d as real + Fraction(rest)) / 10.0
  {
    var s := [DigitChar(d)] + rest;
    assert s[1..] == rest && DigitValue(s[0]) == d;
  }

  /** x is the fraction m / w. */
  predicate IsFraction(x: real, m: nat, w: nat) {
    x * w as real == m as real
  }

  lemma LeadingDigit(d: nat, rest: real, m: nat, w: nat)
    requires IsFraction(rest, m, w)
    ensures IsFraction((d as real + rest) / 10.0, d * w + m, 10 * w)
  {
    assert (10 * w) as real == 10.0 * w as real;
    assert (d * w) as real == d as real * w as real;
  }

  lemma NoFraction(w: nat)
    ensures IsFraction(0.0, 0, w)
  {
  }

  lemma {:induction false} FractionIsDigits(r: nat, k: nat)
    requires r < Pow10(k)
    ensures AllDigits(FractionDigits(r, k))
  {
    hide AllDigits;
    if r == 0 {
      NoDigits();
    } else {
      var w := Pow10(k - 1);
      DivMod(r, w);
      QuotientIsDigit(r, w);
      FractionIsDigits(r % w, k - 1);
      OneMoreDigit(r / w, FractionDigits(r % w, k - 1));
    }
  }

  lemma {:induction false} FractionOfDigits(r: nat, k: nat)
    requires r < Pow10(k)
    ensures IsFraction(Fraction(FractionDigits(r, k)), r, Pow10(k))
  {
    hide Fraction, AllDigits, IsFraction;
    if r == 0 {
      NoDigits();
      NoFraction(Pow10(k));
    } else {
      var w := Pow10(k - 1);
      DivMod(r, w);
      QuotientIsDigit(r, w);
      FractionIsDigits(r % w, k - 1);
      FractionOfDigits(r % w, k - 1);
      OneMoreDigit(r / w, FractionDigits(r % w, k - 1));
      LeadingDigit(r / w, Fraction(FractionDigits(r % w, k - 1)), r % w, w);
    }
  }

  lemma FractionIs(x: real, m: nat, w: nat)
    requires w > 0 && IsFraction(x, m, w)
    ensures x == m as real / w as real
  {
  }

  function Decimals(r: nat, k: nat): string
    requires r < Pow10(k)
  {
    if r == 0 then "" else "." + FractionDigits(r, k)
  }

  /** The magnitude of a non-zero duration. */
  function Magnitude(u: nat): string
    requires u > 0
  {
    assert Pow10(3) == 1_000 && Pow10(6) == 1_000_000 && Pow10(9) == 1_000_000_000;
    if u < 1_000 then Dec(u) + "ns"
    else if u < 1_000_000 then Dec(u / 1_000) + Decimals(u % 1_000, 3) + "\U{b5}s"
    else if u < 1_000_000_000 then Dec(u / 1_000_000) + Decimals(u % 1_000_000, 6) + UnitText(Milli)
    else
      var secs := u / 1_000_000_000;
      Part(secs / 3600, Hour, false)
      + (Part(secs % 3600 / 60, Minute, secs >= 60)
         + (Dec(secs % 60) + Decimals(u % 1_000_000_000, 9) + UnitText(Second)))
  }

  function DurationString(d: int): string {
    if d == 0 then "0s" else if d < 0 then "-" + Magnitude(-d) else Magnitude(d)
  }

  // ---------- the recommender reads what the runner prints ----------

  lemma ScanLast(s: string, i: nat, amount: Amount)
    requires i < |s| && MatchAt(s, i) == Some(amount) && amount.end == |s|
    ensures Found(s, i) && Total(s, i) == AmountMs(amount)
  {
    hide MatchAt, AmountMs;
  }

  lemma DecimalWorth(n: nat, r: nat, k: nat, u: Unit, end: nat)
    requires r < Pow10(k)
    ensures var digits := if r == 0 then "" else FractionDigits(r, k);
      AmountMs(Amount(Dec(n), digits, u, end)) == InMs(n as real + r as real / Pow10(k) as real, u)
  {
    hide FractionDigits, Numeral, IsFraction;
    ValueOfNumeral(n, Decimal);
    if r > 0 {
      FractionOfDigits(r, k);
      FractionIs(Fraction(FractionDigits(r, k)), r, Pow10(k));
    }
  }

  lemma LastUnit(s: string, b: nat, u: Unit)
    requires b <= |s| && s[b..] == UnitText(u)
    ensures b < |s| && UnitAt(s, b) == Some(u)
  {
    var unit := UnitText(u);
    assert s[b] == s[b..][0] == unit[0];
    assert |unit| == 2 ==> s[b + 1] == s[b..][1];
  }

  lemma DecimalSlices(s: string, i: nat, whole: string, digits: string, unit: string)
    requires i <= |s| && s[i..] == whole + (if digits == "" then "" else "." + digits) + unit
    requires AllDigits(whole) && AllDigits(digits)
    ensures var a := i + |whole|;
      var b := |s| - |unit|;
      && a <= b && s[i..a] == whole && s[b..] == unit && DigitsFromTo(s, i, a)
      && (digits == "" ==> a == b)
      && (digits != "" ==> a + 1 + |digits| == b && s[a] == '.' && s[a + 1..b] == digits && DigitsFromTo(s, a + 1, b))
  {
    var a, b := i + |whole|, |s| - |unit|;
    var t := s[i..];
    assert forall k :: i <= k < |s| ==> s[k] == t[k - i];
    assert t[..|whole|] == whole;
    forall k | i <= k < a
      ensures IsDigit(s[k])
    {
      assert s[k] == whole[k - i] && whole[k - i] in whole;
    }
    if digits != "" {
      forall k | a < k < b
        ensures s[k] == digits[k - a - 1] && IsDigit(s[k])
      {
        assert s[k] == t[k - i] == digits[k - a - 1] && digits[k - a - 1] in digits;
      }
    }
  }

  lemma DecimalMatch(s: string, i: nat, whole: string, digits: string, u: Unit)
    requires i <= |s| && s[i..] == whole + (if digits == "" then "" else "." + digits) + UnitText(u)
    requires whole != "" && AllDigits(whole) && AllDigits(digits)
    ensures i < |s| && MatchAt(s, i) == Some(Amount(whole, digits, u, |s|))
  {
    hide MatchAt, AllDigits;
    var unit := UnitText(u);
    var a, b := i + |whole|, |s| - |unit|;
    DecimalSlices(s, i, whole, digits, unit);
    LastUnit(s, b, u);
    if digits == "" {
      MatchIsUnambiguous(s, i, i, i, b);
    } else {
      MatchIsUnambiguous(s, i, a, a + 1, b);
    }
  }

  lemma DecimalAt(s: string, i: nat, n: nat, r: nat, k: nat, u: Unit)
    requires r < Pow10(k) && i <= |s| && s[i..] == Dec(n) + Decimals(r, k) + UnitText(u)
    ensures i < |s|
    ensures var digits := if r == 0 then "" else FractionDigits(r, k);
      MatchAt(s, i) == Some(Amount(Dec(n), digits, u, |s|))
  {
    hide MatchAt, Dec, FractionDigits, UnitAt;
    var digits := if r == 0 then "" else FractionDigits(r, k);
    DecDigits(n);
    DecStarts(n);
    if r > 0 {
      FractionIsDigits(r, k);
    }
    DecimalMatch(s, i, Dec(n), digits, u);
  }

  /** A number with decimals and a unit at the end of a text is read back exactly. */
  lemma ScanDecimal(s: string, i: nat, n: nat, r: nat, k: nat, u: Unit)
    requires r < Pow10(k) && i <= |s| && s[i..] == Dec(n) + Decimals(r, k) + UnitText(u)
    ensures Found(s, i)
    ensures Total(s, i) == InMs(n as real + r as real / Pow10(k) as real, u)
  {
    hide Total, Found, Decimals, MatchAt, Numeral, Value;
    var digits := if r == 0 then "" else FractionDigits(r, k);
    DecimalAt(s, i, n, r, k, u);
    DecimalWorth(n, r, k, u, |s|);
    ScanLast(s, i, Amount(Dec(n), digits, u, |s|));
  }

  lemma {:induction false} RunEndsInDigit(s: string, i: nat)
    requires i <= |s|
    ensures RunEnd(s, i) > i ==> IsDigit(s[RunEnd(s, i) - 1])
    decreases |s| - i
  {
    if i >= |s| || !IsDigit(s[i]) {
    } else {
      RunEndsInDigit(s, i + 1);
    }
  }

  lemma NoMatchAt(s: string, i: nat)
    requires i <= |s|
    requires forall k :: 1 <= k < |s| && IsDigit(s[k - 1]) ==> UnitAt(s, k) == None
    ensures MatchAt(s, i) == None
  {
    hide UnitAt, IsDigit, RunEnd;
    var a := RunEnd(s, i);
    RunEndsInDigit(s, i);
    if a < |s| && s[a] == '.' {
      RunEndsInDigit(s, a + 1);
    }
  }

  /** Where no unit follows a digit, the expression matches nothing. */
  lemma {:induction false} NothingFound(s: string, i: nat)
    requires i <= |s|
    requires forall k :: 1 <= k < |s| && IsDigit(s[k - 1]) ==> UnitAt(s, k) == None
    ensures !Found(s, i)
    decreases |s| - i
  {
    hide MatchAt, UnitAt, IsDigit;
    if i >= |s| {
    } else {
      NothingFound(s, i + 1);
      NoMatchAt(s, i);
    }
  }

  lemma MinutesThenSeconds(m: nat, secs: nat, ns: nat)
    requires ns < Pow10(9)
    ensures var q, r := Part(m, Minute, secs >= 60), Dec(secs % 60) + Decimals(ns, 9) + UnitText(Second);
      r != "" && IsDigit(r[0]) && IsDigit((q + r)[0])
  {
    hide Decimals, Part, Dec;
    PartFacts(m, Minute, secs >= 60);
    DecStarts(secs % 60);
    var r := Dec(secs % 60) + Decimals(ns, 9) + UnitText(Second);
    assert r[0] == Dec(secs % 60)[0];
  }

  lemma SecondAndFraction(s: real, ns: real)
    ensures InMs(s + ns / 1_000_000_000.0, Second) == InMs(s, Second) + ns / 1_000_000.0
  {
  }

  lemma ClockSum(secs: nat, ns: nat)
    ensures InMs((secs / 3600) as real, Hour) + InMs((secs % 3600 / 60) as real, Minute)
          + InMs((secs % 60) as real + ns as real / 1_000_000_000.0, Second)
         == 1000.0 * secs as real + ns as real / 1_000_000.0
  {
    hide InMs;
    SplitSeconds(secs);
    AddParts(secs / 3600, secs % 3600 / 60, secs % 60);
    SecondAndFraction((secs % 60) as real, ns as real);
  }

  lemma OffsetSlices(s: string, i: nat, p: string, q: string, r: string)
    requires i <= |s| && s[i..] == p + (q + r) && r != ""
    ensures var j := i + |p|;
      var k := j + |q|;
      && k < |s| && s[i..j] == p && s[j..k] == q && s[k..] == r
      && s[j] == (if q != "" then q[0] else r[0]) && s[k] == r[0]
  {
    var t := s[i..];
    assert forall x :: i <= x < |s| ==> s[x] == t[x - i];
  }

  lemma ScanClock(s: string, i: nat, secs: nat, ns: nat)
    requires ns < 1_000_000_000 == Pow10(9) && i <= |s| && secs > 0
    requires s[i..] == Part(secs / 3600, Hour, false)
                       + (Part(secs % 3600 / 60, Minute, secs >= 60)
                          + (Dec(secs % 60) + Decimals(ns, 9) + UnitText(Second)))
    ensures Found(s, i) && Total(s, i) == 1000.0 * secs as real + ns as real / 1_000_000.0
  {
    hide Total, Found, Decimals, Dec, InMs, Part;
    var h, m := secs / 3600, secs % 3600 / 60;
    var p, q := Part(h, Hour, false), Part(m, Minute, secs >= 60);
    var r := Dec(secs % 60) + Decimals(ns, 9) + UnitText(Second);
    MinutesThenSeconds(m, secs, ns);
    var j, k := i + |p|, i + |p| + |q|;
    OffsetSlices(s, i, p, q, r);
    ScanOptionalPart(s, i, j, h, Hour, false);
    ScanOptionalPart(s, j, k, m, Minute, secs >= 60);
    ScanDecimal(s, k, secs % 60, ns, 9, Second);
    assert Found(s, j) && (h == 0 ==> i == j);
    assert Pow10(9) as real == 1_000_000_000.0;
    var seconds := (secs % 60) as real + ns as real / 1_000_000_000.0;
    assert Total(s, k) == InMs(seconds, Second);
    assert Total(s, i) == InMs(h as real, Hour) + InMs(m as real, Minute)
                          + InMs((secs % 60) as real + ns as real / 1_000_000_000.0, Second);
    ClockSum(secs, ns);
  }

  /** A magnitude of at least a millisecond is read back exactly, wherever the text starts. */
  lemma ScanMagnitude(s: string, i: nat, u: nat)
    requires i <= |s| && u >= 1_000_000 && s[i..] == Magnitude(u)
    ensures Found(s, i) && Total(s, i) == u as real / 1_000_000.0
  {
    hide Total, Found, Decimals, Part, Dec;
    assert Pow10(6) == 1_000_000 && Pow10(9) == 1_000_000_000;
    if u < 1_000_000_000 {
      ScanDecimal(s, i, u / 1_000_000, u % 1_000_000, 6, Milli);
    } else {
      ScanClock(s, i, u / 1_000_000_000, u % 1_000_000_000);
    }
  }

  lemma TinyEnd(s: string, b: nat, unit: string)
    requires b + 2 == |s| && s[b..] == unit
    ensures s[b] == unit[0] && s[b + 1] == unit[1]
  {
    assert s[b] == s[b..][0] && s[b + 1] == s[b..][1];
  }

  lemma TinyUnits(s: string, i: nat, whole: string, digits: string, unit: string)
    requires i <= |s| && s[i..] == whole + (if digits == "" then "" else "." + digits) + unit
    requires AllDigits(whole) && AllDigits(digits) && |unit| == 2
    requires (unit[0] == 'n' || unit[0] == '\U{b5}') && unit[1] == 's'
    requires forall k :: 0 <= k < i ==> !IsDigit(s[k])
    ensures forall k :: 1 <= k < |s| && IsDigit(s[k - 1]) ==> UnitAt(s, k) == None
  {
    DecimalSlices(s, i, whole, digits, unit);
    TinyEnd(s, |s| - 2, unit);
    forall k | 1 <= k < |s| && IsDigit(s[k - 1])
      ensures UnitAt(s, k) == None
    {
      assert k - 1 >= i;
    }
  }

  /** Nothing is read from a magnitude below a millisecond: the expression knows no such unit. */
  lemma ScanTiny(s: string, i: nat, u: nat)
    requires i <= |s| && 0 < u < 1_000_000 && s[i..] == Magnitude(u)
    requires forall k :: 0 <= k < i ==> !IsDigit(s[k])
    ensures !Found(s, 0)
  {
    hide Found, Numeral, FractionDigits;
    assert Pow10(3) == 1_000;
    var whole := if u < 1_000 then Dec(u) else Dec(u / 1_000);
    var digits := if u < 1_000 || u % 1_000 == 0 then "" else FractionDigits(u % 1_000, 3);
    var unit := if u < 1_000 then "ns" else "\U{b5}s";
    DecDigits(u);
    DecDigits(u / 1_000);
    if digits != "" {
      FractionIsDigits(u % 1_000, 3);
    }
    assert s[i..] == whole + (if digits == "" then "" else "." + digits) + unit;
    TinyUnits(s, i, whole, digits, unit);
    NothingFound(s, 0);
  }

  lemma SkipSign(s: string)
    requires |s| >= 1 && s[0] == '-'
    ensures Found(s, 0) == Found(s, 1) && Total(s, 0) == Total(s, 1)
  {
    assert RunEnd(s, 0) == 0;
    assert MatchAt(s, 0) == None;
  }

  predicate IsPrintedChar(c: char) {
    IsFormatChar(c) || c == '.' || c == '-' || c == 'n' || c == '\U{b5}'
  }

  lemma CleanPrinted(s: string)
    requires s != "" && forall c <- s :: IsPrintedChar(c)
    ensures Lower(Trim(s, JsSpace)) == s
  {
    assert Trimmed(s, JsSpace) by {
      assert s[0] in s && s[|s| - 1] in s;
      assert IsPrintedChar(s[0]) && IsPrintedChar(s[|s| - 1]);
    }
    LowerLower(s);
    TrimTrimmed(s, JsSpace);
  }

  lemma DecimalsChars(r: nat, k: nat)
    requires r < Pow10(k)
    ensures forall c <- Decimals(r, k) :: IsPrintedChar(c)
  {
    if r > 0 {
      FractionIsDigits(r, k);
    }
  }

  lemma MagnitudeChars(u: nat)
    requires u > 0
    ensures var s := Magnitude(u);
      s != "" && IsDigit(s[0]) && forall c <- s :: IsPrintedChar(c)
  {
    hide Numeral, Decimals, Part;
    assert Pow10(3) == 1_000 && Pow10(6) == 1_000_000 && Pow10(9) == 1_000_000_000;
    if u < 1_000_000_000 {
      var n := if u < 1_000 then u else if u < 1_000_000 then u / 1_000 else u / 1_000_000;
      DecDigits(n);
      assert Dec(n)[0] in Dec(n);
      if 1_000 <= u < 1_000_000 {
        DecimalsChars(u % 1_000, 3);
      } else if u >= 1_000 {
        DecimalsChars(u % 1_000_000, 6);
      }
    } else {
      var secs := u / 1_000_000_000;
      var h, m := Part(secs / 3600, Hour, false), Part(secs % 3600 / 60, Minute, secs >= 60);
      PartFacts(secs / 3600, Hour, false);
      PartFacts(secs % 3600 / 60, Minute, secs >= 60);
      DecDigits(secs % 60);
      DecStarts(secs % 60);
      DecimalsChars(u % 1_000_000_000, 9);
      var last := Dec(secs % 60) + Decimals(u % 1_000_000_000, 9) + UnitText(Second);
      assert last[0] == Dec(secs % 60)[0];
      var s := h + (m + last);
      assert s[0] == if h != "" then h[0] else if m != "" then m[0] else last[0];
    }
  }

  lemma PrintedIsClean(d: int)
    ensures var s := DurationString(d);
      && Lower(Trim(s, JsSpace)) == s && s != "" && s != "-"
      && (forall c <- s :: IsPrintedChar(c)) && (IsDigit(s[0]) || s[0] == '-')
  {
    hide Lower, Trim, Magnitude;
    var s := DurationString(d);
    if d == 0 {
      assert forall c <- s :: IsPrintedChar(c);
    } else {
      MagnitudeChars(if d < 0 then -d else d);
    }
    CleanPrinted(s);
  }

  /** The recommender reads a duration out of the runner's report exactly when it is zero or at least
      a millisecond; a negative one loses its sign, and a smaller one reads as no duration at all. */
  lemma ParsePrinted(d: int)
    ensures ParseMs(DurationString(d))
         == if d == 0 || d >= 1_000_000 then Some(d as real / 1_000_000.0)
            else if d <= -1_000_000 then Some(-d as real / 1_000_000.0)
            else None
    ensures ParseMs(DurationString(d)) == Some(d as real / 1_000_000.0) <==> d == 0 || d >= 1_000_000
  {
    hide Total, Found, Magnitude, Lower, Trim;
    var s := DurationString(d);
    PrintedIsClean(d);
    if d == 0 {
      ParseFormatted(0.0);
      assert FormatDuration(0.0) == "0s";
    } else if d > 0 {
      assert s[0..] == s;
      if d >= 1_000_000 {
        ScanMagnitude(s, 0, d);
      } else {
        ScanTiny(s, 0, d);
      }
    } else {
      assert s[1..] == Magnitude(-d);
      if d <= -1_000_000 {
        ScanMagnitude(s, 1, -d);
        SkipSign(s);
      } else {
        ScanTiny(s, 1, -d);
      }
    }
  }
}
