/** Go's time.ParseDuration reads back what Duration.String prints, and what the runner's flags accept. */
module GoReadsBack {
  import opened Text
  import opened Numerals
  import opened Durations
  import opened GoDurations

  /** The unit texts that follow a number with decimals, and how many digits a nanosecond is behind the point. */
  predicate HasDigits(unit: string, u: Span, k: nat) {
    || (unit == "ns" && u == Nanos && k == 0)
    || (unit == "\U{b5}s" && u == Micros && k == 3)
    || (unit == "ms" && u == Millis && k == 6)
    || (unit == "s" && u == Seconds && k == 9)
  }

  lemma UnitFacts(unit: string, u: Span, k: nat)
    requires HasDigits(unit, u, k)
    ensures SpanOf(unit) == Some(u) && unit != "" && forall c <- unit :: c != '.' && !IsDigit(c)
  {
  }

  lemma {:induction false} SpanToEnd(s: string, b: nat)
    requires b <= |s| && forall i :: b <= i < |s| ==> s[i] != '.' && !IsDigit(s[i])
    ensures SpanEnd(s, b) == |s|
    decreases |s| - b
  {
    if b == |s| {
    } else {
      SpanToEnd(s, b + 1);
    }
  }

  /** A fraction of a unit with as many digits as the unit has nanoseconds is whole. */
  lemma WholeFraction(x: real, r: nat, u: Span, k: nat, unit: string)
    requires HasDigits(unit, u, k) && IsFraction(x, r, Pow10(k))
    ensures FractionNanos(x, u) == r
  {
    assert Pow10(3) == 1_000 && Pow10(6) == 1_000_000 && Pow10(9) == 1_000_000_000;
    assert (r as real).Floor == r;
  }

  lemma DecimalNanos(n: nat, r: nat, k: nat, unit: string, u: Span)
    requires HasDigits(unit, u, k) && r < Pow10(k)
    ensures var digits := if r == 0 then "" else FractionDigits(r, k);
      PairNanos(Dec(n), digits, u) == WholeNanos(n, u) + r
  {
    hide WholeNanos, FractionDigits, IsFraction, Fraction, FractionNanos;
    ValueOfNumeral(n, Decimal);
    if r == 0 {
      NoDigits();
      NoFraction(Pow10(k));
      WholeFraction(0.0, 0, u, k, unit);
    } else {
      FractionOfDigits(r, k);
      WholeFraction(Fraction(FractionDigits(r, k)), r, u, k, unit);
    }
  }

  /** Where the parts of a last pair end. */
  lemma PairEnds(s: string, i: nat, whole: string, digits: string, unit: string, u: Span, k: nat)
    requires HasDigits(unit, u, k) && whole != "" && AllDigits(whole) && AllDigits(digits)
    requires i <= |s| && s[i..] == whole + (if digits == "" then "" else "." + digits) + unit
    ensures var a, b := i + |whole|, |s| - |unit|;
      && i < a <= b < |s| && RunEnd(s, i) == a && s[i..a] == whole && SpanEnd(s, b) == |s| && s[b..|s|] == unit
      && (digits == "" ==> a == b && s[a] != '.')
      && (digits != "" ==> a + 1 < b && s[a] == '.' && RunEnd(s, a + 1) == b && s[a + 1..b] == digits)
  {
    hide AllDigits, HasDigits;
    UnitFacts(unit, u, k);
    DecimalSlices(s, i, whole, digits, unit);
    var a, b := i + |whole|, |s| - |unit|;
    assert s[b..|s|] == s[b..] == unit;
    forall j | b <= j < |s|
      ensures s[j] != '.' && !IsDigit(s[j])
    {
      assert s[j] == unit[j - b] && unit[j - b] in unit;
    }
    SpanToEnd(s, b);
    RunEndIs(s, i, a);
    if digits != "" {
      RunEndIs(s, a + 1, b);
    }
  }

  /** A pair at the end of the text, parts known. */
  lemma UnfoldLast(s: string, i: nat, a: nat, b: nat, whole: string, digits: string, u: Span)
    requires i < a <= b < |s| && RunEnd(s, i) == a && s[i..a] == whole && SpanEnd(s, b) == |s|
    requires SpanOf(s[b..|s|]) == Some(u)
    requires digits == "" ==> a == b && s[a] != '.'
    requires digits != "" ==> a + 1 < b && s[a] == '.' && RunEnd(s, a + 1) == b && s[a + 1..b] == digits
    ensures Pairs(s, i) == Some(PairNanos(whole, digits, u))
  {
    hide RunEnd, SpanEnd, SpanOf, PairNanos;
    NoPairs(s);
    assert s[b..b] == "";
  }

  /** A last pair reads as the whole units and the nanoseconds behind the point. */
  lemma LastPair(s: string, i: nat, n: nat, r: nat, k: nat, unit: string, u: Span)
    requires HasDigits(unit, u, k) && r < Pow10(k) && i <= |s| && s[i..] == Dec(n) + Decimals(r, k) + unit
    ensures Pairs(s, i) == Some(WholeNanos(n, u) + r)
  {
    hide Pairs, RunEnd, SpanEnd, SpanOf, PairNanos, WholeNanos, FractionDigits, Dec, AllDigits, HasDigits,
         Pow10, IsDigit;
    var digits := if r == 0 then "" else FractionDigits(r, k);
    DecDigits(n);
    var a, b := i + |Dec(n)|, |s| - |unit|;
    if r == 0 {
      NoDigits();
    } else {
      FractionIsDigits(r, k);
    }
    PairEnds(s, i, Dec(n), digits, unit, u, k);
    UnitFacts(unit, u, k);
    DecimalNanos(n, r, k, unit, u);
    assert SpanOf(s[b..|s|]) == Some(u);
    UnfoldLast(s, i, a, b, Dec(n), digits, u);
  }

  /** Hours, minutes and seconds with decimals. */
  lemma ClockPairs(s: string, secs: nat, ns: nat)
    requires ns < 1_000_000_000 == Pow10(9) && secs > 0
    requires s == Part(secs / 3600, Hour, false)
                  + (Part(secs % 3600 / 60, Minute, secs >= 60) + (Dec(secs % 60) + Decimals(ns, 9) + UnitText(Second)))
    ensures Pairs(s, 0) == Some(secs * 1_000_000_000 + ns)
  {
    hide Pairs, Decimals, Dec, Part, WholeNanos;
    var h, m := secs / 3600, secs % 3600 / 60;
    var p, q := Part(h, Hour, false), Part(m, Minute, secs >= 60);
    var r := Dec(secs % 60) + Decimals(ns, 9) + UnitText(Second);
    MinutesThenSeconds(m, secs, ns);
    assert s[0..] == s;
    OffsetSlices(s, 0, p, q, r);
    LastPair(s, |p| + |q|, secs % 60, ns, 9, "s", Seconds);
    PairOfPart(s, |p|, |p| + |q|, m, Minute, secs >= 60);
    PairOfPart(s, 0, |p|, h, Hour, false);
    SpansOfSeconds(secs);
  }

  lemma MagnitudePairs(u: nat)
    requires u > 0
    ensures Pairs(Magnitude(u), 0) == Some(u)
  {
    hide Pairs, Numeral, FractionDigits, Part;
    var s := Magnitude(u);
    assert Pow10(0) == 1 && Pow10(3) == 1_000 && Pow10(6) == 1_000_000 && Pow10(9) == 1_000_000_000;
    assert s[0..] == s;
    if u < 1_000 {
      assert Dec(u) + "" == Dec(u);
      LastPair(s, 0, u, 0, 0, "ns", Nanos);
    } else if u < 1_000_000 {
      LastPair(s, 0, u / 1_000, u % 1_000, 3, "\U{b5}s", Micros);
    } else if u < 1_000_000_000 {
      LastPair(s, 0, u / 1_000_000, u % 1_000_000, 6, "ms", Millis);
    } else {
      ClockPairs(s, u / 1_000_000_000, u % 1_000_000_000);
    }
  }

  lemma NotZeroText(u: nat)
    requires u > 0
    ensures Magnitude(u) != "0"
  {
    hide Magnitude;
    MagnitudePairs(u);
    assert Pairs("0", 0) == None by {
      assert RunEnd("0", 0) == 1;
    }
  }

  /** time.ParseDuration undoes Duration.String, for every duration of 64 bits. */
  lemma ParseUndoesString(d: int)
    requires -MAX_DURATION - 1 <= d <= MAX_DURATION
    ensures ParseDuration(DurationString(d)) == Some(d)
  {
    hide Pairs, Magnitude;
    if d == 0 {
      PairsOfFormatted(0.0);
      assert FormatDuration(0.0) == "0s";
    } else {
      var u := if d < 0 then -d else d;
      MagnitudeChars(u);
      MagnitudePairs(u);
      assert d < 0 ==> DurationString(d)[1..] == Magnitude(u);
      NotZeroText(u);
    }
  }

  lemma PrintedGoClean(d: int)
    ensures var s := DurationString(d); Trim(Lower(s), GoSpace) == s && s !in {"", "0", "off", "none", "disabled"}
  {
    hide Lower, Trim, Magnitude;
    var s := DurationString(d);
    PrintedIsClean(d);
    LowerFacts(Trim(s, JsSpace), GoSpace);
    assert Trimmed(s, GoSpace) by {
      assert s[0] in s && s[|s| - 1] in s && IsPrintedChar(s[0]) && IsPrintedChar(s[|s| - 1]);
    }
    TrimTrimmed(s, GoSpace);
    if d != 0 {
      NotZeroText(if d < 0 then -d else d);
    }
    assert s[0] != 'o' && s[0] != 'n' && s[0] != 'd';
  }

  /** A flag takes what Duration.String prints of a duration that is not negative, and refuses it of one that is. */
  lemma FlagReadsPrinted(d: int)
    requires -MAX_DURATION - 1 <= d <= MAX_DURATION
    ensures ParseDurationFlag(DurationString(d)) == if d < 0 then None else Some(d)
  {
    hide Lower, Trim, Magnitude, ParseDuration;
    ParseUndoesString(d);
    PrintedGoClean(d);
  }

  /** The words that switch a threshold off, in any case and with white space around. */
  lemma FlagWords(raw: string)
    ensures Trim(Lower(raw), GoSpace) in {"", "0", "off", "none", "disabled"} ==> ParseDurationFlag(raw) == Some(0)
    ensures ParseDurationFlag(raw).Some? && Trim(Lower(raw), GoSpace) !in {"", "0", "off", "none", "disabled"} ==>
      ParseDuration(Trim(Lower(raw), GoSpace)) == ParseDurationFlag(raw)
  {
  }
}
