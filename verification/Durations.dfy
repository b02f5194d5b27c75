/** Durations as text. The recommender (scripts/recommend_budgets.js) scans them with a regular
    expression and prints whole seconds; the runner (ci.go) uses Go's time package.
    JavaScript numbers are modelled as reals, Go durations as integer nanoseconds. */
module Durations {
  import opened Text
  import opened Numerals

  // ---------- the recommender's reader: /([0-9]*\.?[0-9]+)(ms|s|m|h)/g ----------

  /** The alternatives of the unit group. */
  datatype Unit = Milli | Second | Minute | Hour

  function UnitText(u: Unit): (s: string)
    ensures s != "" && !IsDigit(s[0])
  {
    match u
    case Milli => "ms"
    case Second => "s"
    case Minute => "m"
    case Hour => "h"
  }

  /** The switch on the unit: a number of units in milliseconds. */
  function InMs(x: real, u: Unit): (ms: real)
    ensures x >= 0.0 ==> ms >= 0.0
  {
    match u
    case Milli => x
    case Second => x * 1_000.0
    case Minute => x * 60_000.0
    case Hour => x * 3_600_000.0
  }

  /** The unit at a position; "ms" is tried before "m". */
  function UnitAt(s: string, i: nat): (u: Option<Unit>)
    ensures u.Some? ==> i + |UnitText(u.value)| <= |s|
  {
    if i >= |s| then None
    else match s[i]
      case 'm' => if i + 1 < |s| && s[i + 1] == 's' then Some(Milli) else Some(Minute)
      case 's' => Some(Second)
      case 'h' => Some(Hour)
      case _ => None
  }

  function Whole(s: string): nat {
    Value(s, Decimal)
  }

  /** The digits after a decimal point. */
  function Fraction(s: string): (x: real)
    ensures x >= 0.0
  {
    if s == "" then 0.0 else (DigitValue(s[0]) as real + Fraction(s[1..])) / 10.0
  }

  /** A match: the digits before and after the dot, the unit, and where it ends. */
  datatype Amount = Amount(whole: string, fraction: string, unit: Unit, end: nat)

  function AmountMs(a: Amount): (ms: real)
    ensures ms >= 0.0
  {
    InMs(Whole(a.whole) as real + Fraction(a.fraction), a.unit)
  }

  function WithUnit(s: string, i: nat, a: nat, f: nat, b: nat): (r: Option<Amount>)
    requires i <= a <= f <= b <= |s|
    ensures r.Some? ==> b < r.value.end <= |s|
  {
    match UnitAt(s, b)
    case None => None
    case Some(u) => Some(Amount(s[i..a], s[f..b], u, b + |UnitText(u)|))
  }

  /** What the expression matches at a position. Digit runs are taken whole: giving a digit back
      would leave a digit where a unit has to stand. */
  function MatchAt(s: string, i: nat): (r: Option<Amount>)
    requires i <= |s|
    ensures r.Some? ==> i < r.value.end <= |s|
  {
    var a := RunEnd(s, i);
    if a < |s| && s[a] == '.' then
      var b := RunEnd(s, a + 1);
      if b == a + 1 then None else WithUnit(s, i, a, a + 1, b)
    else
      if a == i then None else WithUnit(s, i, a, a, a)
  }

  /** The global scan from a position: match at the earliest position, skip what does not match.
      The total of the matches: */
  function Total(s: string, lastIndex: nat): (ms: real)
    requires lastIndex <= |s|
    ensures ms >= 0.0
    decreases |s| - lastIndex
  {
    if lastIndex == |s| then 0.0
    else
      match MatchAt(s, lastIndex)
      case Some(amount) => AmountMs(amount) + Total(s, amount.end)
      case None => Total(s, lastIndex + 1)
  }

  /** Whether there is a match at all: */
  predicate Found(s: string, lastIndex: nat)
    requires lastIndex <= |s|
    decreases |s| - lastIndex
  {
    lastIndex < |s| && (MatchAt(s, lastIndex).Some? || Found(s, lastIndex + 1))
  }

  function ParseMs(raw: string): (r: Option<real>)
    ensures r.Some? ==> r.value >= 0.0
  {
    var value := Lower(Trim(raw, JsSpace));
    if value == "" || value == "-" || !Found(value, 0) then None else Some(Total(value, 0))
  }

  /** parseDurationMs: the loop over successive matches. */
  method ParseDurationMs(raw: string) returns (r: Option<real>)
    ensures r == ParseMs(raw)
  {
    hide MatchAt, AmountMs, Lower, Trim;
    var value := Lower(Trim(raw, JsSpace));
    if value == "" || value == "-" {
      return None;
    }
    var total, found, lastIndex := 0.0, false, 0;
    while lastIndex < |value|
      invariant 0 <= lastIndex <= |value|
      invariant total + Total(value, lastIndex) == Total(value, 0)
      invariant (found || Found(value, lastIndex)) == Found(value, 0)
      invariant found ==> Found(value, 0)
    {
      var here := MatchAt(value, lastIndex);
      if here.Some? {
        total, found, lastIndex := total + AmountMs(here.value), true, here.value.end;
      } else {
        lastIndex := lastIndex + 1;
      }
    }
    return if found then Some(total) else None;
  }

  predicate DigitsFromTo(s: string, i: nat, j: nat)
    requires i <= j <= |s|
  {
    forall k :: i <= k < j ==> IsDigit(s[k])
  }

  /** Any way of reading the expression at a position - digits [i, a), an optional dot, digits
      [f, b) of which there is at least one, a unit - is the way MatchAt reads it: the match is
      what the expression language prescribes and does not depend on backtracking. */
  lemma MatchIsUnambiguous(s: string, i: nat, a: nat, f: nat, b: nat)
    requires i <= a <= f < b < |s| && UnitAt(s, b).Some?
    requires DigitsFromTo(s, i, a) && DigitsFromTo(s, f, b)
    requires f == a || (f == a + 1 && s[a] == '.')
    ensures var u := UnitAt(s, b).value;
      MatchAt(s, i) == Some(if f == a then Amount(s[i..b], "", u, b + |UnitText(u)|)
                            else Amount(s[i..a], s[f..b], u, b + |UnitText(u)|))
  {
    assert !IsDigit(s[b]);
    if f == a {
      RunEndIs(s, i, b);
      assert s[b..b] == "";
    } else {
      RunEndIs(s, i, a);
      RunEndIs(s, f, b);
    }
  }

  // ---------- the recommender's printer ----------

  function Ceil(x: real): (n: int)
    ensures (n - 1) as real < x <= n as real
  {
    -(-x).Floor
  }

  predicate IsFormatChar(c: char) {
    IsDigit(c) || c == 'h' || c == 'm' || c == 's'
  }

  function Part(n: nat, u: Unit, always: bool): string {
    if n > 0 || always then Dec(n) + UnitText(u) else ""
  }

  /** formatDuration. */
  function FormatDuration(ms: real): string {
    var seconds := Ceil(ms / 1000.0);
    if seconds <= 0 then "0s"
    else
      var h := seconds / 3600;
      var m := seconds % 3600 / 60;
      var rest := seconds % 60;
      Part(h, Hour, false) + (Part(m, Minute, false) + Part(rest, Second, h == 0 && m == 0))
  }

  lemma PartFacts(n: nat, u: Unit, always: bool)
    requires !u.Milli?
    ensures var s := Part(n, u, always);
      && (forall c <- s :: IsFormatChar(c))
      && (s != "" ==> IsDigit(s[0]))
      && (s == "" <==> n == 0 && !always)
  {
    DecDigits(n);
    var digits := Dec(n);
    assert digits[0] in digits;
  }

  /** The least whole number of seconds not below a duration, in milliseconds. */
  function WholeSecond(ms: real): (r: real)
    ensures ms <= r < ms + 1000.0
  {
    1000.0 * Ceil(ms / 1000.0) as real
  }

  lemma AmountOfPart(n: nat, u: Unit, end: nat)
    ensures AmountMs(Amount(Dec(n), "", u, end)) == InMs(n as real, u)
  {
    ValueOfNumeral(n, Decimal);
  }

  lemma PartAt(s: string, i: nat, n: nat, u: Unit)
    requires var part := Dec(n) + UnitText(u);
      var j := i + |part|;
      !u.Milli? && j <= |s| && s[i..j] == part && (j == |s| || IsDigit(s[j]))
    ensures var b := i + |Dec(n)|;
      && b < |s| && s[i..b] == Dec(n) && DigitsFromTo(s, i, b)
      && UnitAt(s, b) == Some(u) && s[b..b + |UnitText(u)|] == UnitText(u)
  {
    var digits := Dec(n);
    var part := digits + UnitText(u);
    var b := i + |digits|;
    DecDigits(n);
    forall k | i <= k < b
      ensures s[k] == digits[k - i] && IsDigit(s[k])
    {
      assert s[k] == s[i..i + |part|][k - i] == part[k - i] == digits[k - i];
      assert digits[k - i] in digits;
    }
    assert s[b] == s[i..i + |part|][|digits|] == part[|digits|] == UnitText(u)[0];
    assert s[i..b] == digits;
  }

  lemma MatchPart(s: string, i: nat, n: nat, u: Unit)
    requires var part := Dec(n) + UnitText(u);
      var j := i + |part|;
      !u.Milli? && j <= |s| && s[i..j] == part && (j == |s| || IsDigit(s[j]))
    ensures MatchAt(s, i) == Some(Amount(Dec(n), "", u, i + |Dec(n)| + |UnitText(u)|))
  {
    PartAt(s, i, n, u);
    var b := i + |Dec(n)|;
    MatchIsUnambiguous(s, i, i, i, b);
    assert s[i..b] == Dec(n);
  }

  /** Scanning one printed component adds its value and moves on. */
  lemma ScanPart(s: string, i: nat, n: nat, u: Unit)
    requires var part := Dec(n) + UnitText(u);
      var j := i + |part|;
      !u.Milli? && j <= |s| && s[i..j] == part && (j == |s| || IsDigit(s[j]))
    ensures Found(s, i)
    ensures Total(s, i) == InMs(n as real, u) + Total(s, i + |Dec(n)| + |UnitText(u)|)
  {
    hide MatchAt;
    MatchPart(s, i, n, u);
    AmountOfPart(n, u, i + |Dec(n)| + |UnitText(u)|);
  }

  lemma SplitSeconds(n: nat)
    ensures 3600 * (n / 3600) + 60 * (n % 3600 / 60) + n % 60 == n
  {
    var h := n / 3600;
    var r := n % 3600;
    assert n == 3600 * h + r;
    assert r == 60 * (r / 60) + r % 60;
    assert n % 60 == r % 60 by {
      assert n == 60 * (60 * h) + r;
    }
  }

  lemma AddParts(h: nat, m: nat, s: nat)
    ensures InMs(h as real, Hour) + InMs(m as real, Minute) + InMs(s as real, Second)
         == 1000.0 * (3600 * h + 60 * m + s) as real
  {
  }

  lemma SumOfParts(ms: real, seconds: nat)
    requires seconds == Ceil(ms / 1000.0)
    ensures InMs((seconds / 3600) as real, Hour) + InMs((seconds % 3600 / 60) as real, Minute)
          + InMs((seconds % 60) as real, Second) == WholeSecond(ms)
  {
    SplitSeconds(seconds);
    AddParts(seconds / 3600, seconds % 3600 / 60, seconds % 60);
  }

  lemma ScanOptionalPart(s: string, i: nat, j: nat, n: nat, u: Unit, always: bool)
    requires !u.Milli? && i <= j <= |s| && s[i..j] == Part(n, u, always) && (j == |s| || IsDigit(s[j]))
    ensures Total(s, i) == InMs(n as real, u) + Total(s, j)
    ensures n > 0 || always ==> Found(s, i)
    ensures n == 0 && !always ==> i == j
  {
    hide Total, Found;
    if n > 0 || always {
      ScanPart(s, i, n, u);
    }
  }

  lemma AtEnd(s: string)
    ensures Total(s, |s|) == 0.0
  {
  }

  /** Where the three components stand, each followed by a digit or the end. */
  lemma ThreeParts(h: nat, m: nat, rest: nat)
    ensures var p, q, r := Part(h, Hour, false), Part(m, Minute, false), Part(rest, Second, h == 0 && m == 0);
      var s := p + (q + r);
      var j, k := |p|, |p| + |q|;
      && s[0..j] == p && s[j..k] == q && s[k..|s|] == r && (j == |s| || IsDigit(s[j])) && (k == |s| || IsDigit(s[k]))
  {
    hide Part;
    PartFacts(m, Minute, false);
    PartFacts(rest, Second, h == 0 && m == 0);
  }

  lemma ScanThreeParts(h: nat, m: nat, rest: nat)
    ensures var s := Part(h, Hour, false) + (Part(m, Minute, false) + Part(rest, Second, h == 0 && m == 0));
      && Found(s, 0)
      && Total(s, 0) == InMs(h as real, Hour) + InMs(m as real, Minute) + InMs(rest as real, Second)
  {
    hide Total, Found, InMs, Part;
    var zero := h == 0 && m == 0;
    var p, q, r := Part(h, Hour, false), Part(m, Minute, false), Part(rest, Second, zero);
    var s := p + (q + r);
    ThreeParts(h, m, rest);
    ScanOptionalPart(s, 0, |p|, h, Hour, false);
    ScanOptionalPart(s, |p|, |p| + |q|, m, Minute, false);
    ScanOptionalPart(s, |p| + |q|, |s|, rest, Second, zero);
    AtEnd(s);
  }

  lemma ScanFormatted(ms: real)
    ensures var s := FormatDuration(ms);
      Found(s, 0) && Total(s, 0) == if ms > 0.0 then WholeSecond(ms) else 0.0
  {
    hide Total, Found;
    var seconds := Ceil(ms / 1000.0);
    if seconds <= 0 {
      ScanThreeParts(0, 0, 0);
      assert Dec(0) == "0";
      assert Part(0, Hour, false) + (Part(0, Minute, false) + Part(0, Second, true)) == "0s";
    } else {
      ScanThreeParts(seconds / 3600, seconds % 3600 / 60, seconds % 60);
      SumOfParts(ms, seconds);
    }
  }

  lemma CleanText(s: string)
    requires s != "" && forall c <- s :: IsFormatChar(c)
    ensures Lower(Trim(s, JsSpace)) == s && Trim(Lower(s), GoSpace) == s && s != "-"
  {
    assert Trimmed(s, JsSpace) && Trimmed(s, GoSpace) && s != "-" by {
      assert s[0] in s && s[|s| - 1] in s;
      assert IsFormatChar(s[0]) && IsFormatChar(s[|s| - 1]);
    }
    LowerLower(s);
    TrimTrimmed(s, JsSpace);
    TrimTrimmed(s, GoSpace);
  }

  /** What formatDuration prints survives the trimming and folding of both readers. */
  lemma FormattedIsClean(ms: real)
    ensures var s := FormatDuration(ms);
      && Lower(Trim(s, JsSpace)) == s && Trim(Lower(s), GoSpace) == s && s != "" && s != "-"
      && (forall c <- s :: IsFormatChar(c))
  {
    var s := FormatDuration(ms);
    var seconds := Ceil(ms / 1000.0);
    if seconds <= 0 {
      assert forall c <- s :: IsFormatChar(c);
    } else {
      var h, m, rest := seconds / 3600, seconds % 3600 / 60, seconds % 60;
      PartFacts(h, Hour, false);
      PartFacts(m, Minute, false);
      PartFacts(rest, Second, h == 0 && m == 0);
    }
    CleanText(s);
  }

  /** Printing then parsing a duration gives the least whole second not below it
      (zero for anything that is not positive). */
  lemma ParseFormatted(ms: real)
    ensures ParseMs(FormatDuration(ms)) == Some(if ms > 0.0 then WholeSecond(ms) else 0.0)
  {
    var s := FormatDuration(ms);
    FormattedIsClean(ms);
    ScanFormatted(ms);
  }

  lemma ClockOf(n: nat, h: nat, m: nat, s: nat)
    requires n == 3600 * h + 60 * m + s && m < 60 && s < 60
    ensures n / 3600 == h && n % 3600 / 60 == m && n % 60 == s
  {
    assert n / 3600 == h && n % 3600 == 60 * m + s;
    assert (60 * m + s) / 60 == m;
    assert n == 60 * (60 * h + m) + s;
  }

  lemma SecondsOf(ms: real, n: nat)
    requires WholeSecond(ms) == 1000.0 * n as real
    ensures Ceil(ms / 1000.0) == n
  {
  }

  lemma SomeSeconds(ms: real, n: nat)
    requires ms > 0.0 && Ceil(ms / 1000.0) == n
    ensures n > 0
  {
  }

  /** The printed form: hours, minutes and seconds, minutes and seconds below sixty, zero parts left out. */
  lemma PrintedParts(ms: real, h: nat, m: nat, s: nat)
    requires m < 60 && s < 60 && ms > 0.0 && WholeSecond(ms) == 1000.0 * (3600 * h + 60 * m + s) as real
    ensures FormatDuration(ms) == (if h > 0 then Dec(h) + "h" else "") + ((if m > 0 then Dec(m) + "m" else "")
                                  + (if s > 0 || (h == 0 && m == 0) then Dec(s) + "s" else ""))
  {
    hide Dec, Ceil, WholeSecond;
    var n := 3600 * h + 60 * m + s;
    SecondsOf(ms, n);
    ClockOf(n, h, m, s);
    SomeSeconds(ms, n);
  }
}
