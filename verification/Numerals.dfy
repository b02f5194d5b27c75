/** Machine integers, and positional numerals: `${n}` and %d in base ten, BigInt.toString(16) in base sixteen. */
module Numerals {

  predicate IsDigit(c: char) {
    '0' <= c <= '9'
  }

  function DigitChar(d: nat): (c: char)
    requires d < 16
  {
    if d < 10 then ('0' as int + d) as char else ('a' as int + (d - 10)) as char
  }

  /** The value of a digit in either case, or 16 for any other character. */
  function DigitValue(c: char): (d: nat)
    ensures d <= 16
    ensures d < 10 <==> IsDigit(c)
  {
    if '0' <= c <= '9' then c as int - '0' as int
    else if 'a' <= c <= 'f' then c as int - 'a' as int + 10
    else if 'A' <= c <= 'F' then c as int - 'A' as int + 10
    else 16
  }

  datatype Base = Binary | Octal | Decimal | Hex

  function Radix(b: Base): (r: nat)
    ensures 2 <= r <= 16
  {
    match b
    case Binary => 2
    case Octal => 8
    case Decimal => 10
    case Hex => 16
  }

  /** n * Radix(b) + d. */
  function Shift(n: nat, b: Base, d: nat): nat {
    match b
    case Binary => n * 2 + d
    case Octal => n * 8 + d
    case Decimal => n * 10 + d
    case Hex => n * 16 + d
  }

  predicate IsNumeral(s: string, b: Base) {
    forall i :: 0 <= i < |s| ==> DigitValue(s[i]) < Radix(b)
  }

  /** The number a numeral stands for; the empty numeral stands for zero. */
  function Value(s: string, b: Base): nat {
    if s == "" then 0 else Shift(Value(s[..|s| - 1], b), b, DigitValue(s[|s| - 1]))
  }

  function Numeral(n: nat, b: Base): (s: string)
    ensures s != ""
    decreases n
  {
    if n < Radix(b) then [DigitChar(n)] else Numeral(n / Radix(b), b) + [DigitChar(n % Radix(b))]
  }

  /** Reading back what was written gives the same number, in every base. */
  lemma {:induction false} ValueOfNumeral(n: nat, b: Base)
    ensures Value(Numeral(n, b), b) == n
    decreases n
  {
    var s := Numeral(n, b);
    if n < Radix(b) {
    } else {
      ValueOfNumeral(n / Radix(b), b);
      assert s[..|s| - 1] == Numeral(n / Radix(b), b);
      assert Shift(n / Radix(b), b, n % Radix(b)) == n;
    }
  }

  lemma {:induction false} NumeralDigits(n: nat, b: Base)
    ensures IsNumeral(Numeral(n, b), b)
    decreases n
  {
    if n < Radix(b) {
    } else {
      NumeralDigits(n / Radix(b), b);
    }
  }

  predicate AllDigits(s: string) {
    forall c <- s :: IsDigit(c)
  }

  function Pow10(k: nat): (p: nat)
    ensures p >= 1
  {
    if k == 0 then 1 else 10 * Pow10(k - 1)
  }

  function Larger(x: int, y: int): int {
    if x >= y then x else y
  }

  lemma DivMod(n: nat, w: nat)
    requires 0 < w
    ensures n / w * w + n % w == n && 0 <= n % w < w && n / w >= 0
  {
  }

  /** The quotient by a tenth of a bound is a digit. */
  lemma QuotientIsDigit(n: nat, w: nat)
    requires 0 < w && n < 10 * w
    ensures n / w < 10
  {
    DivMod(n, w);
  }

  function Dec(n: nat): (s: string)
    ensures s != ""
  {
    Numeral(n, Decimal)
  }

  lemma DecDigits(n: nat)
    ensures AllDigits(Dec(n))
  {
    NumeralDigits(n, Decimal);
    var s := Dec(n);
    assert forall i :: 0 <= i < |s| ==> DigitValue(s[i]) < 10;
  }

  lemma DecStarts(n: nat)
    ensures IsDigit(Dec(n)[0])
  {
    DecDigits(n);
    assert Dec(n)[0] in Dec(n);
  }

  lemma DecInjective(m: nat, n: nat)
    requires Dec(m) == Dec(n)
    ensures m == n
  {
    ValueOfNumeral(m, Decimal);
    ValueOfNumeral(n, Decimal);
  }

  /** Where the run of digits that starts at a position ends. */
  function RunEnd(s: string, from: nat): (end: nat)
    requires from <= |s|
    ensures from <= end <= |s|
    decreases |s| - from
  {
    if from < |s| && IsDigit(s[from]) then RunEnd(s, from + 1) else from
  }

  lemma {:induction false} RunEndIs(s: string, from: nat, end: nat)
    requires from <= end <= |s|
    requires forall k :: from <= k < end ==> IsDigit(s[k])
    requires end < |s| ==> !IsDigit(s[end])
    ensures RunEnd(s, from) == end
    decreases end - from
  {
    if from >= end {
    } else {
      RunEndIs(s, from + 1, end);
    }
  }

  // ---------- machine integers ----------

  const TWO63: int := 0x8000_0000_0000_0000
  const TWO64: int := 0x1_0000_0000_0000_0000

  /** uint64 addition. */
  function AddU64(a: nat, b: nat): nat {
    (a + b) % TWO64
  }

  /** int64 arithmetic. */
  function Wrap64(x: int): int {
    (x + TWO63) % TWO64 - TWO63
  }
}
