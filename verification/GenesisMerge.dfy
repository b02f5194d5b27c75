/** Merging minimum balances into the genesis allocation (scripts/merge_alloc.js). */
module GenesisMerge {
  import opened Text
  import opened Numerals

  /** The JSON values that can stand where the script expects an address or a balance. */
  datatype Json = Str(s: string) | Whole(n: int) | Bool(b: bool) | Null | Fractional

  /** An account: its balance, if the field is there, and its other fields. */
  datatype Account = Account(balance: Option<Json>, fields: map<string, Json>)

  type Alloc = map<string, Account>

  // ---------- numbers as text ----------

  function Digits(s: string, b: Base): Option<int> {
    if s != "" && IsNumeral(s, b) then Some(Value(s, b)) else None
  }

  /** BigInt of a string: blank is zero, a prefix names the base, only decimals may have a sign. */
  function BigIntOfText(raw: string): Option<int> {
    var s := Trim(raw, JsSpace);
    if s == "" then Some(0)
    else if |s| >= 2 && s[0] == '0' && (s[1] == 'x' || s[1] == 'X') then Digits(s[2..], Hex)
    else if |s| >= 2 && s[0] == '0' && (s[1] == 'o' || s[1] == 'O') then Digits(s[2..], Octal)
    else if |s| >= 2 && s[0] == '0' && (s[1] == 'b' || s[1] == 'B') then Digits(s[2..], Binary)
    else if s[0] == '-' then (match Digits(s[1..], Decimal) case None => None case Some(n) => Some(-n))
    else if s[0] == '+' then Digits(s[1..], Decimal)
    else Digits(s, Decimal)
  }

  /** BigInt(value); None is the exception it throws. */
  function BigInt(v: Json): Option<int> {
    match v
    case Str(s) => BigIntOfText(s)
    case Whole(n) => Some(n)
    case Bool(b) => Some(if b then 1 else 0)
    case Null => None
    case Fractional => None
  }

  lemma DigitsOfDec(n: nat)
    ensures var d := Dec(n);
      && Digits(d, Decimal) == Some(n) && IsDigit(d[0]) && IsDigit(d[|d| - 1]) && (|d| >= 2 ==> IsDigit(d[1]))
  {
    hide Value, Numeral;
    NumeralDigits(n, Decimal);
    ValueOfNumeral(n, Decimal);
    DecDigits(n);
    var d := Dec(n);
    assert d[0] in d && d[|d| - 1] in d && (|d| >= 2 ==> d[1] in d);
  }

  lemma SignedDecimal(n: nat, sign: string)
    requires sign in {"", "-", "+"}
    ensures BigInt(Str(sign + Dec(n))) == Some(if sign == "-" then 0 - n else n)
  {
    hide Dec, Digits, Trim;
    DigitsOfDec(n);
    var d := Dec(n);
    var s := sign + d;
    assert sign == "" ==> s == d;
    assert sign != "" ==> s[1..] == d && s[0] == sign[0];
    assert s[|s| - 1] == d[|d| - 1];
    TrimTrimmed(s, JsSpace);
  }

  /** A balance in decimals reads as its number, with a sign or not; nothing reads as zero; a truth value as 1 or 0. */
  lemma DecimalBalances(n: nat)
    ensures BigInt(Str(Dec(n))) == Some(n)
    ensures BigInt(Str("-" + Dec(n))) == Some(0 - n) && BigInt(Str("+" + Dec(n))) == Some(n)
    ensures BigInt(Str("")) == Some(0) && BigInt(Bool(true)) == Some(1) && BigInt(Bool(false)) == Some(0)
    ensures BigInt(Null) == None && BigInt(Fractional) == None
  {
    hide Dec, Trim;
    SignedDecimal(n, "");
    SignedDecimal(n, "-");
    SignedDecimal(n, "+");
    assert "" + Dec(n) == Dec(n);
    TrimTrimmed("", JsSpace);
  }

  function ToQuantity(n: nat): string {
    "0x" + Numeral(n, Hex)
  }

  /** A quantity read back gives the same integer. */
  lemma QuantityRoundTrip(n: nat)
    ensures BigInt(Str(ToQuantity(n))) == Some(n)
  {
    hide Numeral, Value, Trim;
    var digits := Numeral(n, Hex);
    NumeralDigits(n, Hex);
    ValueOfNumeral(n, Hex);
    var s := ToQuantity(n);
    assert s[2..] == digits;
    assert s[|s| - 1] == digits[|digits| - 1] && DigitValue(digits[|digits| - 1]) < 16;
    TrimTrimmed(s, JsSpace);
  }

  // ---------- one request ----------

  /** normalizeAddress: 0x and forty hexadecimal digits, in the case given, after trimming. */
  function NormalizeAddress(addr: Json): Option<string> {
    if !addr.Str? then None
    else
      var t := Trim(addr.s, JsSpace);
      if |t| == 42 && t[0] == '0' && t[1] == 'x' && IsNumeral(t[2..], Hex) then Some(t) else None
  }

  lemma HexDigits(t: string)
    requires |t| == 42
    ensures IsNumeral(t[2..], Hex)
        <==> forall i :: 2 <= i < 42 ==> '0' <= t[i] <= '9' || 'a' <= t[i] <= 'f' || 'A' <= t[i] <= 'F'
  {
    forall i | 2 <= i < 42
      ensures DigitValue(t[2..][i - 2]) < 16 <==> '0' <= t[i] <= '9' || 'a' <= t[i] <= 'f' || 'A' <= t[i] <= 'F'
    {
      assert t[2..][i - 2] == t[i];
    }
    assert forall k :: 0 <= k < 40 ==> t[2..][k] == t[k + 2];
  }

  /** An address is taken exactly if, trimmed, it is 0x and forty hexadecimal digits; its letters keep their case. */
  lemma TakenAddress(addr: Json, key: string)
    ensures NormalizeAddress(addr) == Some(key) <==>
      && addr.Str? && key == Trim(addr.s, JsSpace) && |key| == 42 && "0x" <= key
      && forall i :: 2 <= i < 42 ==> '0' <= key[i] <= '9' || 'a' <= key[i] <= 'f' || 'A' <= key[i] <= 'F'
  {
    hide Trim, IsNumeral;
    if addr.Str? {
      var t := Trim(addr.s, JsSpace);
      if |t| == 42 {
        HexDigits(t);
      }
    }
  }

  /** The balance a request starts from: zero when there is none or it is no number. */
  function Current(a: Account): int {
    if a.balance.Some? && BigInt(a.balance.value).Some? then BigInt(a.balance.value).value else 0
  }

  const NOBODY := Account(None, map[])

  function OrNobody(a: Option<Account>): Account {
    if a.Some? then a.value else NOBODY
  }

  /** The account after a request for a minimum: left alone if its balance is there and high enough. */
  function Raised(a: Account, minimum: nat): Account {
    if a.balance.Some? && Current(a) >= minimum then a
    else a.(balance := Some(Str(ToQuantity(Larger(Current(a), minimum)))))
  }

  function Lookup(alloc: Alloc, key: string): Option<Account> {
    if key in alloc then Some(alloc[key]) else None
  }

  datatype Request = Request(addr: Json, minimum: nat)

  function Ensured(alloc: Alloc, r: Request): Alloc {
    match NormalizeAddress(r.addr)
    case None => alloc
    case Some(key) => alloc[key := Raised(OrNobody(Lookup(alloc, key)), r.minimum)]
  }

  function Fold(alloc: Alloc, requests: seq<Request>): Alloc {
    if requests == [] then alloc else Ensured(Fold(alloc, requests[..|requests| - 1]), requests[|requests| - 1])
  }

  function ForAll(addrs: seq<Json>, minimum: nat): (r: seq<Request>)
    ensures |r| == |addrs| && forall i :: 0 <= i < |addrs| ==> r[i] == Request(addrs[i], minimum)
  {
    seq(|addrs|, i requires 0 <= i < |addrs| => Request(addrs[i], minimum))
  }

  /** The script's inputs: who is to be funded, and with how much. */
  datatype Inputs = Inputs(
    funder: Json, validators: seq<Json>, signers: seq<Json>, feeAddresses: seq<Json>,
    overrideValidators: seq<Json>, overrideSigners: seq<Json>,
    funderBalance: nat, validatorBalance: nat, signerBalance: nat, feeBalance: nat)

  function Requests(i: Inputs): seq<Request> {
    [Request(i.funder, i.funderBalance)] + ForAll(i.validators, i.validatorBalance) + ForAll(i.signers, i.signerBalance)
    + ForAll(i.feeAddresses, i.feeBalance) + ForAll(i.overrideValidators, i.validatorBalance)
    + ForAll(i.overrideSigners, i.signerBalance)
  }

  lemma InForAll(addrs: seq<Json>, minimum: nat, r: Request)
    ensures r in ForAll(addrs, minimum) <==> r.addr in addrs && r.minimum == minimum
  {
    var s := ForAll(addrs, minimum);
    if r.addr in addrs && r.minimum == minimum {
      var k :| 0 <= k < |addrs| && addrs[k] == r.addr;
      assert s[k] == r;
    }
  }

  /** Who is asked for how much: the funder for its balance, every validator in either list for a validator's, every
      signer in either list for a signer's, every fee address for a fee address's - and nobody else for anything. */
  lemma RequestsInFull(i: Inputs, r: Request)
    ensures r in Requests(i) <==>
      || r == Request(i.funder, i.funderBalance)
      || ((r.addr in i.validators || r.addr in i.overrideValidators) && r.minimum == i.validatorBalance)
      || ((r.addr in i.signers || r.addr in i.overrideSigners) && r.minimum == i.signerBalance)
      || (r.addr in i.feeAddresses && r.minimum == i.feeBalance)
  {
    hide ForAll;
    InForAll(i.validators, i.validatorBalance, r);
    InForAll(i.signers, i.signerBalance, r);
    InForAll(i.feeAddresses, i.feeBalance, r);
    InForAll(i.overrideValidators, i.validatorBalance, r);
    InForAll(i.overrideSigners, i.signerBalance, r);
  }

  lemma FoldOne(alloc: Alloc, r: Request)
    ensures Fold(alloc, [r]) == Ensured(alloc, r)
  {
    hide Ensured;
    assert [r][..0] == [];
  }

  lemma {:induction false} FoldAppend(alloc: Alloc, a: seq<Request>, b: seq<Request>)
    ensures Fold(alloc, a + b) == Fold(Fold(alloc, a), b)
  {
    hide Ensured;
    if b == [] {
      assert a + b == a;
    } else {
      FoldAppend(alloc, a, b[..|b| - 1]);
      assert (a + b)[..|a + b| - 1] == a + b[..|b| - 1];
    }
  }

  /** The shared alloc object that ensureBalance overwrites entries of. */
  class Merger {
    var alloc: Alloc

    constructor (sysContracts: Alloc)
      ensures alloc == sysContracts
    {
      alloc := sysContracts;
    }

    /** ensureBalance. */
    method EnsureBalance(addr: Json, minimumBalance: nat)
      modifies this
      ensures alloc == Ensured(old(alloc), Request(addr, minimumBalance))
    {
      hide BigInt, ToQuantity;
      var normalized := NormalizeAddress(addr);
      if normalized.None? {
        return;
      }
      var key := normalized.value;
      var existing := if key in alloc then alloc[key] else NOBODY;
      var currentBalance := 0;
      if existing.balance.Some? {
        var parsed := BigInt(existing.balance.value);
        currentBalance := if parsed.Some? then parsed.value else 0;
      }
      if existing.balance.Some? && currentBalance >= minimumBalance {
        alloc := alloc[key := existing];
        return;
      }
      var targetBalance: nat := if currentBalance >= minimumBalance then currentBalance else minimumBalance;
      alloc := alloc[key := existing.(balance := Some(Str(ToQuantity(targetBalance))))];
    }

    /** One forEach over an address list. */
    method EnsureAll(addrs: seq<Json>, minimumBalance: nat)
      modifies this
      ensures alloc == Fold(old(alloc), ForAll(addrs, minimumBalance))
    {
      hide Ensured;
      ghost var requests := ForAll(addrs, minimumBalance);
      for i := 0 to |addrs|
        invariant alloc == Fold(old(alloc), requests[..i])
      {
        assert requests[..i + 1][..i] == requests[..i];
        EnsureBalance(addrs[i], minimumBalance);
      }
      assert requests[..|addrs|] == requests;
    }

    /** The folds of the main block, in their order. */
    method MergeAll(i: Inputs)
      modifies this
      ensures alloc == Fold(old(alloc), Requests(i))
    {
      hide Fold, Ensured;
      ghost var before := alloc;
      ghost var done := [Request(i.funder, i.funderBalance)];
      EnsureBalance(i.funder, i.funderBalance);
      FoldOne(before, done[0]);
      EnsureAll(i.validators, i.validatorBalance);
      FoldAppend(before, done, ForAll(i.validators, i.validatorBalance));
      done := done + ForAll(i.validators, i.validatorBalance);
      EnsureAll(i.signers, i.signerBalance);
      FoldAppend(before, done, ForAll(i.signers, i.signerBalance));
      done := done + ForAll(i.signers, i.signerBalance);
      EnsureAll(i.feeAddresses, i.feeBalance);
      FoldAppend(before, done, ForAll(i.feeAddresses, i.feeBalance));
      done := done + ForAll(i.feeAddresses, i.feeBalance);
      EnsureAll(i.overrideValidators, i.validatorBalance);
      FoldAppend(before, done, ForAll(i.overrideValidators, i.validatorBalance));
      done := done + ForAll(i.overrideValidators, i.validatorBalance);
      EnsureAll(i.overrideSigners, i.signerBalance);
      FoldAppend(before, done, ForAll(i.overrideSigners, i.signerBalance));
    }
  }

  // ---------- all requests ----------

  predicate For(r: Request, key: string) {
    NormalizeAddress(r.addr) == Some(key)
  }

  /** The largest minimum requested for a key. */
  function MaxFor(requests: seq<Request>, key: string): Option<nat> {
    if requests == [] then None
    else
      var m, last := MaxFor(requests[..|requests| - 1], key), requests[|requests| - 1];
      if !For(last, key) then m
      else if m.Some? && m.value >= last.minimum then m
      else Some(last.minimum)
  }

  lemma {:induction false} MaxForFacts(requests: seq<Request>, key: string)
    ensures var m := MaxFor(requests, key);
      && (m.None? <==> forall r <- requests :: !For(r, key))
      && (m.Some? ==> exists r <- requests :: For(r, key) && r.minimum == m.value)
      && (m.Some? ==> forall r <- requests :: For(r, key) ==> r.minimum <= m.value)
  {
    hide For;
    if requests == [] {
    } else {
      var n := |requests| - 1;
      MaxForFacts(requests[..n], key);
      assert requests[n] in requests && forall r <- requests[..n] :: r in requests;
      assert forall r <- requests :: r in requests[..n] || r == requests[n];
    }
  }

  /** Two requests amount to one for the larger minimum. */
  lemma RaisedTwice(a: Account, m: nat, n: nat)
    ensures Raised(Raised(a, m), n) == Raised(a, Larger(m, n))
  {
    hide BigInt, ToQuantity;
    QuantityRoundTrip(Larger(Current(a), m));
  }

  /** The whole merge, key by key: a key nobody asked for keeps its entry; any other ends as one request for the
      largest of its minimums would leave it. */
  lemma {:induction false} FoldAt(alloc: Alloc, requests: seq<Request>, key: string)
    ensures var m := MaxFor(requests, key);
      Lookup(Fold(alloc, requests), key)
      == if m.None? then Lookup(alloc, key) else Some(Raised(OrNobody(Lookup(alloc, key)), m.value))
  {
    hide Raised, NormalizeAddress;
    if requests == [] {
    } else {
      var n := |requests| - 1;
      FoldAt(alloc, requests[..n], key);
      var m := MaxFor(requests[..n], key);
      if m.Some? {
        RaisedTwice(OrNobody(Lookup(alloc, key)), m.value, requests[n].minimum);
      }
    }
  }

  lemma SameAlloc(a: Alloc, b: Alloc)
    requires forall key :: Lookup(a, key) == Lookup(b, key)
    ensures a == b
  {
    forall key
      ensures key in a <==> key in b
      ensures key in a ==> a[key] == b[key]
    {
      assert Lookup(a, key) == Lookup(b, key);
    }
  }

  /** Pointwise maximum: a requested key holds the larger of its initial balance - zero if missing or unreadable -
      and every minimum requested for it; its other fields, and all other entries, are untouched. */
  lemma MergeIsPointwiseMaximum(alloc: Alloc, requests: seq<Request>, key: string)
    ensures var before, after := OrNobody(Lookup(alloc, key)), Lookup(Fold(alloc, requests), key);
      var m := MaxFor(requests, key);
      && (m.None? ==> after == Lookup(alloc, key))
      && (m.Some? ==>
            && after.Some? && after.value.fields == before.fields
            && Current(after.value) == Larger(Current(before), m.value)
            && after.value.balance.Some?
            // only an unreadable balance that nobody raises stays unreadable
            && (BigInt(after.value.balance.value).None? <==>
                  before.balance.Some? && BigInt(before.balance.value).None? && m.value == 0))
  {
    hide BigInt, ToQuantity, Fold, MaxFor;
    FoldAt(alloc, requests, key);
    var m := MaxFor(requests, key);
    if m.Some? {
      QuantityRoundTrip(Larger(Current(OrNobody(Lookup(alloc, key))), m.value));
    }
  }

  lemma SameMaximum(a: seq<Request>, b: seq<Request>, key: string)
    requires forall r :: r in a <==> r in b
    ensures MaxFor(a, key) == MaxFor(b, key)
  {
    hide For, MaxFor;
    MaxForFacts(a, key);
    MaxForFacts(b, key);
  }

  /** The result - to the letter, not just its numbers - is the same for any order of the requests,
      and for any repetition of them. */
  lemma MergeIgnoresOrder(alloc: Alloc, a: seq<Request>, b: seq<Request>)
    requires forall r :: r in a <==> r in b
    ensures Fold(alloc, a) == Fold(alloc, b)
  {
    hide Fold, MaxFor, Raised, Lookup;
    forall key
      ensures Lookup(Fold(alloc, a), key) == Lookup(Fold(alloc, b), key)
    {
      FoldAt(alloc, a, key);
      FoldAt(alloc, b, key);
      SameMaximum(a, b, key);
    }
    SameAlloc(Fold(alloc, a), Fold(alloc, b));
  }

  /** Merging again changes nothing. */
  lemma MergeIsIdempotent(alloc: Alloc, requests: seq<Request>)
    ensures Fold(Fold(alloc, requests), requests) == Fold(alloc, requests)
  {
    hide Fold;
    FoldAppend(alloc, requests, requests);
    MergeIgnoresOrder(alloc, requests + requests, requests);
  }
}
