/** The recommender's statistics: interpolated quantiles, tiered rounding and the raw
    recommendation per group (scripts/recommend_budgets.js). Milliseconds are reals. */
module Budgets {
  import opened Text
  import opened Sorting
  import opened Durations

  // ---------- quantile ----------

  lemma ScaledByFraction(x: real, q: real)
    requires x >= 0.0 && 0.0 <= q <= 1.0
    ensures 0.0 <= x * q <= x
  {
    assert x * (1.0 - q) >= 0.0;
  }

  /** The position (n - 1) * q and its floor. */
  function Position(n: nat, q: real): (p: real)
    requires n > 0 && 0.0 <= q <= 1.0
    ensures 0.0 <= p <= (n - 1) as real
  {
    ScaledByFraction((n - 1) as real, q);
    (n - 1) as real * q
  }

  function Interpolate(arr: seq<real>, pos: real): real
    requires arr != [] && 0.0 <= pos <= (|arr| - 1) as real
  {
    var base := pos.Floor;
    if base + 1 >= |arr| then arr[base] else arr[base] + (pos - base as real) * (arr[base + 1] - arr[base])
  }

  function Quantile(values: seq<real>, q: real): (r: Option<real>)
    requires 0.0 <= q <= 1.0
    ensures r.None? <==> values == []
  {
    if values == [] then None
    else
      var arr := Sort(values, RealLe);
      if |arr| == 1 then Some(arr[0]) else Some(Interpolate(arr, Position(|arr|, q)))
  }

  /** How many of the values are at most x. */
  function CountAtMost(values: seq<real>, x: real): nat {
    if values == [] then 0 else (if values[0] <= x then 1 else 0) + CountAtMost(values[1..], x)
  }

  /** b holds the same number of samples as a, and in some order each is at least its partner in a. */
  ghost predicate PointwiseSlower(a: seq<real>, b: seq<real>) {
    exists c: seq<real> :: multiset(c) == multiset(b) && |c| == |a| && forall i :: 0 <= i < |a| ==> a[i] <= c[i]
  }

  lemma RealOrder()
    ensures TotalPreorder(RealLe) && Antisymmetric(RealLe)
  {
  }

  lemma {:induction false} CountInsert(v: real, s: seq<real>, x: real)
    ensures CountAtMost(Insert(v, s, RealLe), x) == (if v <= x then 1 else 0) + CountAtMost(s, x)
  {
    if s == [] {
    } else if RealLe(v, s[0]) {
      assert ([v] + s)[1..] == s;
    } else {
      CountInsert(v, s[1..], x);
      assert ([s[0]] + Insert(v, s[1..], RealLe))[1..] == Insert(v, s[1..], RealLe);
    }
  }

  lemma {:induction false} CountSort(s: seq<real>, x: real)
    ensures CountAtMost(Sort(s, RealLe), x) == CountAtMost(s, x)
  {
    if s == [] {
    } else {
      CountSort(s[1..], x);
      CountInsert(s[0], Sort(s[1..], RealLe), x);
    }
  }

  lemma {:induction false} CountPointwise(a: seq<real>, b: seq<real>, x: real)
    requires |a| == |b| && forall i :: 0 <= i < |a| ==> a[i] <= b[i]
    ensures CountAtMost(b, x) <= CountAtMost(a, x)
  {
    if a == [] {
    } else {
      CountPointwise(a[1..], b[1..], x);
    }
  }

  lemma {:induction false} NoneAtMost(s: seq<real>, x: real)
    requires s != [] && s[0] > x && SortedBy(s, RealLe)
    ensures CountAtMost(s, x) == 0
  {
    if |s| <= 1 {
    } else {
      assert RealLe(s[0], s[1]);
      NoneAtMost(s[1..], x);
    }
  }

  /** In an ordered list the k-th value is at most x exactly when more than k values are. */
  lemma {:induction false} CountSorted(s: seq<real>, k: nat, x: real)
    requires SortedBy(s, RealLe) && k < |s|
    ensures s[k] <= x <==> CountAtMost(s, x) > k
  {
    if k == 0 {
      if s[0] > x {
        NoneAtMost(s, x);
      }
    } else {
      CountSorted(s[1..], k - 1, x);
      if s[0] > x {
        NoneAtMost(s, x);
        assert RealLe(s[0], s[k]);
      }
    }
  }

  /** Every order statistic rises when samples get slower. */
  lemma OrderStatisticsRise(a: seq<real>, b: seq<real>, k: nat)
    requires PointwiseSlower(a, b) && k < |a|
    ensures |b| == |a| && Sort(a, RealLe)[k] <= Sort(b, RealLe)[k]
  {
    var c: seq<real> :| multiset(c) == multiset(b) && |c| == |a| && forall i :: 0 <= i < |a| ==> a[i] <= c[i];
    RealOrder();
    SortPermuted(b, c, RealLe);
    SortSorted(a, RealLe);
    SortSorted(c, RealLe);
    var x := Sort(c, RealLe)[k];
    CountSorted(Sort(c, RealLe), k, x);
    CountSorted(Sort(a, RealLe), k, x);
    CountSort(a, x);
    CountSort(c, x);
    CountPointwise(a, c, x);
  }

  /** Interpolation is monotone in the values at both ends. */
  lemma Between(x0: real, x1: real, y0: real, y1: real, t: real)
    requires x0 <= y0 && x1 <= y1 && 0.0 <= t <= 1.0
    ensures x0 + t * (x1 - x0) <= y0 + t * (y1 - y0)
  {
    assert (1.0 - t) * (y0 - x0) >= 0.0;
    assert t * (y1 - x1) >= 0.0;
  }

  /** Slower samples, in any order, never lower the quantile. */
  lemma QuantileMonotone(a: seq<real>, b: seq<real>, q: real)
    requires PointwiseSlower(a, b) && a != [] && 0.0 <= q <= 1.0
    ensures b != [] && Quantile(a, q).value <= Quantile(b, q).value
  {
    hide Sort, Position;
    OrderStatisticsRise(a, b, 0);
    if |a| > 1 {
      var pos := Position(|a|, q);
      var base := pos.Floor;
      OrderStatisticsRise(a, b, base);
      if base + 1 < |a| {
        OrderStatisticsRise(a, b, base + 1);
        var sa, sb := Sort(a, RealLe), Sort(b, RealLe);
        Between(sa[base], sa[base + 1], sb[base], sb[base + 1], pos - base as real);
      }
    }
  }

  lemma InterpolateAbove(arr: seq<real>, pos: real)
    requires arr != [] && 0.0 <= pos <= (|arr| - 1) as real
    requires pos.Floor + 1 < |arr| ==> arr[pos.Floor] <= arr[pos.Floor + 1]
    ensures Interpolate(arr, pos) >= arr[pos.Floor]
  {
    var base := pos.Floor;
    if base + 1 < |arr| {
      Between(arr[base], arr[base], arr[base], arr[base + 1], pos - base as real);
    }
  }

  /** The quantile is at least the order statistic at the floor of its position. */
  lemma QuantileCovers(values: seq<real>, q: real)
    requires values != [] && 0.0 <= q <= 1.0
    ensures CountAtMost(values, Quantile(values, q).value) >= Position(|values|, q).Floor + 1
  {
    hide Sort, Position, CountAtMost, Insert, Interpolate;
    RealOrder();
    SortSorted(values, RealLe);
    var arr := Sort(values, RealLe);
    var base := Position(|values|, q).Floor;
    var x := Quantile(values, q).value;
    if base + 1 < |arr| {
      assert RealLe(arr[base], arr[base + 1]);
    }
    InterpolateAbove(arr, Position(|values|, q));
    CountSorted(arr, base, x);
    CountSort(values, x);
  }

  lemma Blend(a: real, b: real, t: real)
    ensures a + t * (b - a) == (1.0 - t) * a + t * b
  {
  }

  lemma InterpolateAt(arr: seq<real>, pos: real, k: nat, t: real)
    requires k + 1 < |arr| && 0.0 <= t <= 1.0 && pos == k as real + t
    ensures Interpolate(arr, pos) == (1.0 - t) * arr[k] + t * arr[k + 1]
  {
    if t == 1.0 {
      assert pos.Floor == k + 1;
    } else {
      assert pos.Floor == k;
      Blend(arr[k], arr[k + 1], t);
    }
  }

  /** It is linear between neighbouring order statistics, and equal to them at the whole positions: with the
      position k + t, it is 1 - t parts of the k-th and t parts of the next. */
  lemma QuantileIsPiecewiseLinear(values: seq<real>, q: real, k: nat, t: real)
    requires k + 1 < |values| && 0.0 <= q <= 1.0 && 0.0 <= t <= 1.0
    requires (|values| - 1) as real * q == k as real + t
    ensures var arr := Sort(values, RealLe);
      |arr| == |values| && Quantile(values, q).value == (1.0 - t) * arr[k] + t * arr[k + 1]
  {
    hide Sort, Interpolate;
    var arr := Sort(values, RealLe);
    InterpolateAt(arr, Position(|arr|, q), k, t);
  }

  lemma {:induction false} CountRises(values: seq<real>, x: real, y: real)
    requires x <= y
    ensures CountAtMost(values, x) <= CountAtMost(values, y)
  {
    if values == [] {
    } else {
      CountRises(values[1..], x, y);
    }
  }

  // ---------- tiered rounding ----------

  function Max(x: real, y: real): real {
    if x >= y then x else y
  }

  function RoundUp(ms: real, quantum: real): real
    requires quantum > 0.0
  {
    Ceil(ms / quantum) as real * quantum
  }

  function RoundGroupBudget(ms: real): real {
    var v := Max(ms, 30_000.0);
    if v <= 120_000.0 then RoundUp(v, 15_000.0)
    else if v <= 600_000.0 then RoundUp(v, 30_000.0)
    else RoundUp(v, 60_000.0)
  }

  function RoundSlowBudget(ms: real): real {
    var v := Max(ms, 5_000.0);
    if v <= 30_000.0 then RoundUp(v, 1_000.0)
    else if v <= 120_000.0 then RoundUp(v, 5_000.0)
    else RoundUp(v, 10_000.0)
  }

  lemma Quotient(x: real, y: real, quantum: real)
    requires quantum > 0.0 && x * quantum <= y * quantum
    ensures x <= y
  {
    assert (x - y) * quantum <= 0.0;
  }

  /** Rounding up gives the least multiple of the quantum not below the value. */
  lemma RoundUpIsLeast(v: real, quantum: real, m: int)
    requires quantum > 0.0
    ensures v <= RoundUp(v, quantum)
    ensures v <= m as real * quantum ==> RoundUp(v, quantum) <= m as real * quantum
  {
    var n := Ceil(v / quantum);
    var x := v / quantum;
    assert x * quantum == v;
    assert (n as real - x) * quantum >= 0.0;
    if v <= m as real * quantum {
      Quotient(x, m as real, quantum);
      assert n <= m;
      assert (m as real - n as real) * quantum >= 0.0;
    }
  }

  /** Within one tier that ends at a multiple of its quantum, rounding stays in the tier, keeps order
      and leaves what it gives alone. */
  lemma TierRounding(x: real, y: real, quantum: real, top: int)
    requires quantum > 0.0 && x <= y
    ensures x <= RoundUp(x, quantum) <= RoundUp(y, quantum)
    ensures RoundUp(RoundUp(x, quantum), quantum) == RoundUp(x, quantum)
    ensures x <= top as real * quantum ==> RoundUp(x, quantum) <= top as real * quantum
  {
    var n := Ceil(y / quantum);
    RoundUpIsLeast(y, quantum, n);
    RoundUpIsLeast(x, quantum, n);
    RoundUpIsLeast(x, quantum, top);
    RoundUpIsLeast(RoundUp(x, quantum), quantum, Ceil(x / quantum));
  }

  lemma CeilOfWhole(n: int)
    ensures Ceil(n as real) == n
  {
  }

  lemma WholeSeconds(n: int)
    ensures WholeSecond(1000.0 * n as real) == 1000.0 * n as real
  {
    var x := n as real;
    CeilOfWhole(n);
    assert 1000.0 * x / 1000.0 == x;
  }

  lemma WholeTiers(v: real)
    ensures var r := RoundUp(v, 15_000.0); WholeSecond(r) == r
    ensures var r := RoundUp(v, 30_000.0); WholeSecond(r) == r
    ensures var r := RoundUp(v, 60_000.0); WholeSecond(r) == r
    ensures var r := RoundUp(v, 1_000.0); WholeSecond(r) == r
    ensures var r := RoundUp(v, 5_000.0); WholeSecond(r) == r
    ensures var r := RoundUp(v, 10_000.0); WholeSecond(r) == r
  {
    hide WholeSecond;
    WholeSeconds(15 * Ceil(v / 15_000.0));
    WholeSeconds(30 * Ceil(v / 30_000.0));
    WholeSeconds(60 * Ceil(v / 60_000.0));
    WholeSeconds(Ceil(v / 1_000.0));
    WholeSeconds(5 * Ceil(v / 5_000.0));
    WholeSeconds(10 * Ceil(v / 10_000.0));
  }

  predicate IsMultiple(v: real, quantum: real)
    requires quantum > 0.0
  {
    (v / quantum).Floor as real == v / quantum
  }

  /** The budgets to choose from: multiples of 15 s from 30 s to 2 min, of 30 s to 10 min, of a minute beyond. */
  predicate IsGroupBudget(v: real) {
    || (30_000.0 <= v <= 120_000.0 && IsMultiple(v, 15_000.0))
    || (120_000.0 <= v <= 600_000.0 && IsMultiple(v, 30_000.0))
    || (600_000.0 <= v && IsMultiple(v, 60_000.0))
  }

  /** Multiples of a second from 5 s to 30 s, of 5 s to 2 min, of 10 s beyond. */
  predicate IsSlowBudget(v: real) {
    || (5_000.0 <= v <= 30_000.0 && IsMultiple(v, 1_000.0))
    || (30_000.0 <= v <= 120_000.0 && IsMultiple(v, 5_000.0))
    || (120_000.0 <= v && IsMultiple(v, 10_000.0))
  }

  lemma LeastMultiple(v: real, quantum: real, a: real)
    requires quantum > 0.0
    ensures v <= RoundUp(v, quantum) && IsMultiple(RoundUp(v, quantum), quantum)
    ensures v <= a && IsMultiple(a, quantum) ==> RoundUp(v, quantum) <= a
  {
    var n := Ceil(v / quantum);
    var x := n as real * quantum / quantum;
    assert x * quantum == n as real * quantum;
    Quotient(x, n as real, quantum);
    Quotient(n as real, x, quantum);
    RoundUpIsLeast(v, quantum, n);
    if IsMultiple(a, quantum) {
      var m := (a / quantum).Floor;
      assert a / quantum * quantum == a;
      RoundUpIsLeast(v, quantum, m);
    }
  }

  /** Rounding a group budget gives the least of them that is not below the value. */
  lemma LeastGroupBudget(x: real, a: real)
    ensures x <= RoundGroupBudget(x) && IsGroupBudget(RoundGroupBudget(x))
    ensures x <= a && IsGroupBudget(a) ==> RoundGroupBudget(x) <= a
  {
    hide RoundUp, IsMultiple;
    var v := Max(x, 30_000.0);
    LeastMultiple(v, 15_000.0, a);
    LeastMultiple(v, 30_000.0, a);
    LeastMultiple(v, 60_000.0, a);
    RoundUpIsLeast(v, 15_000.0, 8);
    RoundUpIsLeast(v, 30_000.0, 20);
  }

  /** And so for the slow-test threshold. */
  lemma LeastSlowBudget(x: real, a: real)
    ensures x <= RoundSlowBudget(x) && IsSlowBudget(RoundSlowBudget(x))
    ensures x <= a && IsSlowBudget(a) ==> RoundSlowBudget(x) <= a
  {
    hide RoundUp, IsMultiple;
    var v := Max(x, 5_000.0);
    LeastMultiple(v, 1_000.0, a);
    LeastMultiple(v, 5_000.0, a);
    LeastMultiple(v, 10_000.0, a);
    RoundUpIsLeast(v, 1_000.0, 30);
    RoundUpIsLeast(v, 5_000.0, 24);
  }

  /** Across the tiers, rounding group budgets is a closure: it never lowers, keeps order and is
      idempotent; and what it gives is a positive whole number of seconds. */
  lemma GroupRounding(x: real, y: real)
    ensures RoundGroupBudget(x) >= x
    ensures x <= y ==> RoundGroupBudget(x) <= RoundGroupBudget(y)
    ensures RoundGroupBudget(RoundGroupBudget(x)) == RoundGroupBudget(x)
    ensures RoundGroupBudget(x) >= 30_000.0 && WholeSecond(RoundGroupBudget(x)) == RoundGroupBudget(x)
  {
    hide RoundUp, WholeSecond;
    var v := Max(x, 30_000.0);
    var w := if x <= y then Max(y, 30_000.0) else v;
    TierRounding(v, w, 15_000.0, 8);
    TierRounding(v, w, 30_000.0, 20);
    TierRounding(v, w, 60_000.0, 0);
    TierRounding(w, w, 30_000.0, 20);
    TierRounding(w, w, 60_000.0, 0);
    WholeTiers(v);
  }

  /** The same for the slow-test threshold. */
  lemma SlowRounding(x: real, y: real)
    ensures RoundSlowBudget(x) >= x
    ensures x <= y ==> RoundSlowBudget(x) <= RoundSlowBudget(y)
    ensures RoundSlowBudget(RoundSlowBudget(x)) == RoundSlowBudget(x)
    ensures RoundSlowBudget(x) > 0.0 && WholeSecond(RoundSlowBudget(x)) == RoundSlowBudget(x)
  {
    hide RoundUp, WholeSecond;
    var v := Max(x, 5_000.0);
    var w := if x <= y then Max(y, 5_000.0) else v;
    TierRounding(v, w, 1_000.0, 30);
    TierRounding(v, w, 5_000.0, 24);
    TierRounding(v, w, 10_000.0, 0);
    TierRounding(w, w, 5_000.0, 24);
    TierRounding(w, w, 10_000.0, 0);
    WholeTiers(v);
  }

  // ---------- budgets ----------

  function Product(x: real, y: real): real {
    x * y
  }

  /** The suggested budget of a group: the quantile with headroom, rounded up by tiers. */
  function Budget(durations: seq<real>, q: real, headroom: real): real
    requires durations != [] && 0.0 <= q <= 1.0
  {
    RoundGroupBudget(Product(Quantile(durations, q).value, headroom))
  }

  lemma Scale(x: real, y: real, factor: real)
    requires x <= y && factor >= 0.0
    ensures Product(x, factor) <= Product(y, factor)
  {
    assert (y - x) * factor >= 0.0;
  }

  /** Slower samples, in any order, never lower the budget. */
  lemma BudgetMonotone(a: seq<real>, b: seq<real>, q: real, headroom: real)
    requires PointwiseSlower(a, b) && a != [] && 0.0 <= q <= 1.0 && headroom > 0.0
    ensures b != [] && Budget(a, q, headroom) <= Budget(b, q, headroom)
  {
    hide Quantile, RoundGroupBudget, Product;
    QuantileMonotone(a, b, q);
    var x, y := Quantile(a, q).value, Quantile(b, q).value;
    Scale(x, y, headroom);
    GroupRounding(Product(x, headroom), Product(y, headroom));
  }

  lemma BudgetAbove(x: real, headroom: real)
    requires headroom >= 1.0
    ensures RoundGroupBudget(Product(x, headroom)) >= x
  {
    hide RoundGroupBudget;
    GroupRounding(Product(x, headroom), 0.0);
    if x >= 0.0 {
      assert x * (headroom - 1.0) >= 0.0;
    }
  }

  /** With headroom at least 1, at least floor((n - 1) q) + 1 of the n samples fit the budget,
      whatever their sign. */
  lemma BudgetCovers(durations: seq<real>, q: real, headroom: real)
    requires durations != [] && 0.0 <= q <= 1.0 && headroom >= 1.0
    ensures CountAtMost(durations, Budget(durations, q, headroom)) >= Position(|durations|, q).Floor + 1
  {
    hide Quantile, Position, CountAtMost, RoundGroupBudget, Product;
    QuantileCovers(durations, q);
    var x := Quantile(durations, q).value;
    BudgetAbove(x, headroom);
    CountRises(durations, x, Budget(durations, q, headroom));
  }

  /** The budget is the least one to choose from that is not below the quantile times the headroom. */
  lemma BudgetIsLeast(durations: seq<real>, q: real, headroom: real)
    requires durations != [] && 0.0 <= q <= 1.0
    ensures var b, x := Budget(durations, q, headroom), Quantile(durations, q).value * headroom;
      && IsGroupBudget(b) && b >= x
      && forall a :: IsGroupBudget(a) && a >= x ==> b <= a
  {
    hide Quantile, RoundGroupBudget, IsGroupBudget;
    var x := Product(Quantile(durations, q).value, headroom);
    LeastGroupBudget(x, x);
    forall a | IsGroupBudget(a) && a >= x
      ensures RoundGroupBudget(x) <= a
    {
      LeastGroupBudget(x, a);
    }
  }

  predicate Arguments(q: real, headroom: real) {
    0.0 <= q <= 1.0 && headroom > 0.0
  }

  ghost function GroupBudgets(samples: map<string, seq<real>>, q: real, headroom: real): map<string, real>
    requires Arguments(q, headroom)
  {
    map g | g in samples && samples[g] != [] :: Budget(samples[g], q, headroom)
  }

  ghost predicate IsLargest(x: real, values: map<string, real>) {
    && (exists g :: g in values && values[g] == x)
    && forall g :: g in values ==> values[g] <= x
  }

  /** Math.max over the recommended values, with a group that attains it. */
  method Largest(values: map<string, real>) returns (largest: string, highest: real)
    requires values != map[]
    ensures largest in values && highest == values[largest] && IsLargest(highest, values)
  {
    largest :| largest in values;
    highest := values[largest];
    var rest := values.Keys - {largest};
    while rest != {}
      invariant rest <= values.Keys && largest in values && highest == values[largest]
      invariant forall g :: g in values && g !in rest ==> values[g] <= highest
      decreases |rest|
    {
      var g :| g in rest;
      rest := rest - {g};
      if values[g] >= highest {
        largest, highest := g, values[g];
      }
    }
  }

  lemma RoundedBudget(durations: seq<real>, q: real, headroom: real)
    requires durations != [] && Arguments(q, headroom)
    ensures RoundGroupBudget(Budget(durations, q, headroom)) == Budget(durations, q, headroom)
  {
    hide RoundGroupBudget, Quantile, Product;
    var x := Product(Quantile(durations, q).value, headroom);
    GroupRounding(x, x);
  }

  /** The recommendation loop of main: a budget for every group with samples, and as default the
      rounded maximum of the budgets - which, rounding being idempotent, is the largest budget itself. */
  method RecommendGroups(samples: map<string, seq<real>>, q: real, headroom: real)
    returns (recommended: map<string, real>, sampleCount: map<string, nat>, defaultGroup: Option<real>)
    requires Arguments(q, headroom)
    ensures recommended == GroupBudgets(samples, q, headroom)
    ensures forall g :: g in recommended <==> g in samples && samples[g] != []
    ensures forall g :: g in recommended ==>
      var x := Quantile(samples[g], q).value * headroom;
      && IsGroupBudget(recommended[g]) && recommended[g] >= x
      && forall a :: IsGroupBudget(a) && a >= x ==> recommended[g] <= a
    ensures sampleCount == map g | g in recommended :: |samples[g]|
    ensures defaultGroup.None? <==> recommended == map[]
    ensures defaultGroup.Some? ==> IsLargest(defaultGroup.value, recommended)
  {
    hide Budget, RoundGroupBudget, Quantile, IsGroupBudget;
    recommended, sampleCount := map[], map[];
    var todo := samples.Keys;
    while todo != {}
      invariant todo <= samples.Keys
      invariant recommended.Keys == sampleCount.Keys == (set g | g in samples && samples[g] != [] && g !in todo)
      invariant forall g :: g in recommended ==>
        recommended[g] == Budget(samples[g], q, headroom) && sampleCount[g] == |samples[g]|
      decreases |todo|
    {
      var g :| g in todo;
      todo := todo - {g};
      if samples[g] != [] {
        recommended, sampleCount := recommended[g := Budget(samples[g], q, headroom)], sampleCount[g := |samples[g]|];
      }
    }
    forall g | g in recommended
      ensures var x := Quantile(samples[g], q).value * headroom;
        && IsGroupBudget(recommended[g]) && recommended[g] >= x
        && forall a :: IsGroupBudget(a) && a >= x ==> recommended[g] <= a
    {
      BudgetIsLeast(samples[g], q, headroom);
    }
    defaultGroup := None;
    if recommended != map[] {
      var largest, highest := Largest(recommended);
      RoundedBudget(samples[largest], q, headroom);
      defaultGroup := Some(RoundGroupBudget(highest));
    }
  }
}
