/** Merging a recommendation with the current thresholds, drift, and adopting what was recommended
    (scripts/recommend_budgets.js). */
module Adoption {
  import opened Text
  import opened Sorting
  import opened Durations
  import opened Budgets
  import opened Thresholds

  const KNOWN_GROUPS: seq<string> := ["config", "governance", "staking", "delegation", "punish", "rewards", "epoch"]

  /** One run's recommendation, before the current thresholds come in. */
  datatype Recommendation = Recommendation(
    raw: map<string, real>,
    sampleCount: map<string, nat>,
    minGroupSamples: real,
    known: seq<string>,
    suggestedDefault: Option<real>)

  // ---------- merging ----------

  function SamplesOf(r: Recommendation, g: string): nat {
    if g in r.sampleCount then r.sampleCount[g] else 0
  }

  function MergedDefault(r: Recommendation, current: Thresholds): Option<real> {
    if Positive(r.suggestedDefault) then r.suggestedDefault else current.defaultThreshold
  }

  /** What the pass over all names gives a group: its raw recommendation if backed by enough samples,
      else its current threshold, else the raw recommendation anyway. */
  function Chosen(r: Recommendation, current: Thresholds, g: string): Option<real> {
    if g in r.raw && SamplesOf(r, g) as real >= r.minGroupSamples then Some(r.raw[g])
    else if g in current.groups then Some(current.groups[g])
    else if g in r.raw then Some(r.raw[g])
    else None
  }

  /** A known group that got nothing gets the default. */
  function Merged(r: Recommendation, current: Thresholds, g: string): Option<real> {
    if Chosen(r, current, g).Some? then Chosen(r, current, g)
    else if g in r.known && Positive(MergedDefault(r, current)) then MergedDefault(r, current)
    else None
  }

  ghost function AllGroups(r: Recommendation, current: Thresholds): set<string> {
    (set g | g in r.known) + current.groups.Keys + r.raw.Keys
  }

  ghost function Merge(r: Recommendation, current: Thresholds): Thresholds {
    Thresholds(map g | g in AllGroups(r, current) && Merged(r, current, g).Some? :: Merged(r, current, g).value,
               MergedDefault(r, current))
  }

  lemma MergeIs(r: Recommendation, current: Thresholds, t: Thresholds)
    requires t.defaultThreshold == MergedDefault(r, current)
    requires forall g :: g in t.groups <==> Merged(r, current, g).Some?
    requires forall g :: g in t.groups ==> t.groups[g] == Merged(r, current, g).value
    ensures t == Merge(r, current)
  {
    assert t.groups == Merge(r, current).groups;
  }

  lemma ChosenCases(r: Recommendation, current: Thresholds, g: string)
    ensures Chosen(r, current, g).Some? <==> g in r.raw || g in current.groups
    ensures g in r.raw && SamplesOf(r, g) as real >= r.minGroupSamples ==> Chosen(r, current, g) == Some(r.raw[g])
    ensures !(g in r.raw && SamplesOf(r, g) as real >= r.minGroupSamples) ==>
      && (g in current.groups ==> Chosen(r, current, g) == Some(current.groups[g]))
      && (g !in current.groups && g in r.raw ==> Chosen(r, current, g) == Some(r.raw[g]))
  {
  }

  method ChooseGroups(r: Recommendation, current: Thresholds) returns (merged: map<string, real>)
    ensures forall g :: g in merged <==> Chosen(r, current, g).Some?
    ensures forall g :: g in merged ==> merged[g] == Chosen(r, current, g).value
  {
    hide Chosen, SamplesOf;
    var all := (set g | g in r.known) + current.groups.Keys + r.raw.Keys;
    merged := map[];
    forall g
      ensures Chosen(r, current, g).Some? ==> g in all
    {
      ChosenCases(r, current, g);
    }
    var todo := all;
    while todo != {}
      invariant todo <= all
      invariant forall g :: g in merged <==> g in all && g !in todo && Chosen(r, current, g).Some?
      invariant forall g :: Chosen(r, current, g).Some? ==> g in all
      invariant forall g :: g in merged ==> merged[g] == Chosen(r, current, g).value
      decreases |todo|
    {
      var g :| g in todo;
      todo := todo - {g};
      ChosenCases(r, current, g);
      if g in r.raw && SamplesOf(r, g) as real >= r.minGroupSamples {
        merged := merged[g := r.raw[g]];
      } else if g in current.groups {
        merged := merged[g := current.groups[g]];
      } else if g in r.raw {
        merged := merged[g := r.raw[g]];
      }
    }
  }

  method FillKnown(r: Recommendation, current: Thresholds, chosen: map<string, real>)
    returns (merged: map<string, real>)
    requires Positive(MergedDefault(r, current))
    requires forall g :: g in chosen <==> Chosen(r, current, g).Some?
    requires forall g :: g in chosen ==> chosen[g] == Chosen(r, current, g).value
    ensures forall g :: g in merged <==> Merged(r, current, g).Some?
    ensures forall g :: g in merged ==> merged[g] == Merged(r, current, g).value
  {
    hide Chosen, MergedDefault;
    merged := chosen;
    for i := 0 to |r.known|
      invariant forall g :: g in merged <==> g in chosen || g in r.known[..i]
      invariant forall g :: g in merged ==> merged[g] == Merged(r, current, g).value
    {
      assert r.known[..i + 1] == r.known[..i] + [r.known[i]];
      assert r.known[i] in r.known;
      if r.known[i] !in merged {
        merged := merged[r.known[i] := MergedDefault(r, current).value];
      }
    }
  }

  /** mergeRecommendedGroups: one pass over all names, then the known groups still missing. */
  method MergeRecommendedGroups(r: Recommendation, current: Thresholds) returns (effective: Thresholds)
    ensures effective == Merge(r, current)
    // the default is the suggested one if there is a positive one, else the current one
    ensures effective.defaultThreshold
         == if r.suggestedDefault.Some? && r.suggestedDefault.value > 0.0 then r.suggestedDefault
            else current.defaultThreshold
    // every group with enough samples gets its recommendation
    // failing that it keeps its current threshold, and failing that gets the recommendation anyway
    ensures forall g :: g in r.raw || g in current.groups ==> g in effective.groups
    ensures forall g :: g in r.raw || g in current.groups ==>
      (effective.groups[g]
       == if g in r.raw && (if g in r.sampleCount then r.sampleCount[g] else 0) as real >= r.minGroupSamples
          then r.raw[g]
          else if g in current.groups then current.groups[g] else r.raw[g])
    // any other group is a known one, with the default, if that is positive
    ensures forall g :: g !in current.groups && g !in r.raw ==>
      (g in effective.groups <==>
        g in r.known && effective.defaultThreshold.Some? && effective.defaultThreshold.value > 0.0)
    ensures forall g :: g in effective.groups && g !in current.groups && g !in r.raw ==>
      effective.groups[g] == effective.defaultThreshold.value
  {
    hide Merge;
    var merged := ChooseGroups(r, current);
    var mergedDefault := r.suggestedDefault;
    if !Positive(mergedDefault) {
      mergedDefault := current.defaultThreshold;
    }
    if Positive(mergedDefault) {
      merged := FillKnown(r, current, merged);
    }
    effective := Thresholds(merged, mergedDefault);
    MergeIs(r, current, effective);
    forall g
      ensures Chosen(r, current, g).Some? <==> g in r.raw || g in current.groups
      ensures g in r.raw || g in current.groups ==>
        (Chosen(r, current, g).value
         == if g in r.raw && (if g in r.sampleCount then r.sampleCount[g] else 0) as real >= r.minGroupSamples
            then r.raw[g]
            else if g in current.groups then current.groups[g] else r.raw[g])
    {
      ChosenCases(r, current, g);
    }
  }

  // ---------- ordering the entries ----------

  /** The position in the list of known groups; every other name ranks behind them all. */
  function Rank(g: string, known: seq<string>): nat {
    if known == [] || known[0] == g then 0 else 1 + Rank(g, known[1..])
  }

  /** The comparison of orderedGroupEntries for any collation (localeCompare), made strict by the order of the object's
      properties, which a stable sort keeps between names that collate alike; other texts come last by code point. */
  predicate EntryLe(collate: (string, string) -> bool, properties: seq<string>, a: string, b: string) {
    if Rank(a, KNOWN_GROUPS) != Rank(b, KNOWN_GROUPS) then Rank(a, KNOWN_GROUPS) < Rank(b, KNOWN_GROUPS)
    else if !collate(a, b) || !collate(b, a) then collate(a, b)
    else if Rank(a, properties) != Rank(b, properties) then Rank(a, properties) < Rank(b, properties)
    else TextLe(a, b)
  }

  function EntryOrder(collate: (string, string) -> bool, properties: seq<string>): (string, string) -> bool {
    (a, b) => EntryLe(collate, properties, a, b)
  }

  lemma EntryOrderIsTotal(collate: (string, string) -> bool, properties: seq<string>)
    requires TotalPreorder(collate)
    ensures TotalPreorder(EntryOrder(collate, properties)) && Antisymmetric(EntryOrder(collate, properties))
  {
    hide Rank, TextLe;
    TextOrder();
  }

  lemma ListsIsMultiset(keys: seq<string>, groups: map<string, real>)
    ensures Lists(keys, groups) <==> multiset(keys) == multiset(groups.Keys)
  {
    if Lists(keys, groups) {
      DistinctCounts(keys);
      forall k
        ensures multiset(keys)[k] == multiset(groups.Keys)[k]
      {
        assert k in multiset(keys) <==> k in keys;
      }
    }
    if multiset(keys) == multiset(groups.Keys) {
      forall k
        ensures k in keys <==> k in groups
      {
        assert k in keys <==> k in multiset(keys);
      }
      forall i, j | 0 <= i < j < |keys|
        ensures keys[i] != keys[j]
      {
        if keys[i] == keys[j] {
          RepeatCounts(keys, i, j);
        }
      }
    }
  }

  lemma {:induction false} RankIs(g: string, known: seq<string>)
    ensures if g in known then Rank(g, known) < |known| && known[Rank(g, known)] == g else Rank(g, known) == |known|
  {
    if known == [] || known[0] == g {
    } else {
      RankIs(g, known[1..]);
    }
  }

  lemma OrderedPair(collate: (string, string) -> bool, properties: seq<string>, a: string, b: string)
    requires EntryOrder(collate, properties)(a, b) && a != b
    ensures b in KNOWN_GROUPS ==>
      exists p, q :: 0 <= p < q < |KNOWN_GROUPS| && a == KNOWN_GROUPS[p] && b == KNOWN_GROUPS[q]
    ensures a !in KNOWN_GROUPS ==> collate(a, b)
  {
    hide Rank, TextLe, KNOWN_GROUPS;
    RankIs(a, KNOWN_GROUPS);
    RankIs(b, KNOWN_GROUPS);
  }

  /** orderedGroupEntries: the names of the entries, known groups first in their order, the rest by name, and names
      that collate alike in the order of the object's properties. There is only one such list. */
  method OrderedGroupEntries(groups: map<string, real>, collate: (string, string) -> bool, properties: seq<string>)
    returns (keys: seq<string>)
    requires TotalPreorder(collate) && Lists(properties, groups)
    ensures Lists(keys, groups) && SortedBy(keys, EntryOrder(collate, properties))
    ensures forall other :: Lists(other, groups) && SortedBy(other, EntryOrder(collate, properties)) ==> other == keys
    // a known group comes before every other, and before the known groups after it in their list
    ensures forall i, j :: 0 <= i < j < |keys| && keys[j] in KNOWN_GROUPS ==>
      exists p, q :: 0 <= p < q < |KNOWN_GROUPS| && keys[i] == KNOWN_GROUPS[p] && keys[j] == KNOWN_GROUPS[q]
    // the others follow the collation
    ensures forall i, j :: 0 <= i < j < |keys| && keys[i] !in KNOWN_GROUPS ==> collate(keys[i], keys[j])
  {
    hide EntryOrder, Sort;
    var le := EntryOrder(collate, properties);
    keys := Sort(properties, le);
    EntryOrderIsTotal(collate, properties);
    SortSorted(properties, le);
    ListsIsMultiset(properties, groups);
    ListsIsMultiset(keys, groups);
    forall other | Lists(other, groups) && SortedBy(other, le)
      ensures other == keys
    {
      ListsIsMultiset(other, groups);
      SortedUnique(other, keys, le);
    }
    forall i, j | 0 <= i < j < |keys|
      ensures keys[j] in KNOWN_GROUPS ==>
        exists p, q :: 0 <= p < q < |KNOWN_GROUPS| && keys[i] == KNOWN_GROUPS[p] && keys[j] == KNOWN_GROUPS[q]
      ensures keys[i] !in KNOWN_GROUPS ==> collate(keys[i], keys[j])
    {
      OrderedPair(collate, properties, keys[i], keys[j]);
    }
  }

  /** When no two names collate alike, the list does not depend on the order of the object's properties. */
  lemma OrderIgnoresProperties(collate: (string, string) -> bool, some: seq<string>, others: seq<string>)
    requires TotalPreorder(collate) && Antisymmetric(collate)
    ensures forall a, b :: EntryLe(collate, some, a, b) <==> EntryLe(collate, others, a, b)
  {
    hide Rank, TextLe;
    TextOrder();
  }

  // ---------- drift ----------

  /** driftTriggered, for two durations that are numbers. */
  predicate DriftTriggered(current: real, suggested: real, ratio: real, minMs: real) {
    current > 0.0 && suggested > 0.0 &&
    var diff := if suggested >= current then suggested - current else current - suggested;
    diff >= minMs && diff / current >= ratio
  }

  lemma RatioOf(diff: real, current: real, ratio: real)
    requires current > 0.0
    ensures diff / current >= ratio <==> diff >= ratio * current
  {
    var x := diff / current;
    assert x * current == diff;
    if x >= ratio {
      assert (x - ratio) * current >= 0.0;
    } else {
      assert (ratio - x) * current > 0.0;
    }
  }

  /** A positive suggestion drifts exactly when it lies outside a band around the positive current value, as wide
      on either side as the larger of the minimum and the ratio's share of the current value. */
  lemma DriftIsABand(current: real, suggested: real, ratio: real, minMs: real)
    requires ratio >= 0.0 && minMs >= 0.0
    ensures var width := Max(minMs, ratio * current);
      DriftTriggered(current, suggested, ratio, minMs) <==>
        current > 0.0 && suggested > 0.0 && (suggested <= current - width || suggested >= current + width)
  {
    if current > 0.0 {
      var diff := if suggested >= current then suggested - current else current - suggested;
      assert ratio * current >= 0.0;
      RatioOf(diff, current, ratio);
    }
  }

  predicate Drifts(current: Option<real>, suggested: Option<real>, ratio: real, minMs: real) {
    current.Some? && suggested.Some? && DriftTriggered(current.value, suggested.value, ratio, minMs)
  }

  /** The names of the group and default drift alerts. */
  ghost function DriftAlerts(effective: Thresholds, current: Thresholds, ratio: real, minMs: real): set<string> {
    (set g | g in effective.groups
             && Drifts(CurrentGroupThreshold(g, current), Some(effective.groups[g]), ratio, minMs))
    + if Drifts(current.defaultThreshold, effective.defaultThreshold, ratio, minMs) then {"default"} else {}
  }

  datatype DriftAlert = DriftAlert(name: string, current: real, suggested: real, deltaPct: real)

  /** driftPercent, for a positive current value. */
  function DriftPercent(current: real, suggested: real): real
    requires current > 0.0
  {
    (suggested - current) / current * 100.0
  }

  function AlertFor(name: string, current: Option<real>, suggested: Option<real>, ratio: real, minMs: real)
    : seq<DriftAlert>
  {
    if Drifts(current, suggested, ratio, minMs)
    then [DriftAlert(name, current.value, suggested.value, DriftPercent(current.value, suggested.value))] else []
  }

  /** The group alerts, in the order of the entries. */
  function GroupAlerts(keys: seq<string>, groups: map<string, real>, current: Thresholds, ratio: real, minMs: real)
    : seq<DriftAlert>
    requires forall k <- keys :: k in groups
  {
    if keys == [] then []
    else
      var init, g := keys[..|keys| - 1], keys[|keys| - 1];
      GroupAlerts(init, groups, current, ratio, minMs)
      + AlertFor(g, CurrentGroupThreshold(g, current), Some(groups[g]), ratio, minMs)
  }

  /** The alerts for the groups, in some order of the entries, and then the one for the default. */
  ghost predicate IsDriftReport(
    alerts: seq<DriftAlert>, effective: Thresholds, current: Thresholds, ratio: real, minMs: real)
  {
    exists keys ::
      && Lists(keys, effective.groups)
      && alerts == GroupAlerts(keys, effective.groups, current, ratio, minMs)
                   + AlertFor("default", current.defaultThreshold, effective.defaultThreshold, ratio, minMs)
  }

  lemma NoGroupAlerts(groups: map<string, real>, current: Thresholds, ratio: real, minMs: real)
    ensures GroupAlerts([], groups, current, ratio, minMs) == []
  {
  }

  lemma GroupAlertsStep(
    keys: seq<string>, g: string, groups: map<string, real>, current: Thresholds, ratio: real, minMs: real)
    requires g in groups && forall k <- keys :: k in groups
    ensures GroupAlerts(keys + [g], groups, current, ratio, minMs)
         == GroupAlerts(keys, groups, current, ratio, minMs)
            + AlertFor(g, CurrentGroupThreshold(g, current), Some(groups[g]), ratio, minMs)
  {
    hide AlertFor, CurrentGroupThreshold;
    assert (keys + [g])[..|keys|] == keys;
  }

  /** The drift loop of main, over the entries in whatever order the object has them. */
  method CollectDriftAlerts(effective: Thresholds, current: Thresholds, ratio: real, minMs: real)
    returns (alerts: seq<DriftAlert>)
    ensures IsDriftReport(alerts, effective, current, ratio, minMs)
  {
    hide CurrentGroupThreshold, DriftPercent, GroupAlerts;
    alerts := [];
    NoGroupAlerts(effective.groups, current, ratio, minMs);
    var todo := effective.groups.Keys;
    ghost var keys: seq<string> := [];
    while todo != {}
      invariant todo <= effective.groups.Keys
      invariant (forall k <- keys :: k in effective.groups) && forall g <- effective.groups :: g in keys <==> g !in todo
      invariant forall i, j :: 0 <= i < j < |keys| ==> keys[i] != keys[j]
      invariant alerts == GroupAlerts(keys, effective.groups, current, ratio, minMs)
      decreases |todo|
    {
      var g :| g in todo;
      todo := todo - {g};
      GroupAlertsStep(keys, g, effective.groups, current, ratio, minMs);
      keys := keys + [g];
      var threshold, suggested := CurrentGroupThreshold(g, current), effective.groups[g];
      if Drifts(threshold, Some(suggested), ratio, minMs) {
        alerts := alerts + [DriftAlert(g, threshold.value, suggested, DriftPercent(threshold.value, suggested))];
      }
    }
    assert Lists(keys, effective.groups);
    var now, then' := current.defaultThreshold, effective.defaultThreshold;
    if Drifts(now, then', ratio, minMs) {
      alerts := alerts + [DriftAlert("default", now.value, then'.value, DriftPercent(now.value, then'.value))];
    }
  }

  function Names(alerts: seq<DriftAlert>): set<string> {
    set a | a in alerts :: a.name
  }

  lemma NamesJoin(a: seq<DriftAlert>, b: seq<DriftAlert>)
    ensures Names(a + b) == Names(a) + Names(b)
  {
  }

  lemma NameOfAlert(name: string, current: Option<real>, suggested: Option<real>, ratio: real, minMs: real)
    ensures Names(AlertFor(name, current, suggested, ratio, minMs))
         == if Drifts(current, suggested, ratio, minMs) then {name} else {}
  {
    hide DriftPercent;
  }

  lemma {:induction false} GroupAlertNames(
    keys: seq<string>, groups: map<string, real>, current: Thresholds, ratio: real, minMs: real)
    requires forall k <- keys :: k in groups
    ensures Names(GroupAlerts(keys, groups, current, ratio, minMs))
         == set g | g in keys && Drifts(CurrentGroupThreshold(g, current), Some(groups[g]), ratio, minMs)
  {
    hide Drifts, CurrentGroupThreshold, AlertFor;
    if keys == [] {
    } else {
      var init, g := keys[..|keys| - 1], keys[|keys| - 1];
      assert keys == init + [g];
      GroupAlertNames(init, groups, current, ratio, minMs);
      NameOfAlert(g, CurrentGroupThreshold(g, current), Some(groups[g]), ratio, minMs);
      NamesJoin(GroupAlerts(init, groups, current, ratio, minMs),
                AlertFor(g, CurrentGroupThreshold(g, current), Some(groups[g]), ratio, minMs));
    }
  }

  /** A report names exactly the thresholds that drift; so it is empty exactly when none does. */
  lemma ReportNamesDrift(alerts: seq<DriftAlert>, effective: Thresholds, current: Thresholds, ratio: real, minMs: real)
    requires IsDriftReport(alerts, effective, current, ratio, minMs)
    ensures Names(alerts) == DriftAlerts(effective, current, ratio, minMs)
    ensures alerts == [] <==> DriftAlerts(effective, current, ratio, minMs) == {}
  {
    hide Drifts, CurrentGroupThreshold, AlertFor, GroupAlerts;
    var keys :| Lists(keys, effective.groups)
      && alerts == GroupAlerts(keys, effective.groups, current, ratio, minMs)
                   + AlertFor("default", current.defaultThreshold, effective.defaultThreshold, ratio, minMs);
    GroupAlertNames(keys, effective.groups, current, ratio, minMs);
    NameOfAlert("default", current.defaultThreshold, effective.defaultThreshold, ratio, minMs);
    NamesJoin(GroupAlerts(keys, effective.groups, current, ratio, minMs),
              AlertFor("default", current.defaultThreshold, effective.defaultThreshold, ratio, minMs));
    assert alerts != [] ==> alerts[0].name in Names(alerts);
  }

  /** An alert carries the two thresholds it is about, and the percentage that takes the one to the other. */
  predicate IsAlertOn(a: DriftAlert, effective: Thresholds, current: Thresholds) {
    && a.current > 0.0 && a.suggested * 100.0 == a.current * (100.0 + a.deltaPct)
    && ((a.name in effective.groups && a.suggested == effective.groups[a.name]
         && Some(a.current) == if Lower(a.name) in current.groups then Some(current.groups[Lower(a.name)])
                               else current.defaultThreshold)
        || (a.name == "default" && Some(a.current) == current.defaultThreshold
            && Some(a.suggested) == effective.defaultThreshold))
  }

  lemma PercentMeans(current: real, suggested: real)
    requires current > 0.0
    ensures suggested * 100.0 == current * (100.0 + DriftPercent(current, suggested))
  {
    var x := (suggested - current) / current;
    assert x * current == suggested - current;
    assert current * (100.0 + x * 100.0) == current * 100.0 + x * current * 100.0;
  }

  lemma {:induction false} GroupAlertValues(
    keys: seq<string>, effective: Thresholds, current: Thresholds, ratio: real, minMs: real)
    requires forall k <- keys :: k in effective.groups
    ensures forall a <- GroupAlerts(keys, effective.groups, current, ratio, minMs) :: IsAlertOn(a, effective, current)
  {
    hide DriftPercent, Lower;
    if keys == [] {
    } else {
      var init, g := keys[..|keys| - 1], keys[|keys| - 1];
      GroupAlertValues(init, effective, current, ratio, minMs);
      var threshold := CurrentGroupThreshold(g, current);
      if Drifts(threshold, Some(effective.groups[g]), ratio, minMs) {
        PercentMeans(threshold.value, effective.groups[g]);
      }
    }
  }

  lemma AlertValues(alerts: seq<DriftAlert>, effective: Thresholds, current: Thresholds, ratio: real, minMs: real)
    requires IsDriftReport(alerts, effective, current, ratio, minMs)
    ensures forall a <- alerts :: IsAlertOn(a, effective, current)
  {
    hide DriftPercent, Lower, GroupAlerts;
    var keys :| Lists(keys, effective.groups)
      && alerts == GroupAlerts(keys, effective.groups, current, ratio, minMs)
                   + AlertFor("default", current.defaultThreshold, effective.defaultThreshold, ratio, minMs);
    GroupAlertValues(keys, effective, current, ratio, minMs);
    if Drifts(current.defaultThreshold, effective.defaultThreshold, ratio, minMs) {
      PercentMeans(current.defaultThreshold.value, effective.defaultThreshold.value);
    }
  }

  // ---------- adopting a recommendation ----------

  /** What parseThresholdCsv can return: clean keys, durations that are not negative. */
  predicate Readable(t: Thresholds) {
    && (forall g <- t.groups :: CsvKey(g) && t.groups[g] >= 0.0)
    && (t.defaultThreshold.Some? ==> t.defaultThreshold.value >= 0.0)
  }

  lemma LowerKeeps(s: string, c: char)
    requires c !in s && !('A' <= c <= 'Z') && !('a' <= c <= 'z')
    ensures c !in Lower(s)
  {
    LowerAt(s);
  }

  lemma {:induction false} SplitPiece(s: string, sep: char, c: char)
    requires c !in s
    ensures forall p <- Split(s, sep) :: c !in p
  {
    if s == "" {
    } else {
      assert s[0] in s && forall x <- s[1..] :: x in s;
      SplitPiece(s[1..], sep, c);
      var rest := Split(s[1..], sep);
      assert rest[0] in rest && forall p <- rest[1..] :: p in rest;
    }
  }

  lemma AddReadable(acc: Thresholds, item: string)
    requires Readable(acc) && ',' !in item && AddItem(acc, item).Ok?
    ensures Readable(AddItem(acc, item).value)
  {
    hide Lower, Trim, ParseMs, Split, Join;
    var parts := Split(item, '=');
    assert parts[0] in parts;
    JoinSplit(item, '=');
    SplitPiece(item, '=', ',');
    TrimFacts(parts[0], JsSpace);
    var key := Trim(parts[0], JsSpace);
    LowerKeeps(key, ',');
    LowerKeeps(key, '=');
    LowerFacts(key, JsSpace);
  }

  lemma {:induction false} AddItemsReadable(acc: Thresholds, items: seq<string>)
    requires Readable(acc) && (forall p <- items :: ',' !in p) && AddItems(acc, items).Ok?
    ensures Readable(AddItems(acc, items).value)
    decreases |items|
  {
    hide AddItem, Readable;
    if items == [] {
    } else {
      assert items[0] in items && forall p <- items[1..] :: p in items;
      AddReadable(acc, items[0]);
      AddItemsReadable(AddItem(acc, items[0]).value, items[1..]);
    }
  }

  lemma ParsedIsReadable(raw: string)
    requires ParseCsv(raw).Ok?
    ensures Readable(ParseCsv(raw).value)
  {
    hide AddItems, Trim, Pieces, Split;
    var text := Trim(raw, JsSpace);
    if text != "" {
      PiecesFacts(Split(text, ','), JsSpace);
      AddItemsReadable(NO_THRESHOLDS, SplitList(text, JsSpace));
    }
  }

  /** A recommendation as RecommendGroups makes it, with names that can be CSV keys. */
  predicate WellFormed(r: Recommendation) {
    && (forall g <- r.raw :: CsvKey(g) && r.raw[g] > 0.0 && WholeSecond(r.raw[g]) == r.raw[g])
    && (forall g <- r.known :: CsvKey(g))
    && (r.suggestedDefault.Some? ==>
          r.suggestedDefault.value > 0.0 && WholeSecond(r.suggestedDefault.value) == r.suggestedDefault.value)
  }

  lemma WholeSecondTwice(ms: real)
    ensures WholeSecond(WholeSecond(ms)) == WholeSecond(ms)
    ensures ms > 0.0 ==> WholeSecond(ms) > 0.0
    ensures ReadBack(ReadBack(ms)) == ReadBack(ms)
  {
    WholeSeconds(Ceil(ms / 1000.0));
    WholeSeconds(0);
  }

  lemma KnownGroupsAreKeys()
    ensures forall g <- KNOWN_GROUPS :: CsvKey(g)
  {
    forall g | g in KNOWN_GROUPS
      ensures CsvKey(g)
    {
      assert g[0] in g && g[|g| - 1] in g;
      assert forall c <- g :: 'a' <= c <= 'z';
    }
  }

  /** What RecommendGroups returns is well formed when the sampled names can be CSV keys. */
  lemma RecommendedIsWellFormed(samples: map<string, seq<real>>, q: real, headroom: real, count: map<string, nat>,
                                minSamples: real, default: Option<real>)
    requires Arguments(q, headroom) && forall g <- samples :: CsvKey(g)
    requires default.Some? ==> IsLargest(default.value, GroupBudgets(samples, q, headroom))
    ensures WellFormed(Recommendation(GroupBudgets(samples, q, headroom), count, minSamples, KNOWN_GROUPS, default))
  {
    hide CsvKey, RoundGroupBudget, Quantile, WholeSecond, Product;
    var raw := GroupBudgets(samples, q, headroom);
    forall g | g in raw
      ensures raw[g] > 0.0 && WholeSecond(raw[g]) == raw[g]
    {
      var p := Product(Quantile(samples[g], q).value, headroom);
      GroupRounding(p, p);
    }
    KnownGroupsAreKeys();
  }

  lemma MergedGroups(r: Recommendation, current: Thresholds, g: string)
    ensures Merge(r, current).defaultThreshold == MergedDefault(r, current)
    ensures g in Merge(r, current).groups <==> Merged(r, current, g).Some?
    ensures g in Merge(r, current).groups ==> Merge(r, current).groups[g] == Merged(r, current, g).value
  {
  }

  lemma MergeIsPrintable(r: Recommendation, current: Thresholds)
    requires WellFormed(r) && Readable(current)
    ensures Readable(Merge(r, current))
  {
    hide CsvKey, WholeSecond;
  }

  lemma MergeDefaults(r: Recommendation, current: Thresholds)
    requires WellFormed(r) && Readable(current)
    ensures var first := Merge(r, current);
      && first.defaultThreshold == MergedDefault(r, current)
      && Positive(MergedDefault(r, Adopted(first))) == Positive(first.defaultThreshold)
      && (Positive(first.defaultThreshold) ==> MergedDefault(r, Adopted(first)) == Adopted(first).defaultThreshold)
      && (!Positive(first.defaultThreshold) ==> MergedDefault(r, Adopted(first)) == None)
  {
    hide CsvKey, WholeSecond;
    var d := MergedDefault(r, current);
    if Positive(d) {
      WholeSecondTwice(d.value);
    }
  }

  /** Merging the same recommendation with what was adopted gives what was adopted. */
  lemma MergeAdopted(r: Recommendation, current: Thresholds)
    requires WellFormed(r) && Readable(current)
    ensures var first := Merge(r, current);
      && Merge(r, Adopted(first)).groups == Adopted(first).groups
      && (Positive(first.defaultThreshold) ==>
            Merge(r, Adopted(first)).defaultThreshold == Adopted(first).defaultThreshold)
      && (!Positive(first.defaultThreshold) ==> Merge(r, Adopted(first)).defaultThreshold == None)
  {
    hide CsvKey, WholeSecond, Merge;
    var first := Merge(r, current);
    var adopted := Adopted(first);
    var second := Merge(r, adopted);
    MergeDefaults(r, current);
    MergedGroups(r, adopted, "");
    forall g
      ensures g in second.groups <==> g in adopted.groups
      ensures g in second.groups ==> second.groups[g] == adopted.groups[g]
    {
      MergedGroups(r, current, g);
      MergedGroups(r, adopted, g);
    }
  }

  /** No drift is reported against thresholds equal to the suggestion - except when both drift limits
      are zero and some threshold is positive, which then always alerts. */
  lemma NoDriftFromItself(x: real, ratio: real, minMs: real)
    requires ratio >= 0.0 && minMs >= 0.0
    ensures DriftTriggered(x, x, ratio, minMs) <==> x > 0.0 && ratio == 0.0 && minMs == 0.0
  {
    if x > 0.0 {
      assert 0.0 / x == 0.0;
    }
  }

  lemma DriftAfterAdoption(t: Thresholds, ratio: real, minMs: real)
    requires ratio >= 0.0 && minMs >= 0.0 && (forall g <- t.groups :: CsvKey(g))
    ensures DriftAlerts(t, t, ratio, minMs) == {} <==>
      ratio > 0.0 || minMs > 0.0 || ((forall g <- t.groups :: t.groups[g] <= 0.0) && !Positive(t.defaultThreshold))
  {
    hide DriftTriggered;
    forall g | g in t.groups
      ensures CurrentGroupThreshold(g, t) == Some(t.groups[g])
      ensures Drifts(CurrentGroupThreshold(g, t), Some(t.groups[g]), ratio, minMs)
              <==> t.groups[g] > 0.0 && ratio == 0.0 && minMs == 0.0
    {
      LowerLower(g);
      NoDriftFromItself(t.groups[g], ratio, minMs);
    }
    if t.defaultThreshold.Some? {
      NoDriftFromItself(t.defaultThreshold.value, ratio, minMs);
    }
    var alerts := DriftAlerts(t, t, ratio, minMs);
    if g :| g in t.groups && t.groups[g] > 0.0 && ratio == 0.0 && minMs == 0.0 {
      assert g in alerts;
    }
    if t.defaultThreshold.Some? && Drifts(t.defaultThreshold, t.defaultThreshold, ratio, minMs) {
      assert "default" in alerts;
    }
  }

  /** With neither, a threshold of a minute drifts from itself. */
  lemma DriftFromItself()
    ensures var t := Thresholds(map["config" := 60_000.0], None);
      DriftAlerts(t, t, 0.0, 0.0) == {"config"}
  {
    hide CsvKey, KNOWN_GROUPS, DriftTriggered;
    var t := Thresholds(map["config" := 60_000.0], None);
    LowerLower("config");
    NoDriftFromItself(60_000.0, 0.0, 0.0);
  }

  lemma PositiveReadBack(ms: real)
    ensures ReadBack(ms) > 0.0 <==> ms > 0.0
  {
    WholeSecondTwice(ms);
  }

  lemma AdoptedTwice(t: Thresholds)
    ensures Adopted(Adopted(t)) == Adopted(t)
  {
    hide ReadBack, WholeSecond;
    forall g | g in t.groups
      ensures ReadBack(ReadBack(t.groups[g])) == ReadBack(t.groups[g])
    {
      WholeSecondTwice(t.groups[g]);
    }
    if Positive(t.defaultThreshold) {
      WholeSecondTwice(t.defaultThreshold.value);
      PositiveReadBack(t.defaultThreshold.value);
    }
  }

  lemma AdoptedSigns(t: Thresholds)
    ensures (forall g <- t.groups :: t.groups[g] <= 0.0)
        <==> (forall g <- Adopted(t).groups :: Adopted(t).groups[g] <= 0.0)
    ensures Positive(t.defaultThreshold) <==> Positive(Adopted(t).defaultThreshold)
  {
    hide ReadBack;
    forall g | g in t.groups
      ensures t.groups[g] <= 0.0 <==> Adopted(t).groups[g] <= 0.0
    {
      PositiveReadBack(t.groups[g]);
    }
    assert forall g :: g in t.groups <==> g in Adopted(t).groups;
    if Positive(t.defaultThreshold) {
      PositiveReadBack(t.defaultThreshold.value);
    }
  }

  /** Adopting converges in one step. Whatever CSV the current thresholds come from, whatever the order
      in which the merged entries are printed: the printed CSV parses; merging the same recommendation again
      gives the printed thresholds in whole seconds; printing that again and parsing it changes nothing; and
      the drift check then raises no group or default alert - exactly unless both drift limits are zero
      while some printed threshold is positive. */
  lemma AdoptionConverges(r: Recommendation, currentCsv: string, keys: seq<string>, keysAgain: seq<string>,
                          ratio: real, minMs: real)
    requires WellFormed(r) && ParseCsv(currentCsv).Ok? && ratio >= 0.0 && minMs >= 0.0
    requires var first := Merge(r, ParseCsv(currentCsv).value);
      Lists(keys, first.groups) && Lists(keysAgain, Adopted(first).groups)
    ensures var first := Merge(r, ParseCsv(currentCsv).value);
      && ParseCsv(Csv(keys, first)) == Ok(Adopted(first))
      && var second := Merge(r, Adopted(first));
      && second.groups == Adopted(first).groups
      && ParseCsv(Csv(keysAgain, second)) == Ok(Adopted(first))
      && (DriftAlerts(second, Adopted(first), ratio, minMs) == {} <==>
            ratio > 0.0 || minMs > 0.0
            || ((forall g <- first.groups :: first.groups[g] <= 0.0) && !Positive(first.defaultThreshold)))
  {
    hide CsvKey, WholeSecond, Merge, ParseCsv, Csv, DriftAlerts;
    var current := ParseCsv(currentCsv).value;
    ParsedIsReadable(currentCsv);
    MergeIsPrintable(r, current);
    var first := Merge(r, current);
    ParsePrintedCsv(keys, first);
    MergeAdopted(r, current);
    var adopted, second := Adopted(first), Merge(r, Adopted(first));
    assert second == adopted;
    ParsePrintedCsv(keysAgain, second);
    AdoptedTwice(first);
    DriftAfterAdoption(adopted, ratio, minMs);
    AdoptedSigns(first);
  }
}
