/** The slow-test ranking, its alerts, and the group runtime profile (ci.go). */
module Ranking {
  import opened Text
  import opened Sorting
  import opened TestLog
  import opened Thresholds

  // ---------- slow cases ----------

  function AllTimed(results: seq<StepResult>): seq<TimedCase> {
    if results == [] then [] else AllTimed(results[..|results| - 1]) + results[|results| - 1].timed
  }

  /** How often the steps' timed cases hold a case. */
  function TimesTimed(results: seq<StepResult>, tc: TimedCase): nat {
    if results == [] then 0
    else TimesTimed(results[..|results| - 1], tc) + multiset(results[|results| - 1].timed)[tc]
  }

  lemma {:induction false} InAllTimed(results: seq<StepResult>, tc: TimedCase)
    ensures multiset(AllTimed(results))[tc] == TimesTimed(results, tc)
  {
    if results == [] {
    } else {
      InAllTimed(results[..|results| - 1], tc);
    }
  }

  /** Duration descending, then step, then name; a case never follows one it precedes strictly. */
  predicate SlowLe(a: TimedCase, b: TimedCase) {
    a.duration > b.duration
    || (a.duration == b.duration && (if a.step == b.step then TextLe(a.name, b.name) else TextLe(a.step, b.step)))
  }

  /** Cases equal in all three respects may come in either order: sort.Slice is not stable. */
  ghost predicate SlowRanking(slow: seq<TimedCase>, results: seq<StepResult>) {
    SortedBy(slow, SlowLe) && multiset(slow) == multiset(AllTimed(results))
  }

  lemma SlowOrder()
    ensures TotalPreorder(SlowLe)
  {
    hide TextLe;
    TextOrder();
  }

  lemma SlowLeMeans(a: TimedCase, b: TimedCase)
    requires SlowLe(a, b)
    ensures a.duration > b.duration
      || (a.duration == b.duration && TextLe(a.step, b.step) && (a.step == b.step ==> TextLe(a.name, b.name)))
  {
    hide TextLe;
    TextOrder();
  }

  /** collectSlowCases. */
  method CollectSlowCases(results: seq<StepResult>) returns (slow: seq<TimedCase>)
    ensures SlowRanking(slow, results)
    // by duration, longest first, then by step, then by name
    ensures forall i, j :: 0 <= i < j < |slow| ==>
      var a, b := slow[i], slow[j];
      a.duration > b.duration
      || (a.duration == b.duration && TextLe(a.step, b.step) && (a.step == b.step ==> TextLe(a.name, b.name)))
  {
    hide SlowLe, Sort;
    var out: seq<TimedCase> := [];
    for i := 0 to |results|
      invariant out == AllTimed(results[..i])
    {
      assert results[..i + 1][..i] == results[..i];
      out := out + results[i].timed;
    }
    assert results[..|results|] == results;
    SlowOrder();
    SortSorted(out, SlowLe);
    slow := Sort(out, SlowLe);
    forall i, j | 0 <= i < j < |slow|
      ensures var a, b := slow[i], slow[j];
        a.duration > b.duration
        || (a.duration == b.duration && TextLe(a.step, b.step) && (a.step == b.step ==> TextLe(a.name, b.name)))
    {
      SlowLeMeans(slow[i], slow[j]);
    }
  }

  function AtLeast(cases: seq<TimedCase>, threshold: int): seq<TimedCase> {
    if cases == [] then []
    else
      var last := cases[|cases| - 1];
      AtLeast(cases[..|cases| - 1], threshold) + if last.duration >= threshold then [last] else []
  }

  /** collectSlowCaseAlerts; a threshold of zero disables it. */
  method CollectSlowCaseAlerts(cases: seq<TimedCase>, threshold: int) returns (out: seq<TimedCase>)
    ensures out == if threshold <= 0 then [] else AtLeast(cases, threshold)
  {
    out := [];
    if threshold <= 0 {
      return;
    }
    for i := 0 to |cases|
      invariant out == AtLeast(cases[..i], threshold)
    {
      assert cases[..i + 1][..i] == cases[..i];
      if cases[i].duration >= threshold {
        out := out + [cases[i]];
      }
    }
    assert cases[..|cases|] == cases;
  }

  /** The alerts are exactly a prefix of the ranking: the cases up to the last that reaches the threshold. */
  lemma {:induction false} AlertsArePrefix(slow: seq<TimedCase>, threshold: int)
    requires SortedBy(slow, SlowLe)
    ensures var alerts := AtLeast(slow, threshold);
      && alerts <= slow
      && (forall i :: 0 <= i < |alerts| ==> slow[i].duration >= threshold)
      && (forall i :: |alerts| <= i < |slow| ==> slow[i].duration < threshold)
  {
    hide TextLe;
    if slow == [] {
    } else {
      var init, last := slow[..|slow| - 1], slow[|slow| - 1];
      assert slow == init + [last];
      AlertsArePrefix(init, threshold);
      if last.duration >= threshold {
        forall i | 0 <= i < |init|
          ensures init[i].duration >= threshold
        {
          assert SlowLe(slow[i], slow[|slow| - 1]);
        }
      }
    }
  }

  // ---------- group durations ----------

  datatype GroupDuration = GroupDuration(group: string, step: string, duration: int, threshold: int, exceeded: bool)

  /** stepGroupName. */
  function StepGroupName(step: string): Option<string> {
    if "group_" <= step then Value(step[|"group_"|..]) else None
  }

  /** The only names the runner looks up are those of group steps, which are trimmed. So for every one of them the
      two lookups agree, after any printed CSV that both programs read alike. */
  lemma StepLookupsAgree(step: string, keys: seq<string>, t: Thresholds)
    requires StepGroupName(step).Some?
    requires Lists(keys, t.groups) && (forall g <- t.groups :: CsvKey(g)) && AllFit(keys, t) && GoTrimmed(t.groups.Keys)
    ensures var csv, name := Csv(keys, t), StepGroupName(step).value;
      && ParseCsv(csv).Ok? && GoParseCsv(csv).Ok?
      && SameThreshold(SelectGroupThreshold(name, GoParseCsv(csv).value),
                       CurrentGroupThreshold(name, ParseCsv(csv).value))
  {
    hide ParseCsv, GoParseCsv, Csv, SelectGroupThreshold, CurrentGroupThreshold, Trim;
    TrimFacts(step[|"group_"|..], GoSpace);
    LookupsAgree(keys, t, StepGroupName(step).value);
  }

  function GroupOf(res: StepResult, group: string, t: GoThresholds): GroupDuration {
    var th := SelectGroupThreshold(group, t);
    GroupDuration(group, res.name, res.duration, th, th > 0 && res.duration >= th)
  }

  function AllGroupDurations(results: seq<StepResult>, t: GoThresholds): seq<GroupDuration> {
    if results == [] then []
    else
      var res := results[|results| - 1];
      AllGroupDurations(results[..|results| - 1], t)
      + match StepGroupName(res.name) case None => [] case Some(group) => [GroupOf(res, group, t)]
  }

  predicate GroupLe(a: GroupDuration, b: GroupDuration) {
    a.duration > b.duration || (a.duration == b.duration && TextLe(a.group, b.group))
  }

  ghost predicate GroupRanking(groups: seq<GroupDuration>, results: seq<StepResult>, t: GoThresholds) {
    SortedBy(groups, GroupLe) && multiset(groups) == multiset(AllGroupDurations(results, t))
  }

  lemma GroupOrder()
    ensures TotalPreorder(GroupLe)
  {
    hide TextLe;
    TextOrder();
  }

  /** collectGroupDurations. */
  method CollectGroupDurations(results: seq<StepResult>, t: GoThresholds) returns (groups: seq<GroupDuration>)
    ensures GroupRanking(groups, results, t)
    ensures forall i, j :: 0 <= i < j < |groups| ==>
      var a, b := groups[i], groups[j];
      a.duration > b.duration || (a.duration == b.duration && TextLe(a.group, b.group))
  {
    hide TextLe, Sort, StepGroupName, GroupOf;
    var out: seq<GroupDuration> := [];
    for i := 0 to |results|
      invariant out == AllGroupDurations(results[..i], t)
    {
      assert results[..i + 1][..i] == results[..i];
      var group := StepGroupName(results[i].name);
      if group.Some? {
        out := out + [GroupOf(results[i], group.value, t)];
      }
    }
    assert results[..|results|] == results;
    GroupOrder();
    SortSorted(out, GroupLe);
    groups := Sort(out, GroupLe);
  }
}
