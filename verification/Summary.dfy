/** Run summaries and their nested aggregation (ci.go): attribution of failures nobody reported,
    padding of case lists to the recorded counts, and collecting the cases of a nested run. */
module Summary {
  import opened Text
  import opened Numerals
  import opened Sorting
  import opened TestLog

  datatype SummaryStep = SummaryStep(
    name: string, status: string, duration: int,
    passCount: int, failCount: int, skipCount: int, deferredCount: int, logPath: string)

  datatype RunSummary = RunSummary(
    tests: seq<string>, runPattern: string,
    totalPass: int, totalFail: int, totalSkip: int, totalDeferred: int,
    totalStepCount: int, failedStepCount: int, status: string, steps: seq<SummaryStep>)

  // ---------- building a summary ----------

  function Count(step: SummaryStep, k: Kind): int {
    match k
    case Pass => step.passCount
    case Fail => step.failCount
    case Skip => step.skipCount
    case Deferred => step.deferredCount
  }

  function Total(summary: RunSummary, k: Kind): int {
    match k
    case Pass => summary.totalPass
    case Fail => summary.totalFail
    case Skip => summary.totalSkip
    case Deferred => summary.totalDeferred
  }

  lemma FieldsAre(step: SummaryStep, summary: RunSummary)
    ensures Count(step, Pass) == step.passCount && Count(step, Fail) == step.failCount
    ensures Count(step, Skip) == step.skipCount && Count(step, Deferred) == step.deferredCount
    ensures Total(summary, Pass) == summary.totalPass && Total(summary, Fail) == summary.totalFail
    ensures Total(summary, Skip) == summary.totalSkip && Total(summary, Deferred) == summary.totalDeferred
  {
  }

  function StepOf(res: StepResult): SummaryStep {
    SummaryStep(res.name, res.status, RoundTo(res.duration, 1_000_000),
                |res.passTests|, |res.failTests|, |res.skipTests|, |res.deferredTests|, res.logPath)
  }

  function SumCounts(steps: seq<SummaryStep>, k: Kind): int {
    if steps == [] then 0 else SumCounts(steps[..|steps| - 1], k) + Count(steps[|steps| - 1], k)
  }

  function NotPassed(steps: seq<SummaryStep>): nat {
    if steps == [] then 0 else NotPassed(steps[..|steps| - 1]) + if steps[|steps| - 1].status != "PASS" then 1 else 0
  }

  /** buildRunSummary: the totals are the sums of the step counts. */
  method BuildRunSummary(results: seq<StepResult>, tests: string, runPattern: string, failed: bool)
    returns (s: RunSummary)
    ensures s.tests == SplitList(tests, GoSpace) && s.runPattern == Trim(runPattern, GoSpace)
    ensures |s.steps| == |results| == s.totalStepCount
    ensures forall i :: 0 <= i < |results| ==>
      var step, res := s.steps[i], results[i];
      && step.name == res.name && step.status == res.status && step.logPath == res.logPath
      && step.duration == RoundTo(res.duration, 1_000_000)
      && step.passCount == |res.passTests| && step.failCount == |res.failTests|
      && step.skipCount == |res.skipTests| && step.deferredCount == |res.deferredTests|
    ensures s.totalPass == SumTests(results, Pass)
    ensures s.totalFail == SumTests(results, Fail)
    ensures s.totalSkip == SumTests(results, Skip)
    ensures s.totalDeferred == SumTests(results, Deferred)
    ensures forall k :: Total(s, k) == SumCounts(s.steps, k)
    ensures s.failedStepCount == NotPassed(s.steps) && s.status == (if failed then "FAIL" else "PASS")
  {
    hide RoundTo, Trim, SplitList;
    var steps: seq<SummaryStep> := [];
    var pass, fail, skip, deferred, failedSteps := 0, 0, 0, 0, 0;
    for i := 0 to |results|
      invariant |steps| == i && forall j :: 0 <= j < i ==> steps[j] == StepOf(results[j])
      invariant pass == SumCounts(steps, Pass) && fail == SumCounts(steps, Fail)
      invariant skip == SumCounts(steps, Skip) && deferred == SumCounts(steps, Deferred)
      invariant failedSteps == NotPassed(steps)
      invariant pass == SumTests(results[..i], Pass) && fail == SumTests(results[..i], Fail)
      invariant skip == SumTests(results[..i], Skip) && deferred == SumTests(results[..i], Deferred)
    {
      assert results[..i + 1][..i] == results[..i];
      var res := results[i];
      assert (steps + [StepOf(res)])[..i] == steps;
      steps := steps + [StepOf(res)];
      pass, fail := pass + |res.passTests|, fail + |res.failTests|;
      skip, deferred := skip + |res.skipTests|, deferred + |res.deferredTests|;
      if res.status != "PASS" {
        failedSteps := failedSteps + 1;
      }
    }
    assert results[..|results|] == results;
    s := RunSummary(SplitList(tests, GoSpace), Trim(runPattern, GoSpace), pass, fail, skip, deferred,
                    |results|, failedSteps, if failed then "FAIL" else "PASS", steps);
  }

  // ---------- implicit failures ----------

  predicate Failed(status: string) {
    Upper(Trim(status, GoSpace)) == "FAIL"
  }

  function NonBlank(s: string): seq<string> {
    if Trim(s, GoSpace) == "" then [] else [Trim(s, GoSpace)]
  }

  /** Who is blamed for a failed step without failures: the pattern, else the tests, else the step. */
  function Blamed(tests: seq<string>, runPattern: string, fallback: string): seq<string> {
    if NonBlank(runPattern) != [] then NonBlank(runPattern)
    else if Pieces(tests, GoSpace) != [] then Pieces(tests, GoSpace)
    else NonBlank(fallback)
  }

  function Attributed(status: string, fail: seq<string>, tests: seq<string>, runPattern: string, fallback: string)
    : seq<string>
  {
    if Failed(status) && fail == [] then Blamed(tests, runPattern, fallback) else fail
  }

  lemma {:induction false} SomePieces(tests: seq<string>)
    ensures Pieces(tests, GoSpace) != [] <==> exists t :: t in tests && Trim(t, GoSpace) != ""
  {
    hide Trim;
    if tests == [] {
    } else {
      SomePieces(tests[1..]);
      assert tests[0] in tests && forall t <- tests[1..] :: t in tests;
      assert forall t <- tests :: t == tests[0] || t in tests[1..];
    }
  }

  /** attributeImplicitFailures. */
  method AttributeImplicitFailures(
    status: string, fail: seq<string>, tests: seq<string>, runPattern: string, fallback: string)
    returns (r: seq<string>)
    ensures r == Attributed(status, fail, tests, runPattern, fallback)
    ensures fail != [] || Upper(Trim(status, GoSpace)) != "FAIL" ==> r == fail
    ensures fail == [] && Upper(Trim(status, GoSpace)) == "FAIL" ==>
      if Trim(runPattern, GoSpace) != "" then r == [Trim(runPattern, GoSpace)]
      else if exists t :: t in tests && Trim(t, GoSpace) != "" then r == Pieces(tests, GoSpace)
      else if Trim(fallback, GoSpace) != "" then r == [Trim(fallback, GoSpace)] else r == []
  {
    hide Trim, Upper;
    r := fail;
    SomePieces(tests);
    if !Failed(status) || |fail| > 0 {
      return;
    }
    if Trim(runPattern, GoSpace) != "" {
      return fail + [Trim(runPattern, GoSpace)];
    }
    for i := 0 to |tests|
      invariant r + Pieces(tests[i..], GoSpace) == Pieces(tests, GoSpace)
    {
      assert tests[i..][1..] == tests[i + 1..];
      var testName := Trim(tests[i], GoSpace);
      if testName != "" {
        r := r + [testName];
      }
    }
    if |r| > 0 {
      return;
    }
    if Trim(fallback, GoSpace) != "" {
      r := r + [Trim(fallback, GoSpace)];
    }
  }

  lemma {:induction false} NamesNotEmpty(tests: seq<string>)
    ensures forall p <- Pieces(tests, GoSpace) :: p != ""
  {
    hide Trim;
    if tests == [] {
    } else {
      NamesNotEmpty(tests[1..]);
    }
  }

  /** A failed step with a name never ends up without a recorded failure. */
  lemma FailureIsNamed(status: string, fail: seq<string>, tests: seq<string>, runPattern: string, fallback: string)
    requires Failed(status) && Trim(fallback, GoSpace) != ""
    ensures Attributed(status, fail, tests, runPattern, fallback) != []
    ensures fail != [] ==> Attributed(status, fail, tests, runPattern, fallback) == fail
    ensures fail == [] ==> forall name <- Attributed(status, fail, tests, runPattern, fallback) :: name != ""
  {
    hide Trim, Upper;
    NamesNotEmpty(tests);
  }

  // ---------- padding ----------

  function Bases(summary: RunSummary, step: SummaryStep): (bases: seq<string>)
    ensures bases != []
  {
    var named := NonBlank(summary.runPattern) + Pieces(summary.tests, GoSpace) + NonBlank(step.name);
    if named == [] then ["unknown"] else named
  }

  /** fallbackCaseBases. */
  method FallbackCaseBases(summary: RunSummary, step: SummaryStep) returns (bases: seq<string>)
    ensures bases == Bases(summary, step)
    ensures var pattern, name := Trim(summary.runPattern, GoSpace), Trim(step.name, GoSpace);
      var named := (if pattern == "" then [] else [pattern]) + Pieces(summary.tests, GoSpace)
                   + (if name == "" then [] else [name]);
      bases == if named == [] then ["unknown"] else named
  {
    hide Trim;
    bases := [];
    if Trim(summary.runPattern, GoSpace) != "" {
      bases := bases + [Trim(summary.runPattern, GoSpace)];
    }
    for i := 0 to |summary.tests|
      invariant bases + Pieces(summary.tests[i..], GoSpace)
             == NonBlank(summary.runPattern) + Pieces(summary.tests, GoSpace)
    {
      assert summary.tests[i..][1..] == summary.tests[i + 1..];
      var testName := Trim(summary.tests[i], GoSpace);
      if testName != "" {
        bases := bases + [testName];
      }
    }
    if Trim(step.name, GoSpace) != "" {
      bases := bases + [Trim(step.name, GoSpace)];
    }
    if bases == [] {
      bases := ["unknown"];
    }
  }

  /** The label of the k-th made-up case. */
  function FallbackLabel(bases: seq<string>, status: string, k: nat): string
    requires bases != []
  {
    bases[k % |bases|] + " [" + status + " fallback " + Dec(k + 1) + "]"
  }

  function Padded(items: seq<string>, want: int, status: string, bases: seq<string>): seq<string>
    requires bases != []
  {
    if want <= |items| then items
    else items + seq(want - |items|, k requires 0 <= k => FallbackLabel(bases, status, k))
  }

  lemma FullEnough(items: seq<string>, want: int, status: string, bases: seq<string>)
    requires bases != [] && want <= |items|
    ensures Padded(items, want, status, bases) == items
  {
  }

  lemma PaddedIs(out: seq<string>, items: seq<string>, status: string, bases: seq<string>)
    requires bases != [] && |items| < |out| && out[..|items|] == items
    requires forall k :: 0 <= k < |out| - |items| ==>
      out[|items| + k] == bases[k % |bases|] + " [" + status + " fallback " + Dec(k + 1) + "]"
    ensures out == Padded(items, |out|, status, bases)
  {
    hide Dec;
    var p := Padded(items, |out|, status, bases);
    forall i | |items| <= i < |out|
      ensures out[i] == p[i]
    {
      assert out[i] == out[|items| + (i - |items|)];
    }
    assert forall i :: 0 <= i < |items| ==> out[i] == out[..|items|][i] == p[i];
  }

  /** padCaseList. */
  method PadCaseList(items: seq<string>, want: int, status: string, summary: RunSummary, step: SummaryStep)
    returns (out: seq<string>)
    ensures out == Padded(items, want, status, Bases(summary, step))
    ensures var bases := Bases(summary, step);
      && (want <= |items| ==> out == items)
      && (want > |items| ==> |out| == want && out[..|items|] == items)
      && forall k :: 0 <= k < want - |items| ==>
           out[|items| + k] == bases[k % |bases|] + " [" + status + " fallback " + Dec(k + 1) + "]"
  {
    hide FallbackLabel, Bases, Padded, Dec;
    if want <= |items| {
      FullEnough(items, want, status, Bases(summary, step));
      return items;
    }
    out := items;
    var bases := FallbackCaseBases(summary, step);
    while |out| < want
      invariant |items| <= |out| <= want
      invariant out[..|items|] == items
      invariant forall k :: 0 <= k < |out| - |items| ==>
        out[|items| + k] == bases[k % |bases|] + " [" + status + " fallback " + Dec(k + 1) + "]"
      decreases want - |out|
    {
      var k := |out| - |items|;
      out := out + [bases[k % |bases|] + " [" + status + " fallback " + Dec(k + 1) + "]"];
    }
    PaddedIs(out, items, status, bases);
  }

  /** Texts that end in a blank, a number and a bracket are equal only when the numbers are. */
  lemma EqualEndings(a: string, b: string, m: nat, n: nat)
    requires a + " " + Dec(m) + "]" == b + " " + Dec(n) + "]"
    ensures m == n
  {
    hide Numeral;
    DecDigits(m);
    DecDigits(n);
    var c, d := Dec(m), Dec(n);
    var s, t := a + " " + c + "]", b + " " + d + "]";
    assert s[|a|] == ' ' && t[|b|] == ' ';
    forall x | |a| < x < |s| - 1
      ensures s[x] != ' '
    {
      assert s[x] == c[x - |a| - 1] && c[x - |a| - 1] in c;
    }
    forall x | |b| < x < |t| - 1
      ensures t[x] != ' '
    {
      assert t[x] == d[x - |b| - 1] && d[x - |b| - 1] in d;
    }
    assert |a| == |b|;
    assert c == s[|a| + 1..|s| - 1] && d == t[|b| + 1..|t| - 1];
    DecInjective(m, n);
  }

  lemma LabelEnding(bases: seq<string>, status: string, k: nat)
    requires bases != []
    ensures FallbackLabel(bases, status, k) == bases[k % |bases|] + " [" + status + " fallback" + " " + Dec(k + 1) + "]"
  {
    var b := bases[k % |bases|];
    assert b + " [" + status + " fallback " == b + " [" + status + " fallback" + " ";
  }

  /** The labels one padding call adds are pairwise distinct, whatever the base names contain. */
  lemma FallbacksDistinct(items: seq<string>, want: int, status: string, bases: seq<string>, i: nat, j: nat)
    requires bases != [] && |items| <= i < j < want
    ensures |Padded(items, want, status, bases)| == want
    ensures Padded(items, want, status, bases)[i] != Padded(items, want, status, bases)[j]
  {
    hide FallbackLabel;
    var k, l := i - |items|, j - |items|;
    if FallbackLabel(bases, status, k) == FallbackLabel(bases, status, l) {
      LabelEnding(bases, status, k);
      LabelEnding(bases, status, l);
      EqualEndings(bases[k % |bases|] + " [" + status + " fallback",
                   bases[l % |bases|] + " [" + status + " fallback", k + 1, l + 1);
    }
  }

  // ---------- collecting the cases of a nested run ----------

  /** The logs of a nested run, as lines; a missing log has none. */
  type Logs = string -> seq<string>

  function StatusWord(k: Kind): string {
    match k
    case Pass => "pass"
    case Fail => "fail"
    case Skip => "skip"
    case Deferred => "deferred"
  }

  lemma StatusWords()
    ensures StatusWord(Pass) == "pass" && StatusWord(Fail) == "fail"
    ensures StatusWord(Skip) == "skip" && StatusWord(Deferred) == "deferred"
  {
  }

  /** What the log of a step records, failures after attribution. */
  ghost function Found(summary: RunSummary, step: SummaryStep, lines: seq<string>, k: Kind): seq<string> {
    var recorded := Recorded(lines, |lines|, k);
    if k == Fail then Attributed(step.status, recorded, summary.tests, summary.runPattern, step.name) else recorded
  }

  ghost function StepCases(summary: RunSummary, step: SummaryStep, logs: Logs, k: Kind): seq<string> {
    Padded(Found(summary, step, logs(step.logPath), k), Count(step, k), StatusWord(k), Bases(summary, step))
  }

  ghost function Collected(summary: RunSummary, n: nat, logs: Logs, k: Kind): seq<string>
    requires n <= |summary.steps|
  {
    if n == 0 then [] else Collected(summary, n - 1, logs, k) + StepCases(summary, summary.steps[n - 1], logs, k)
  }

  /** attachStepName. */
  function WithStep(step: string, items: seq<TimedCase>): (r: seq<TimedCase>)
    ensures |r| == |items| && forall i :: 0 <= i < |items| ==> r[i] == items[i].(step := step)
  {
    seq(|items|, i requires 0 <= i < |items| => items[i].(step := step))
  }

  ghost function CollectedTimed(summary: RunSummary, n: nat, logs: Logs): seq<TimedCase>
    requires n <= |summary.steps|
  {
    if n == 0 then []
    else
      var step := summary.steps[n - 1];
      var lines := logs(step.logPath);
      CollectedTimed(summary, n - 1, logs) + WithStep(step.name, RecordedTimed(lines, |lines|))
  }

  /** collectCasesFromSummary, the summary file having been read. */
  method CollectCasesFromSummary(summary: RunSummary, logs: Logs)
    returns (pass: seq<string>, fail: seq<string>, skip: seq<string>, deferred: seq<string>, timed: seq<TimedCase>)
    ensures pass == Collected(summary, |summary.steps|, logs, Pass)
    ensures fail == Collected(summary, |summary.steps|, logs, Fail)
    ensures skip == Collected(summary, |summary.steps|, logs, Skip)
    ensures deferred == Collected(summary, |summary.steps|, logs, Deferred)
    ensures timed == CollectedTimed(summary, |summary.steps|, logs)
  {
    hide Recorded, RecordedTimed, Padded, Attributed, Bases;
    pass, fail, skip, deferred, timed := [], [], [], [], [];
    for i := 0 to |summary.steps|
      invariant pass == Collected(summary, i, logs, Pass) && fail == Collected(summary, i, logs, Fail)
      invariant skip == Collected(summary, i, logs, Skip) && deferred == Collected(summary, i, logs, Deferred)
      invariant timed == CollectedTimed(summary, i, logs)
    {
      var step := summary.steps[i];
      var stepPass, stepFail, stepSkip, stepDeferred, stepTimed := ParseTestOutput(logs(step.logPath));
      stepFail := AttributeImplicitFailures(step.status, stepFail, summary.tests, summary.runPattern, step.name);
      stepPass := PadCaseList(stepPass, step.passCount, "pass", summary, step);
      stepFail := PadCaseList(stepFail, step.failCount, "fail", summary, step);
      stepSkip := PadCaseList(stepSkip, step.skipCount, "skip", summary, step);
      stepDeferred := PadCaseList(stepDeferred, step.deferredCount, "deferred", summary, step);
      pass, fail := pass + stepPass, fail + stepFail;
      skip, deferred := skip + stepSkip, deferred + stepDeferred;
      timed := timed + WithStep(step.name, stepTimed);
    }
  }

  /** Over the first n steps, the larger of what the summary recorded and what the log shows. */
  ghost function SumOfLarger(summary: RunSummary, n: nat, logs: Logs, k: Kind): int
    requires n <= |summary.steps|
  {
    if n == 0 then 0
    else
      var step := summary.steps[n - 1];
      SumOfLarger(summary, n - 1, logs, k) + Larger(Count(step, k), |Found(summary, step, logs(step.logPath), k)|)
  }

  /** Aggregation never loses a recorded case: each list is as long as the sum over the steps of the larger
      of the recorded count and what the log shows, and what the log shows survives in order. */
  lemma {:induction false} CollectedLength(summary: RunSummary, n: nat, logs: Logs, k: Kind)
    requires n <= |summary.steps|
    ensures |Collected(summary, n, logs, k)| == SumOfLarger(summary, n, logs, k) >= SumCounts(summary.steps[..n], k)
    ensures n > 0 ==> Found(summary, summary.steps[n - 1], logs(summary.steps[n - 1].logPath), k)
                      <= StepCases(summary, summary.steps[n - 1], logs, k)
  {
    hide Found, Bases, FallbackLabel;
    if n == 0 {
    } else {
      CollectedLength(summary, n - 1, logs, k);
      assert summary.steps[..n][..n - 1] == summary.steps[..n - 1];
    }
  }

  /** A failed step with a name adds a failure, even when neither its log nor its count has one. */
  lemma FailedStepCounted(summary: RunSummary, n: nat, logs: Logs)
    requires 0 < n <= |summary.steps|
    requires Upper(Trim(summary.steps[n - 1].status, GoSpace)) == "FAIL"
    requires Trim(summary.steps[n - 1].name, GoSpace) != ""
    ensures |Collected(summary, n, logs, Fail)| > |Collected(summary, n - 1, logs, Fail)|
  {
    hide Recorded, Bases, FallbackLabel, Trim, Upper, Blamed;
    var step := summary.steps[n - 1];
    var lines := logs(step.logPath);
    FailureIsNamed(step.status, Recorded(lines, |lines|, Fail), summary.tests, summary.runPattern, step.name);
  }

  /** The list collected from one summary is never shorter than the total the nested run wrote into it,
      whatever the logs say by then. */
  lemma NoTotalFalls(summary: RunSummary, logs: Logs, k: Kind)
    requires TotalsAdd(summary, k)
    ensures |Collected(summary, |summary.steps|, logs, k)| >= Total(summary, k)
  {
    hide Collected, SumOfLarger, SumCounts;
    CollectedLength(summary, |summary.steps|, logs, k);
    assert summary.steps[..|summary.steps|] == summary.steps;
  }

  // ---------- the step around nested runs ----------

  /** The summary that a line of a step's log names. */
  function SummaryPath(line: string): Option<string> {
    var t := Trim(line, GoSpace);
    if "Summary: " <= t then TestLog.Value(t[|"Summary: "|..]) else None
  }

  /** The summaries the first n lines name, each once, in the order of their first mention. */
  function SummaryPaths(lines: seq<string>, n: nat): seq<string>
    requires n <= |lines|
  {
    if n == 0 then []
    else
      var before, path := SummaryPaths(lines, n - 1), SummaryPath(lines[n - 1]);
      if path.Some? && path.value !in before then before + [path.value] else before
  }

  /** extractSummaryPaths, over the lines of the log. */
  method ExtractSummaryPaths(lines: seq<string>) returns (out: seq<string>)
    ensures out == SummaryPaths(lines, |lines|)
  {
    hide SummaryPath;
    out := [];
    var seen: set<string> := {};
    for i := 0 to |lines|
      invariant out == SummaryPaths(lines, i) && forall p :: p in seen <==> p in out
    {
      var path := SummaryPath(lines[i]);
      if path.None? || path.value in seen {
        continue;
      }
      seen := seen + {path.value};
      out := out + [path.value];
    }
  }

  /** Every summary that is named is collected from, and none twice. */
  lemma {:induction false} PathsOnce(lines: seq<string>, n: nat)
    requires n <= |lines|
    ensures Distinct(SummaryPaths(lines, n))
    ensures forall p :: p in SummaryPaths(lines, n) <==> exists i :: 0 <= i < n && SummaryPath(lines[i]) == Some(p)
  {
    hide SummaryPath;
    if n == 0 {
    } else {
      PathsOnce(lines, n - 1);
    }
  }

  /** The summary files, as far as they can be read. */
  type Summaries = string -> Option<RunSummary>

  /** What the first n summaries hold, one after the other; one that cannot be read is skipped. */
  ghost function Nested(paths: seq<string>, n: nat, summaries: Summaries, logs: Logs, k: Kind): seq<string>
    requires n <= |paths|
  {
    if n == 0 then []
    else
      Nested(paths, n - 1, summaries, logs, k)
      + match summaries(paths[n - 1]) case None => [] case Some(s) => Collected(s, |s.steps|, logs, k)
  }

  ghost function NestedTimed(paths: seq<string>, n: nat, summaries: Summaries, logs: Logs): seq<TimedCase>
    requires n <= |paths|
  {
    if n == 0 then []
    else
      NestedTimed(paths, n - 1, summaries, logs)
      + match summaries(paths[n - 1]) case None => [] case Some(s) => CollectedTimed(s, |s.steps|, logs)
  }

  lemma NestedSteps(paths: seq<string>, n: nat, summaries: Summaries, logs: Logs)
    requires n <= |paths|
    ensures n == 0 ==>
      (forall k :: Nested(paths, n, summaries, logs, k) == []) && NestedTimed(paths, n, summaries, logs) == []
    ensures n > 0 && summaries(paths[n - 1]).None? ==>
      && (forall k :: Nested(paths, n, summaries, logs, k) == Nested(paths, n - 1, summaries, logs, k))
      && NestedTimed(paths, n, summaries, logs) == NestedTimed(paths, n - 1, summaries, logs)
    ensures n > 0 && summaries(paths[n - 1]).Some? ==>
      var s := summaries(paths[n - 1]).value;
      && (forall k ::
            Nested(paths, n, summaries, logs, k)
            == Nested(paths, n - 1, summaries, logs, k) + Collected(s, |s.steps|, logs, k))
      && NestedTimed(paths, n, summaries, logs)
         == NestedTimed(paths, n - 1, summaries, logs) + CollectedTimed(s, |s.steps|, logs)
  {
    hide Collected, CollectedTimed;
  }

  /** collectNestedSummaryCases. */
  method CollectNestedSummaryCases(lines: seq<string>, summaries: Summaries, logs: Logs)
    returns (pass: seq<string>, fail: seq<string>, skip: seq<string>, deferred: seq<string>, timed: seq<TimedCase>,
             ok: bool)
    ensures var paths := SummaryPaths(lines, |lines|);
      && ok == (paths != [])
      && pass == Nested(paths, |paths|, summaries, logs, Pass) && fail == Nested(paths, |paths|, summaries, logs, Fail)
      && skip == Nested(paths, |paths|, summaries, logs, Skip)
      && deferred == Nested(paths, |paths|, summaries, logs, Deferred)
      && timed == NestedTimed(paths, |paths|, summaries, logs)
  {
    hide Collected, CollectedTimed, SummaryPaths, Nested, NestedTimed;
    var paths := ExtractSummaryPaths(lines);
    ok := paths != [];
    pass, fail, skip, deferred, timed := [], [], [], [], [];
    NestedSteps(paths, 0, summaries, logs);
    for i := 0 to |paths|
      invariant pass == Nested(paths, i, summaries, logs, Pass) && fail == Nested(paths, i, summaries, logs, Fail)
      invariant skip == Nested(paths, i, summaries, logs, Skip)
      invariant deferred == Nested(paths, i, summaries, logs, Deferred)
      invariant timed == NestedTimed(paths, i, summaries, logs)
    {
      NestedSteps(paths, i + 1, summaries, logs);
      var summary := summaries(paths[i]);
      if summary.None? {
        continue;
      }
      var p, f, s, d, t := CollectCasesFromSummary(summary.value, logs);
      pass, fail, skip, deferred, timed := pass + p, fail + f, skip + s, deferred + d, timed + t;
    }
  }

  /** The cases a step reports: those of the summaries its log names, or its log's own if it names none; and a failed
      step without failures is blamed itself. */
  ghost function Reported(name: string, status: string, lines: seq<string>, summaries: Summaries, logs: Logs, k: Kind)
    : seq<string>
  {
    var paths := SummaryPaths(lines, |lines|);
    var cases := if paths == [] then Recorded(lines, |lines|, k) else Nested(paths, |paths|, summaries, logs, k);
    if k == Fail then Attributed(status, cases, [], "", name) else cases
  }

  /** The part of runStep behind the command: the cases of its result. */
  method CollectStepCases(name: string, status: string, lines: seq<string>, summaries: Summaries, logs: Logs)
    returns (pass: seq<string>, fail: seq<string>, skip: seq<string>, deferred: seq<string>, timed: seq<TimedCase>)
    ensures pass == Reported(name, status, lines, summaries, logs, Pass)
    ensures fail == Reported(name, status, lines, summaries, logs, Fail)
    ensures skip == Reported(name, status, lines, summaries, logs, Skip)
    ensures deferred == Reported(name, status, lines, summaries, logs, Deferred)
    ensures var paths := SummaryPaths(lines, |lines|);
      timed == WithStep(name, if paths == [] then RecordedTimed(lines, |lines|)
                              else NestedTimed(paths, |paths|, summaries, logs))
  {
    hide Recorded, RecordedTimed, Nested, NestedTimed, SummaryPaths, Attributed;
    pass, fail, skip, deferred, timed := ParseTestOutput(lines);
    var p, f, s, d, t, ok := CollectNestedSummaryCases(lines, summaries, logs);
    if ok {
      pass, fail, skip, deferred, timed := p, f, s, d, t;
    }
    fail := AttributeImplicitFailures(status, fail, [], "", name);
    timed := WithStep(name, timed);
  }

  /** Over the first n summaries that can be read, the larger of recorded and found of every step. */
  ghost function NestedSum(paths: seq<string>, n: nat, summaries: Summaries, logs: Logs, k: Kind): int
    requires n <= |paths|
  {
    if n == 0 then 0
    else
      NestedSum(paths, n - 1, summaries, logs, k)
      + match summaries(paths[n - 1]) case None => 0 case Some(s) => SumOfLarger(s, |s.steps|, logs, k)
  }

  /** The totals of the first n summaries that can be read. */
  function SumTotals(paths: seq<string>, n: nat, summaries: Summaries, k: Kind): int
    requires n <= |paths|
  {
    if n == 0 then 0
    else
      SumTotals(paths, n - 1, summaries, k)
      + match summaries(paths[n - 1]) case None => 0 case Some(s) => Total(s, k)
  }

  lemma WholeLength(s: RunSummary, logs: Logs, k: Kind)
    ensures |Collected(s, |s.steps|, logs, k)| == SumOfLarger(s, |s.steps|, logs, k)
  {
    hide Collected, SumOfLarger, Found, StepCases;
    CollectedLength(s, |s.steps|, logs, k);
  }

  /** The cases of every summary that can be read are all there, step by step, and nothing else is: neither a case of
      an unreadable summary nor, if any summary is named, one of the log's own. */
  lemma {:induction false} NestedLength(paths: seq<string>, n: nat, summaries: Summaries, logs: Logs, k: Kind)
    requires n <= |paths|
    ensures |Nested(paths, n, summaries, logs, k)| == NestedSum(paths, n, summaries, logs, k)
  {
    hide Collected, SumOfLarger;
    if n == 0 {
    } else {
      NestedLength(paths, n - 1, summaries, logs, k);
      if summaries(paths[n - 1]).Some? {
        WholeLength(summaries(paths[n - 1]).value, logs, k);
      }
    }
  }

  /** The total of a summary is the sum over its steps, as BuildRunSummary has it. */
  predicate TotalsAdd(s: RunSummary, k: Kind) {
    Total(s, k) == SumCounts(s.steps, k)
  }

  lemma {:induction false} NestedTotals(paths: seq<string>, n: nat, summaries: Summaries, logs: Logs, k: Kind)
    requires n <= |paths| && forall p <- paths :: summaries(p).Some? ==> TotalsAdd(summaries(p).value, k)
    ensures |Nested(paths, n, summaries, logs, k)| >= SumTotals(paths, n, summaries, k)
  {
    hide Collected, TotalsAdd, Total;
    if n == 0 {
    } else {
      NestedTotals(paths, n - 1, summaries, logs, k);
      if summaries(paths[n - 1]).Some? {
        assert paths[n - 1] in paths;
        NoTotalFalls(summaries(paths[n - 1]).value, logs, k);
      }
    }
  }

  /** So what a step reports about its nested runs is never less than the totals of the summaries it could read. */
  lemma StepKeepsTotals(name: string, status: string, lines: seq<string>, summaries: Summaries, logs: Logs, k: Kind)
    requires SummaryPaths(lines, |lines|) != []
    requires forall p <- SummaryPaths(lines, |lines|) :: summaries(p).Some? ==> TotalsAdd(summaries(p).value, k)
    ensures var paths := SummaryPaths(lines, |lines|);
      |Reported(name, status, lines, summaries, logs, k)| >= SumTotals(paths, |paths|, summaries, k)
  {
    hide SummaryPaths, Nested, SumTotals, Blamed, TotalsAdd;
    var paths := SummaryPaths(lines, |lines|);
    NestedTotals(paths, |paths|, summaries, logs, k);
  }

  /** A failed step that has no failure but its own name. */
  predicate BlamedItself(name: string, status: string) {
    Failed(status) && Trim(name, GoSpace) != ""
  }

  lemma BlamedOnce(status: string, fail: seq<string>, name: string)
    ensures |Attributed(status, fail, [], "", name)| == if fail == [] && BlamedItself(name, status) then 1 else |fail|
  {
    TrimTrimmed("", GoSpace);
  }

  /** A step reports fewer cases than its own log records exactly when the log names summaries and those that can be
      read hold fewer - apart from the one failure the step is then blamed for itself. */
  lemma CasesLostExactlyWhen(
    name: string, status: string, lines: seq<string>, summaries: Summaries, logs: Logs, k: Kind)
    ensures var paths, own := SummaryPaths(lines, |lines|), |Recorded(lines, |lines|, k)|;
      var nested := NestedSum(paths, |paths|, summaries, logs, k);
      |Reported(name, status, lines, summaries, logs, k)| < own
      <==> paths != [] && nested < own && !(k == Fail && own == 1 && BlamedItself(name, status))
  {
    hide SummaryPaths, Nested, NestedSum, Recorded, Attributed, BlamedItself;
    var paths := SummaryPaths(lines, |lines|);
    NestedLength(paths, |paths|, summaries, logs, k);
    var own, nested := Recorded(lines, |lines|, Fail), Nested(paths, |paths|, summaries, logs, Fail);
    BlamedOnce(status, if paths == [] then own else nested, name);
  }

  /** A line that names a summary. */
  lemma SummaryLine(path: string)
    requires path != "" && Trimmed(path, GoSpace)
    ensures SummaryPath("Summary: " + path) == Some(path)
  {
    hide Trim;
    var line := "Summary: " + path;
    assert line[|line| - 1] == path[|path| - 1];
    TrimTrimmed(line, GoSpace);
    TrimTrimmed(path, GoSpace);
    assert line[|"Summary: "|..] == path;
  }

  lemma {:induction false} NoneReadable(paths: seq<string>, n: nat, summaries: Summaries, logs: Logs, k: Kind)
    requires n <= |paths| && forall p <- paths :: summaries(p) == None
    ensures Nested(paths, n, summaries, logs, k) == []
  {
    if n == 0 {
    } else {
      assert paths[n - 1] in paths;
      NoneReadable(paths, n - 1, summaries, logs, k);
    }
  }

  /** So they are lost when no summary can be read: a passed case of a log that names one is not reported. */
  lemma UnreadableSummaryLosesCases(name: string, status: string, logs: Logs)
    ensures var lines, summaries := [Row(Pass, "TestA"), "Summary: s"], (path: string) => None;
      && Recorded(lines, 1, Pass) == ["TestA"]
      && Reported(name, status, lines, summaries, logs, Pass) == []
  {
    hide LineCase, SummaryPath, Trim, Row;
    var lines: seq<string> := [Row(Pass, "TestA"), "Summary: s"];
    var summaries: Summaries := (path: string) => None;
    RowCase(Pass, "TestA");
    SummaryLine("s");
    assert "Summary: " + "s" == "Summary: s";
    var paths := SummaryPaths(lines, 2);
    assert paths != [];
    NoneReadable(paths, |paths|, summaries, logs, Pass);
  }
}
