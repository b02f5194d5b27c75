/** The Markdown report: ci.go writes it, scripts/recommend_budgets.js reads it. */
module Report {
  import opened Text
  import opened Numerals
  import opened Durations
  import opened GoDurations
  import opened Thresholds
  import opened TestLog
  import opened Ranking

  // ---------- table rows ----------

  function Cells(cells: seq<string>): string {
    if cells == [] then "" else " " + cells[0] + " " + ("|" + Cells(cells[1..]))
  }

  function TableRow(cells: seq<string>): string {
    "|" + Cells(cells)
  }

  lemma {:induction false} SplitGrows(a: string, b: string, sep: char)
    ensures |Split(a + [sep] + b, sep)| >= 1 + |Split(b, sep)|
  {
    var s := a + [sep] + b;
    if a == "" {
      assert s[1..] == b;
    } else {
      assert s[1..] == a[1..] + [sep] + b;
      SplitGrows(a[1..], b, sep);
    }
  }

  lemma CellsUnfold(cells: seq<string>)
    requires cells != []
    ensures Cells(cells) == (" " + cells[0] + " ") + ['|'] + Cells(cells[1..])
  {
  }

  lemma {:induction false} ManyPieces(cells: seq<string>)
    ensures |Split(Cells(cells), '|')| >= |cells| + 1
  {
    hide Split;
    if cells == [] {
    } else {
      ManyPieces(cells[1..]);
      CellsUnfold(cells);
      SplitGrows(" " + cells[0] + " ", Cells(cells[1..]), '|');
    }
  }

  lemma {:induction false} ExactPieces(cells: seq<string>)
    requires forall c <- cells :: '|' !in c
    ensures |Split(Cells(cells), '|')| == |cells| + 1
  {
    hide Split;
    if cells == [] {
      SplitNone("", '|');
    } else {
      assert cells[0] in cells && forall c <- cells[1..] :: c in cells;
      ExactPieces(cells[1..]);
      CellsUnfold(cells);
      SplitAt(" " + cells[0] + " ", Cells(cells[1..]), '|');
    }
  }

  /** A row starts with a bar, a blank and its first cell. */
  lemma RowStart(cells: seq<string>)
    requires cells != []
    ensures var s := TableRow(cells);
      |s| >= 4 && s[0] == '|' && s[1] == ' ' && (cells[0] != "" ==> s[2] == cells[0][0])
  {
  }

  /** A row ends with its last cell, a blank and a bar. */
  lemma {:induction false} RowEnd(cells: seq<string>)
    requires cells != []
    ensures var s, last := Cells(cells), cells[|cells| - 1];
      && |s| >= 3 && s[|s| - 1] == '|' && (last != "" ==> |s| >= 4 && s[|s| - 3] == last[|last| - 1])
  {
    CellsUnfold(cells);
    var head, tail := " " + cells[0] + " " + "|", Cells(cells[1..]);
    assert Cells(cells) == head + tail;
    if |cells| == 1 {
      assert tail == "" && head + tail == head;
    } else {
      RowEnd(cells[1..]);
    }
  }

  // ---------- the recommender's reader ----------

  /** | Step | Status | Duration | Skips | Log | */
  const STEP_HEADER := TableRow(["Step", "Status", "Duration", "Skips", "Log"])

  /** | Rank | Test | Duration | Status | Step | */
  const SLOW_HEADER := TableRow(["Rank", "Test", "Duration", "Status", "Step"])

  function FindHeader(lines: seq<string>, from: nat, header: string): (idx: nat)
    requires from <= |lines|
    ensures from <= idx <= |lines|
    decreases |lines| - from
  {
    if from == |lines| || Trim(lines[from], JsSpace) == header then from else FindHeader(lines, from + 1, header)
  }

  function RowsFrom(lines: seq<string>, i: nat): seq<string>
    decreases |lines| - i
  {
    if i >= |lines| then []
    else
      var line := Trim(lines[i], JsSpace);
      if !("|" <= line) then []
      else if "| ---" <= line then RowsFrom(lines, i + 1)
      else [line] + RowsFrom(lines, i + 1)
  }

  function RowsAfter(lines: seq<string>, header: string): seq<string> {
    var idx := FindHeader(lines, 0, header);
    if idx == |lines| then [] else RowsFrom(lines, idx + 2)
  }

  /** extractRowsAfterHeader. */
  method ExtractRowsAfterHeader(lines: seq<string>, headerLine: string) returns (rows: seq<string>)
    ensures rows == RowsAfter(lines, headerLine)
  {
    hide Trim;
    var idx := 0;
    while idx < |lines| && Trim(lines[idx], JsSpace) != headerLine
      invariant idx <= |lines| && FindHeader(lines, idx, headerLine) == FindHeader(lines, 0, headerLine)
    {
      idx := idx + 1;
    }
    rows := [];
    if idx == |lines| {
      return;
    }
    var i := idx + 2;
    while i < |lines|
      invariant rows + RowsFrom(lines, i) == RowsFrom(lines, idx + 2)
      decreases |lines| - i
    {
      var line := Trim(lines[i], JsSpace);
      if !("|" <= line) {
        break;
      }
      if !("| ---" <= line) {
        rows := rows + [line];
      }
      i := i + 1;
    }
  }

  function TrimAll(parts: seq<string>): (r: seq<string>)
    ensures |r| == |parts| && forall i :: 0 <= i < |parts| ==> r[i] == Trim(parts[i], JsSpace)
  {
    seq(|parts|, i requires 0 <= i < |parts| => Trim(parts[i], JsSpace))
  }

  /** parseMarkdownRow. */
  function MarkdownRow(line: string): Option<seq<string>> {
    var raw := Trim(line, JsSpace);
    if raw == "" || raw[0] != '|' || raw[|raw| - 1] != '|' then None
    else
      var parts := Split(raw, '|');
      if |parts| < 2 then Some([]) else Some(TrimAll(parts[1..|parts| - 1]))
  }

  /** The duration a slow-table row contributes. */
  function SlowDuration(row: string): Option<real> {
    var cols := MarkdownRow(row);
    if cols.None? || |cols.value| < 5 then None else ParseMs(cols.value[2])
  }

  function SlowDurations(rows: seq<string>): seq<real> {
    if rows == [] then []
    else
      var d := SlowDuration(rows[0]);
      (if d.Some? then [d.value] else []) + SlowDurations(rows[1..])
  }

  /** inferGroupFromTestName. */
  function GroupOfTest(name: string): Option<string> {
    if !("Test" <= name) || |name| < 5 then None
    else
      match name[4]
      case 'A' => Some("config")
      case 'B' => Some("governance")
      case 'C' => Some("staking")
      case 'D' => Some("staking")
      case 'E' => Some("delegation")
      case 'F' => Some("punish")
      case 'G' => Some("punish")
      case 'H' => Some("rewards")
      case 'I' => Some("rewards")
      case 'Y' => Some("epoch")
      case 'Z' => Some("epoch")
      case _ => None
  }

  /** The group a step's duration counts for. */
  function GroupOfStep(step: string): Option<string> {
    if "group_" <= step then
      var group := Lower(Trim(step[|"group_"|..], JsSpace));
      if group == "" then None else Some(group)
    else if "test_Test" <= step then GroupOfTest(step[|"test_"|..])
    else None
  }

  datatype Parsed = Parsed(groups: seq<(string, real)>, slow: seq<real>, logs: seq<string>)

  /** The columns of a step row and its duration, if it has both. */
  function StepColumns(row: string): (r: Option<(seq<string>, real)>)
    ensures r.Some? ==> |r.value.0| >= 5
  {
    var cols := MarkdownRow(row);
    if cols.None? || |cols.value| < 5 then None
    else
      match ParseMs(cols.value[2])
      case None => None
      case Some(d) => Some((cols.value, d))
  }

  function StepGroups(rows: seq<string>): seq<(string, real)> {
    if rows == [] then []
    else
      var c := StepColumns(rows[0]);
      (if c.Some? && GroupOfStep(c.value.0[0]).Some? then [(GroupOfStep(c.value.0[0]).value, c.value.1)] else [])
      + StepGroups(rows[1..])
  }

  function StepLogs(rows: seq<string>): seq<string> {
    if rows == [] then []
    else
      var c := StepColumns(rows[0]);
      (if c.Some? && c.value.0[4] != "" && c.value.0[4] != "-" then [c.value.0[4]] else []) + StepLogs(rows[1..])
  }

  function Parse(text: string): Parsed {
    var lines := JsLines(text);
    var steps := RowsAfter(lines, STEP_HEADER);
    Parsed(StepGroups(steps), SlowDurations(RowsAfter(lines, SLOW_HEADER)), StepLogs(steps))
  }

  lemma StepRowsFrom(rows: seq<string>, i: nat)
    requires i < |rows|
    ensures var c := StepColumns(rows[i]);
      && StepGroups(rows[i..])
         == (if c.Some? && GroupOfStep(c.value.0[0]).Some? then [(GroupOfStep(c.value.0[0]).value, c.value.1)] else [])
            + StepGroups(rows[i + 1..])
      && StepLogs(rows[i..])
         == (if c.Some? && c.value.0[4] != "" && c.value.0[4] != "-" then [c.value.0[4]] else [])
            + StepLogs(rows[i + 1..])
  {
    hide StepColumns, GroupOfStep;
    assert rows[i..][1..] == rows[i + 1..] && rows[i..][0] == rows[i];
  }

  lemma SlowRowsFrom(rows: seq<string>, i: nat)
    requires i < |rows|
    ensures var d := SlowDuration(rows[i]);
      SlowDurations(rows[i..]) == (if d.Some? then [d.value] else []) + SlowDurations(rows[i + 1..])
  {
    hide SlowDuration;
    assert rows[i..][1..] == rows[i + 1..] && rows[i..][0] == rows[i];
  }

  lemma NoRowsLeft(rows: seq<string>)
    ensures StepGroups(rows[|rows|..]) == [] && StepLogs(rows[|rows|..]) == [] && SlowDurations(rows[|rows|..]) == []
    ensures rows[0..] == rows
  {
  }

  /** The loop of parseReport over the step rows. */
  method CollectStepRows(stepRows: seq<string>) returns (groupDurations: seq<(string, real)>, logPaths: seq<string>)
    ensures groupDurations == StepGroups(stepRows) && logPaths == StepLogs(stepRows)
  {
    hide StepColumns, GroupOfStep, StepGroups, StepLogs, SlowDurations;
    groupDurations, logPaths := [], [];
    NoRowsLeft(stepRows);
    for i := 0 to |stepRows|
      invariant groupDurations + StepGroups(stepRows[i..]) == StepGroups(stepRows)
      invariant logPaths + StepLogs(stepRows[i..]) == StepLogs(stepRows)
    {
      StepRowsFrom(stepRows, i);
      var columns := StepColumns(stepRows[i]);
      if columns.Some? {
        var (cols, duration) := columns.value;
        if cols[4] != "" && cols[4] != "-" {
          logPaths := logPaths + [cols[4]];
        }
        var group := GroupOfStep(cols[0]);
        if group.Some? {
          groupDurations := groupDurations + [(group.value, duration)];
        }
      }
    }
  }

  /** parseReport, the file having been read. */
  method ParseReport(text: string) returns (parsed: Parsed)
    ensures parsed == Parse(text)
  {
    hide JsLines, RowsAfter, SlowDuration, StepGroups, StepLogs, SlowDurations;
    var lines := JsLines(text);
    var stepRows := ExtractRowsAfterHeader(lines, STEP_HEADER);
    var groupDurations, logPaths := CollectStepRows(stepRows);
    var slowRows := ExtractRowsAfterHeader(lines, SLOW_HEADER);
    var slowDurations: seq<real> := [];
    NoRowsLeft(slowRows);
    for i := 0 to |slowRows|
      invariant slowDurations + SlowDurations(slowRows[i..]) == SlowDurations(slowRows)
    {
      SlowRowsFrom(slowRows, i);
      var duration := SlowDuration(slowRows[i]);
      if duration.Some? {
        slowDurations := slowDurations + [duration.value];
      }
    }
    parsed := Parsed(groupDurations, slowDurations, logPaths);
  }

  // ---------- the runner's writer ----------

  datatype Run = Run(
    generated: string, mode: string, groups: string, tests: string, runPattern: string,
    configPath: string, gocache: string, debug: bool,
    slowTop: int, slowThreshold: int, thresholds: GoThresholds)

  function RankedRow(rank: nat, tc: TimedCase): string {
    TableRow([Dec(rank), tc.name, DurationString(tc.duration), DisplayStatus(tc.status), tc.step])
  }

  /** The rows of a ranked table, the first rank given. */
  function RankedRows(first: nat, cases: seq<TimedCase>): seq<string>
    decreases |cases|
  {
    if cases == [] then [] else [RankedRow(first, cases[0])] + RankedRows(first + 1, cases[1..])
  }

  const FIVE_DASHES := TableRow(["---", "---", "---", "---", "---"])
  const SIX_DASHES := TableRow(["---", "---", "---", "---", "---", "---"])
  const GROUP_HEADER := TableRow(["Group", "Step", "Duration", "Threshold", "Budget"])

  /** Today's step table has a column for deferred tests. */
  const SIX_COLUMN_HEADER := TableRow(["Step", "Status", "Duration", "Skips", "Deferred", "Log"])

  function SlowTop(run: Run): (n: nat)
    ensures n > 0
  {
    if run.slowTop <= 0 then 20 else run.slowTop
  }

  function Top(run: Run, slow: seq<TimedCase>): seq<TimedCase> {
    slow[..if |slow| < SlowTop(run) then |slow| else SlowTop(run)]
  }

  function Rounded(d: int): string {
    DurationString(RoundTo(d, 1_000_000_000))
  }

  function GroupRow(g: GroupDuration): string {
    TableRow([g.group, g.step, Rounded(g.duration),
              if g.threshold > 0 then DurationString(g.threshold) else "-",
              if g.threshold <= 0 then "-" else if g.exceeded then "EXCEEDED" else "OK"])
  }

  function GroupRows(groups: seq<GroupDuration>): seq<string> {
    if groups == [] then [] else [GroupRow(groups[0])] + GroupRows(groups[1..])
  }

  function CountText(items: seq<string>): string {
    if items == [] then "-" else Dec(|items|)
  }

  function StepRow(res: StepResult): string {
    TableRow([res.name, DisplayStatus(res.status), Rounded(res.duration),
              CountText(res.skipTests), CountText(res.deferredTests), res.logPath])
  }

  function StepTable(results: seq<StepResult>): seq<string> {
    if results == [] then [] else [StepRow(results[0])] + StepTable(results[1..])
  }

  function CommaJoin(items: seq<string>): string {
    if items == [] then "" else if |items| == 1 then items[0] else items[0] + ", " + CommaJoin(items[1..])
  }

  function Details(res: StepResult): seq<string> {
    ["### " + res.name, "", "- Status: " + DisplayStatus(res.status), "- Duration: " + Rounded(res.duration),
     "- Command: `" + res.command + "`", "- Log: " + res.logPath]
    + (if res.failTests == [] then [] else ["- Failed Tests: " + CommaJoin(res.failTests)])
    + (if res.skipTests == [] then [] else ["- Skipped Tests: " + CommaJoin(res.skipTests)])
    + (if res.deferredTests == [] then [] else ["- Deferred Tests: " + CommaJoin(res.deferredTests)])
    + (if res.passTests == [] then [] else ["- Passed Tests: " + Dec(|res.passTests|)])
    + [""]
  }

  function AllDetails(results: seq<StepResult>): seq<string> {
    if results == [] then [] else Details(results[0]) + AllDetails(results[1..])
  }

  function Optional(caption: string, text: string): seq<string> {
    if Trim(text, GoSpace) == "" then [] else [caption + text]
  }

  function Preamble(run: Run, results: seq<StepResult>): seq<string> {
    ["# Integration Test Report", "", "- Generated: " + run.generated, "- Mode: " + run.mode]
    + Optional("- Groups: ", run.groups) + Optional("- Tests: ", run.tests)
    + Optional("- Run Pattern: ", run.runPattern)
    + ["- Config: " + run.configPath, "- GOCACHE: " + run.gocache,
       "- Debug: " + (if run.debug then "true" else "false"),
       "- Totals: pass=" + Dec(SumTests(results, Pass)) + " fail=" + Dec(SumTests(results, Fail))
       + " skip=" + Dec(SumTests(results, Skip)) + " deferred=" + Dec(SumTests(results, Deferred)), ""]
  }

  function GroupSection(groups: seq<GroupDuration>): seq<string> {
    if groups == [] then []
    else ["## Group Runtime Profile", "", GROUP_HEADER, FIVE_DASHES]
         + GroupRows(groups) + [""]
  }

  function StepSection(results: seq<StepResult>): seq<string> {
    [SIX_COLUMN_HEADER, SIX_DASHES] + StepTable(results)
  }

  function SlowSection(run: Run, slow: seq<TimedCase>): seq<string> {
    if slow == [] then []
    else
      ["", "## Slow Tests (Top " + Dec(SlowTop(run)) + ")", "", SLOW_HEADER, FIVE_DASHES]
      + RankedRows(1, Top(run, slow))
  }

  function AlertSection(run: Run, slow: seq<TimedCase>): seq<string> {
    if run.slowThreshold <= 0 then []
    else
      ["", "## Slow Alerts (>= " + DurationString(run.slowThreshold) + ")", ""]
      + (if AtLeast(slow, run.slowThreshold) == [] then ["No test case exceeded the slow threshold."]
         else [SLOW_HEADER, FIVE_DASHES] + RankedRows(1, AtLeast(slow, run.slowThreshold)))
      + [""]
  }

  function ReportLines(run: Run, results: seq<StepResult>, groups: seq<GroupDuration>, slow: seq<TimedCase>)
    : seq<string>
  {
    Preamble(run, results) + GroupSection(groups) + StepSection(results)
    + SlowSection(run, slow) + (AlertSection(run, slow) + ["", "## Details", ""] + AllDetails(results))
  }

  datatype ReportStats = ReportStats(slowCaseAlerts: nat, groupAlerts: nat)

  function ExceededCount(groups: seq<GroupDuration>): nat {
    if groups == [] then 0
    else ExceededCount(groups[..|groups| - 1])
         + if groups[|groups| - 1].threshold > 0 && groups[|groups| - 1].exceeded then 1 else 0
  }

  lemma NoGroups()
    ensures GroupRows([]) == [] && ExceededCount([]) == 0
  {
  }

  lemma GroupStep(groups: seq<GroupDuration>, i: nat)
    requires i < |groups|
    ensures GroupRows(groups[i..]) == [GroupRow(groups[i])] + GroupRows(groups[i + 1..])
    ensures ExceededCount(groups[..i + 1])
         == ExceededCount(groups[..i]) + if groups[i].threshold > 0 && groups[i].exceeded then 1 else 0
  {
    hide GroupRow;
    assert groups[i..][1..] == groups[i + 1..];
    assert groups[..i + 1][..i] == groups[..i];
  }

  /** The group runtime profile of writeReport, and how many groups exceed their budget. */
  method WriteGroups(groups: seq<GroupDuration>) returns (lines: seq<string>, alerts: nat)
    ensures lines == GroupSection(groups) && alerts == ExceededCount(groups)
  {
    hide GroupRow, TableRow, GroupRows, ExceededCount;
    lines, alerts := [], 0;
    if groups == [] {
      NoGroups();
      return;
    }
    NoGroups();
    assert groups[..0] == [] && groups[0..] == groups && groups[|groups|..] == [];
    for i := 0 to |groups|
      invariant lines + GroupRows(groups[i..]) == GroupRows(groups)
      invariant alerts == ExceededCount(groups[..i])
    {
      GroupStep(groups, i);
      var g := groups[i];
      if g.threshold > 0 && g.exceeded {
        alerts := alerts + 1;
      }
      lines := lines + [GroupRow(g)];
    }
    assert groups[..|groups|] == groups;
    lines := ["## Group Runtime Profile", "", GROUP_HEADER, FIVE_DASHES] + lines + [""];
  }

  /** The step table of writeReport. */
  method WriteSteps(results: seq<StepResult>) returns (lines: seq<string>)
    ensures lines == StepSection(results)
  {
    hide StepRow;
    lines := [];
    for i := 0 to |results|
      invariant lines + StepTable(results[i..]) == StepTable(results)
    {
      assert results[i..][1..] == results[i + 1..];
      lines := lines + [StepRow(results[i])];
    }
    lines := [SIX_COLUMN_HEADER, SIX_DASHES] + lines;
  }

  /** The rows of a ranked table, numbered from 1. */
  method RankRows(cases: seq<TimedCase>) returns (rows: seq<string>)
    ensures rows == RankedRows(1, cases)
  {
    hide RankedRow;
    rows := [];
    for i := 0 to |cases|
      invariant rows + RankedRows(i + 1, cases[i..]) == RankedRows(1, cases)
    {
      assert cases[i..][1..] == cases[i + 1..];
      rows := rows + [RankedRow(i + 1, cases[i])];
    }
  }

  /** The slow tests and slow alerts of writeReport. */
  method WriteSlow(run: Run, slow: seq<TimedCase>) returns (lines: seq<string>, alertCount: nat)
    ensures lines == SlowSection(run, slow) + AlertSection(run, slow)
    ensures alertCount == if run.slowThreshold > 0 then |AtLeast(slow, run.slowThreshold)| else 0
  {
    hide RankedRows, AtLeast, SlowTop, Dec, DurationString, TableRow;
    lines, alertCount := [], 0;
    if slow != [] {
      var limit := SlowTop(run);
      if |slow| < limit {
        limit := |slow|;
      }
      var rows := RankRows(slow[..limit]);
      lines := ["", "## Slow Tests (Top " + Dec(SlowTop(run)) + ")", "", SLOW_HEADER, FIVE_DASHES] + rows;
    }
    if run.slowThreshold > 0 {
      var alerts := CollectSlowCaseAlerts(slow, run.slowThreshold);
      alertCount := |alerts|;
      lines := lines + ["", "## Slow Alerts (>= " + DurationString(run.slowThreshold) + ")", ""];
      if alerts == [] {
        lines := lines + ["No test case exceeded the slow threshold."];
      } else {
        var rows := RankRows(alerts);
        lines := lines + ([SLOW_HEADER, FIVE_DASHES] + rows);
      }
      lines := lines + [""];
    }
  }

  /** The details of writeReport. */
  method WriteDetails(results: seq<StepResult>) returns (lines: seq<string>)
    ensures lines == AllDetails(results)
  {
    hide Details;
    lines := [];
    for i := 0 to |results|
      invariant lines + AllDetails(results[i..]) == AllDetails(results)
    {
      assert results[i..][1..] == results[i + 1..];
      lines := lines + Details(results[i]);
    }
  }

  ghost predicate Describes(text: string, stats: ReportStats, run: Run, results: seq<StepResult>,
                            groups: seq<GroupDuration>, slow: seq<TimedCase>)
  {
    && text == Unlines(ReportLines(run, results, groups, slow))
    && stats.groupAlerts == ExceededCount(groups)
    && stats.slowCaseAlerts == if run.slowThreshold > 0 then |AtLeast(slow, run.slowThreshold)| else 0
  }

  /** A report on the results, for some rankings of them: ties in the rankings are open. */
  ghost predicate IsReport(text: string, stats: ReportStats, run: Run, results: seq<StepResult>) {
    exists groups, slow :: GroupRanking(groups, results, run.thresholds) && SlowRanking(slow, results)
      && Describes(text, stats, run, results, groups, slow)
  }

  /** writeReport. The string builder is kept as the list of its lines. */
  method WriteReport(run: Run, results: seq<StepResult>) returns (text: string, stats: ReportStats)
    ensures IsReport(text, stats, run, results)
  {
    hide Preamble, GroupSection, StepSection, SlowSection, AlertSection, AllDetails, Unlines, AtLeast, ExceededCount,
         GroupRanking, SlowRanking;
    var groups := CollectGroupDurations(results, run.thresholds);
    var profile, groupAlerts := WriteGroups(groups);
    var steps := WriteSteps(results);
    var slow := CollectSlowCases(results);
    var slowLines, slowAlerts := WriteSlow(run, slow);
    var details := WriteDetails(results);
    var sb := Preamble(run, results) + profile + steps + slowLines + (["", "## Details", ""] + details);
    assert sb == ReportLines(run, results, groups, slow);
    text := Unlines(sb);
    stats := ReportStats(slowAlerts, groupAlerts);
    assert Describes(text, stats, run, results, groups, slow);
  }
}
