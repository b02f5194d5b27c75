/** What the recommender gets out of a report the runner wrote: the durations of its slow table,
    and - the step table having six columns by now - nothing else. */
module ReportRoundTrip {
  import opened Text
  import opened Numerals
  import opened Sorting
  import opened Durations
  import opened GoDurations
  import opened Thresholds
  import opened TestLog
  import opened Ranking
  import opened Report

  // ---------- lines that are no header ----------

  function Seen(line: string): string {
    Trim(DropCR(line), JsSpace)
  }

  /** A line the recommender takes for neither header. */
  predicate Quiet(line: string) {
    SingleLine(line) && Seen(line) != SLOW_HEADER && Seen(line) != STEP_HEADER
  }

  predicate NoStepHeader(line: string) {
    SingleLine(line) && Seen(line) != STEP_HEADER
  }

  ghost predicate AllQuiet(lines: seq<string>) {
    forall l <- lines :: Quiet(l)
  }

  ghost predicate NoStepHeaders(lines: seq<string>) {
    forall l <- lines :: NoStepHeader(l)
  }

  lemma RowPieces(cells: seq<string>)
    requires forall c <- cells :: '|' !in c
    ensures |Split(TableRow(cells), '|')| == |cells| + 2
  {
    hide Split;
    ExactPieces(cells);
    SplitAt("", Cells(cells), '|');
    assert "" + ['|'] + Cells(cells) == TableRow(cells);
  }

  /** Five columns make seven pieces. */
  lemma HeaderPieces()
    ensures |Split(SLOW_HEADER, '|')| == 7 && |Split(STEP_HEADER, '|')| == 7
  {
    hide Split, Cells;
    RowPieces(["Rank", "Test", "Duration", "Status", "Step"]);
    RowPieces(["Step", "Status", "Duration", "Skips", "Log"]);
  }

  lemma BlankIsQuiet()
    ensures Quiet("")
  {
  }

  lemma TrimKeepsFirst(t: string)
    requires t != "" && !Cuts(JsSpace, t[0])
    ensures Trim(t, JsSpace) == "" || Trim(t, JsSpace)[0] == t[0]
  {
    TrimLeftAt(t, 0, JsSpace);
    TrimRightFacts(t[0..], JsSpace);
  }

  /** Prose lines: nothing that starts with another character becomes a header. */
  lemma ProseIsQuiet(line: string)
    requires SingleLine(line) && line != "" && line[0] != '|' && !Cuts(JsSpace, line[0])
    ensures Quiet(line)
  {
    hide Trim;
    var t := DropCR(line);
    assert t != "" && t[0] == line[0];
    TrimKeepsFirst(t);
  }

  /** Table rows are seen as they are written. */
  lemma RowIsSeen(line: string)
    requires line != "" && line[0] == '|' && line[|line| - 1] == '|'
    ensures Seen(line) == line && DropCR(line) == line && Trim(line, JsSpace) == line
  {
    TrimTrimmed(line, JsSpace);
  }

  lemma TableRowSeen(cells: seq<string>)
    requires cells != []
    ensures Seen(TableRow(cells)) == TableRow(cells)
    ensures DropCR(TableRow(cells)) == TableRow(cells) && Trim(TableRow(cells), JsSpace) == TableRow(cells)
  {
    hide Cells, Trim;
    RowEnd(cells);
    RowIsSeen(TableRow(cells));
  }

  lemma {:induction false} CellsSingle(cells: seq<string>)
    requires SingleLines(cells)
    ensures SingleLine(Cells(cells))
  {
    if cells == [] {
    } else {
      assert cells[0] in cells && forall c <- cells[1..] :: c in cells;
      CellsSingle(cells[1..]);
    }
  }

  lemma StatusSingle(status: string)
    requires SingleLine(status)
    ensures SingleLine(DisplayStatus(status))
  {
    hide Trim, Upper;
    TrimFacts(status, GoSpace);
  }

  lemma DurationSingle(d: int)
    ensures SingleLine(DurationString(d)) && '|' !in DurationString(d)
    ensures Trim(DurationString(d), JsSpace) == DurationString(d)
    ensures DurationString(d) != ""
  {
    hide DurationString, Trim;
    PrintedIsClean(d);
    var s := DurationString(d);
    assert s[0] in s && s[|s| - 1] in s;
    assert IsPrintedChar(s[0]) && IsPrintedChar(s[|s| - 1]);
    TrimTrimmed(s, JsSpace);
  }

  lemma DecSingle(n: nat)
    ensures SingleLine(Dec(n)) && '|' !in Dec(n)
  {
    DecDigits(n);
  }

  lemma HeaderStarts()
    ensures |SLOW_HEADER| > 3 && SLOW_HEADER[2] == 'R' && |STEP_HEADER| > 3 && STEP_HEADER[2] == 'S'
  {
    hide Cells;
    Report.RowStart(["Rank", "Test", "Duration", "Status", "Step"]);
    Report.RowStart(["Step", "Status", "Duration", "Skips", "Log"]);
  }

  /** A ranked row starts with a digit, the headers with a letter. */
  lemma RankedRowIsQuiet(rank: nat, tc: TimedCase)
    requires SingleLine(tc.name) && SingleLine(tc.status) && SingleLine(tc.step)
    ensures Quiet(RankedRow(rank, tc)) && !("| ---" <= RankedRow(rank, tc))
  {
    hide Cells, DisplayStatus, DurationString, Dec, Trim, DropCR;
    var cells := [Dec(rank), tc.name, DurationString(tc.duration), DisplayStatus(tc.status), tc.step];
    DecSingle(rank);
    DecStarts(rank);
    DurationSingle(tc.duration);
    StatusSingle(tc.status);
    CellsSingle(cells);
    Report.RowStart(cells);
    TableRowSeen(cells);
    HeaderStarts();
  }

  lemma LastOfRow(cells: seq<string>)
    requires cells != [] && cells[|cells| - 1] != ""
    ensures var s, last := TableRow(cells), cells[|cells| - 1];
      |s| >= 5 && s[|s| - 3] == last[|last| - 1]
  {
    hide Cells;
    RowEnd(cells);
  }

  lemma HeaderLast()
    ensures |SLOW_HEADER| >= 5 && SLOW_HEADER[|SLOW_HEADER| - 3] == 'p'
    ensures |STEP_HEADER| >= 5 && STEP_HEADER[|STEP_HEADER| - 3] == 'g'
  {
    hide Cells;
    LastOfRow(["Rank", "Test", "Duration", "Status", "Step"]);
    LastOfRow(["Step", "Status", "Duration", "Skips", "Log"]);
  }

  /** A group row ends with its budget verdict, the headers with their last column. */
  lemma GroupRowIsQuiet(g: GroupDuration)
    requires SingleLine(g.group) && SingleLine(g.step)
    ensures Quiet(GroupRow(g))
  {
    hide Cells, DurationString, RoundTo, Trim, DropCR;
    var budget := if g.threshold <= 0 then "-" else if g.exceeded then "EXCEEDED" else "OK";
    var threshold := if g.threshold > 0 then DurationString(g.threshold) else "-";
    var cells := [g.group, g.step, Rounded(g.duration), threshold, budget];
    DurationSingle(RoundTo(g.duration, 1_000_000_000));
    DurationSingle(g.threshold);
    CellsSingle(cells);
    RowEnd(cells);
    TableRowSeen(cells);
    LastOfRow(cells);
    HeaderLast();
    var last := budget[|budget| - 1];
    assert last == '-' || last == 'D' || last == 'K';
  }

  /** A row with more than five cells has a column more than either header, whatever bars its texts contain. */
  lemma WideRowIsQuiet(cells: seq<string>)
    requires |cells| > 5 && SingleLines(cells)
    ensures Quiet(TableRow(cells))
  {
    hide Cells, Trim, DropCR, Split;
    CellsSingle(cells);
    TableRowSeen(cells);
    ManyPieces(cells);
    SplitGrows("", Cells(cells), '|');
    assert "" + ['|'] + Cells(cells) == TableRow(cells);
    HeaderPieces();
  }

  lemma StepRowIsQuiet(res: StepResult)
    requires SingleLine(res.name) && SingleLine(res.status) && SingleLine(res.logPath)
    ensures Quiet(StepRow(res))
  {
    hide Cells, DisplayStatus, DurationString, RoundTo, Dec, Quiet;
    DurationSingle(RoundTo(res.duration, 1_000_000_000));
    StatusSingle(res.status);
    DecSingle(|res.skipTests|);
    DecSingle(|res.deferredTests|);
    WideRowIsQuiet([res.name, DisplayStatus(res.status), Rounded(res.duration),
                    CountText(res.skipTests), CountText(res.deferredTests), res.logPath]);
  }

  // ---------- sections ----------

  lemma JoinQuiet(a: seq<string>, b: seq<string>)
    requires AllQuiet(a) && AllQuiet(b)
    ensures AllQuiet(a + b)
  {
    hide Quiet;
  }

  lemma QuietHasNoStep(lines: seq<string>)
    requires AllQuiet(lines)
    ensures NoStepHeaders(lines)
  {
    hide Seen, SingleLine;
  }

  lemma {:induction false} RankedRowsQuiet(first: nat, cases: seq<TimedCase>)
    requires forall tc <- cases :: SingleLine(tc.name) && SingleLine(tc.status) && SingleLine(tc.step)
    ensures var rows := RankedRows(first, cases);
      && |rows| == |cases| && AllQuiet(rows)
      && forall i :: 0 <= i < |rows| ==> rows[i] == RankedRow(first + i, cases[i]) && !("| ---" <= rows[i])
    decreases |cases|
  {
    hide Quiet, RankedRow, SingleLine;
    if cases == [] {
    } else {
      assert cases[0] in cases && forall tc <- cases[1..] :: tc in cases;
      RankedRowIsQuiet(first, cases[0]);
      RankedRowsQuiet(first + 1, cases[1..]);
    }
  }

  lemma {:induction false} GroupRowsQuiet(groups: seq<GroupDuration>)
    requires forall g <- groups :: SingleLine(g.group) && SingleLine(g.step)
    ensures AllQuiet(GroupRows(groups))
  {
    hide Quiet, GroupRow, SingleLine;
    if groups == [] {
    } else {
      assert groups[0] in groups && forall g <- groups[1..] :: g in groups;
      GroupRowIsQuiet(groups[0]);
      GroupRowsQuiet(groups[1..]);
    }
  }

  /** A result whose texts are single lines, as everything read from a log or a flag is. */
  predicate OneLiner(res: StepResult) {
    && SingleLine(res.name) && SingleLine(res.status) && SingleLine(res.logPath) && SingleLine(res.command)
    && SingleLines(res.passTests) && SingleLines(res.failTests)
    && SingleLines(res.skipTests) && SingleLines(res.deferredTests)
    && (forall tc <- res.timed :: SingleLine(tc.name) && SingleLine(tc.status) && SingleLine(tc.step))
  }

  predicate OneLiners(results: seq<StepResult>) {
    forall res <- results :: OneLiner(res)
  }

  predicate OneLineRun(run: Run) {
    && SingleLine(run.generated) && SingleLine(run.mode) && SingleLine(run.groups) && SingleLine(run.tests)
    && SingleLine(run.runPattern) && SingleLine(run.configPath) && SingleLine(run.gocache)
  }

  lemma {:induction false} StepTableQuiet(results: seq<StepResult>)
    requires OneLiners(results)
    ensures AllQuiet(StepTable(results))
  {
    hide Quiet, StepRow, SingleLine, SingleLines;
    if results == [] {
    } else {
      assert results[0] in results && forall r <- results[1..] :: r in results;
      StepRowIsQuiet(results[0]);
      StepTableQuiet(results[1..]);
    }
  }

  lemma PlainQuiet(line: string)
    requires SingleLine(line) && line != "" && line[0] in {'#', '-', 'N'}
    ensures Quiet(line)
  {
    hide Quiet;
    ProseIsQuiet(line);
  }

  lemma {:induction false} CommaJoinSingle(items: seq<string>)
    requires SingleLines(items)
    ensures SingleLine(CommaJoin(items))
  {
    if items == [] {
    } else {
      assert items[0] in items && forall x <- items[1..] :: x in items;
      CommaJoinSingle(items[1..]);
    }
  }

  lemma ItemQuiet(caption: string, text: string)
    requires caption != "" && caption[0] in {'#', '-', 'N'} && SingleLine(caption) && SingleLine(text)
    ensures Quiet(caption + text)
  {
    hide Quiet;
    PlainQuiet(caption + text);
  }

  lemma DetailsQuiet(res: StepResult)
    requires OneLiner(res)
    ensures AllQuiet(Details(res))
  {
    hide Quiet, DisplayStatus, DurationString, RoundTo, Dec, CommaJoin;
    StatusSingle(res.status);
    DurationSingle(RoundTo(res.duration, 1_000_000_000));
    CommaJoinSingle(res.failTests);
    CommaJoinSingle(res.skipTests);
    CommaJoinSingle(res.deferredTests);
    DecSingle(|res.passTests|);
    BlankIsQuiet();
    ItemQuiet("### ", res.name);
    ItemQuiet("- Status: ", DisplayStatus(res.status));
    ItemQuiet("- Duration: ", Rounded(res.duration));
    ItemQuiet("- Command: `" + res.command, "`");
    ItemQuiet("- Log: ", res.logPath);
    ItemQuiet("- Failed Tests: ", CommaJoin(res.failTests));
    ItemQuiet("- Skipped Tests: ", CommaJoin(res.skipTests));
    ItemQuiet("- Deferred Tests: ", CommaJoin(res.deferredTests));
    ItemQuiet("- Passed Tests: ", Dec(|res.passTests|));
  }

  lemma {:induction false} AllDetailsQuiet(results: seq<StepResult>)
    requires OneLiners(results)
    ensures AllQuiet(AllDetails(results))
  {
    hide Quiet, Details, OneLiner;
    if results == [] {
    } else {
      assert results[0] in results && forall r <- results[1..] :: r in results;
      DetailsQuiet(results[0]);
      AllDetailsQuiet(results[1..]);
      JoinQuiet(Details(results[0]), AllDetails(results[1..]));
    }
  }

  lemma TotalsQuiet(results: seq<StepResult>)
    ensures Quiet("- Totals: pass=" + Dec(SumTests(results, Pass)) + " fail=" + Dec(SumTests(results, Fail))
                  + " skip=" + Dec(SumTests(results, Skip)) + " deferred=" + Dec(SumTests(results, Deferred)))
  {
    hide Quiet, Dec, SumTests;
    var p, f := Dec(SumTests(results, Pass)), Dec(SumTests(results, Fail));
    var s, d := Dec(SumTests(results, Skip)), Dec(SumTests(results, Deferred));
    DecSingle(SumTests(results, Pass));
    DecSingle(SumTests(results, Fail));
    DecSingle(SumTests(results, Skip));
    DecSingle(SumTests(results, Deferred));
    ItemQuiet("- Totals: pass=" + p + " fail=" + f + " skip=" + s + " deferred=", d);
  }

  lemma OpeningQuiet(run: Run)
    requires OneLineRun(run)
    ensures Quiet("# Integration Test Report") && Quiet("- Generated: " + run.generated) && Quiet("- Mode: " + run.mode)
    ensures Quiet("- Groups: " + run.groups) && Quiet("- Tests: " + run.tests)
    ensures Quiet("- Run Pattern: " + run.runPattern)
  {
    hide Quiet;
    PlainQuiet("# Integration Test Report");
    ItemQuiet("- Generated: ", run.generated);
    ItemQuiet("- Mode: ", run.mode);
    ItemQuiet("- Groups: ", run.groups);
    ItemQuiet("- Tests: ", run.tests);
    ItemQuiet("- Run Pattern: ", run.runPattern);
  }

  lemma ClosingQuiet(run: Run)
    requires OneLineRun(run)
    ensures Quiet("- Config: " + run.configPath) && Quiet("- GOCACHE: " + run.gocache)
    ensures Quiet("- Debug: " + (if run.debug then "true" else "false"))
  {
    hide Quiet;
    ItemQuiet("- Config: ", run.configPath);
    ItemQuiet("- GOCACHE: ", run.gocache);
    ItemQuiet("- Debug: ", if run.debug then "true" else "false");
  }

  lemma PreambleQuiet(run: Run, results: seq<StepResult>)
    requires OneLineRun(run)
    ensures AllQuiet(Preamble(run, results))
  {
    hide Quiet, Dec, SumTests, Trim;
    BlankIsQuiet();
    TotalsQuiet(results);
    OpeningQuiet(run);
    ClosingQuiet(run);
  }

  /** A row of single-line cells whose first starts with neither R nor S. */
  lemma OtherRowIsQuiet(cells: seq<string>)
    requires cells != [] && SingleLines(cells) && cells[0] != "" && cells[0][0] != 'R' && cells[0][0] != 'S'
    ensures Quiet(TableRow(cells))
  {
    hide Cells, Trim, DropCR;
    CellsSingle(cells);
    TableRowSeen(cells);
    Report.RowStart(cells);
    HeaderStarts();
  }

  lemma LettersOnly(s: string)
    requires forall i :: 0 <= i < |s| ==> s[i] != '\n'
    ensures SingleLine(s)
  {
  }

  lemma NoAlertQuiet()
    ensures Quiet("No test case exceeded the slow threshold.")
  {
    hide Quiet;
    PlainQuiet("No test case exceeded the slow threshold.");
  }

  lemma TitlesQuiet()
    ensures Quiet("## Group Runtime Profile") && Quiet("## Details")
    ensures Quiet("No test case exceeded the slow threshold.")
  {
    hide Quiet, SingleLine;
    PlainQuiet("## Group Runtime Profile") by {
      assert SingleLine("## Group Runtime Profile") by { LettersOnly("## Group Runtime Profile"); }
    }
    PlainQuiet("## Details") by {
      assert SingleLine("## Details") by { LettersOnly("## Details"); }
    }
    NoAlertQuiet();
  }

  lemma GroupHeadQuiet()
    ensures Quiet(GROUP_HEADER) && Quiet(FIVE_DASHES)
  {
    hide Cells, Quiet;
    OtherRowIsQuiet(["Group", "Step", "Duration", "Threshold", "Budget"]);
    OtherRowIsQuiet(["---", "---", "---", "---", "---"]);
  }

  lemma StepHeadQuiet()
    ensures Quiet(SIX_COLUMN_HEADER) && Quiet(SIX_DASHES)
  {
    hide Cells, Quiet;
    WideRowIsQuiet(["Step", "Status", "Duration", "Skips", "Deferred", "Log"]);
    WideRowIsQuiet(["---", "---", "---", "---", "---", "---"]);
  }

  lemma SlowHeaderIsSeen()
    ensures NoStepHeader(SLOW_HEADER) && Seen(SLOW_HEADER) == SLOW_HEADER
  {
    hide Cells, Trim, DropCR;
    CellsSingle(["Rank", "Test", "Duration", "Status", "Step"]);
    TableRowSeen(["Rank", "Test", "Duration", "Status", "Step"]);
    HeaderStarts();
  }

  lemma GroupSectionQuiet(groups: seq<GroupDuration>)
    requires forall g <- groups :: SingleLine(g.group) && SingleLine(g.step)
    ensures AllQuiet(GroupSection(groups))
  {
    hide Quiet, GroupRow, TableRow, SingleLine;
    TitlesQuiet();
    GroupHeadQuiet();
    BlankIsQuiet();
    GroupRowsQuiet(groups);
  }

  lemma StepSectionQuiet(results: seq<StepResult>)
    requires OneLiners(results)
    ensures AllQuiet(StepSection(results))
  {
    hide Quiet, StepRow, OneLiner, TableRow;
    StepHeadQuiet();
    StepTableQuiet(results);
  }

  lemma AlertTitleQuiet(d: int)
    ensures Quiet("## Slow Alerts (>= " + DurationString(d) + ")")
  {
    hide Quiet, DurationString;
    DurationSingle(d);
    ItemQuiet("## Slow Alerts (>= " + DurationString(d), ")");
  }

  lemma QuietMember(line: string)
    requires Quiet(line)
    ensures NoStepHeader(line)
  {
  }

  lemma {:induction false} AtLeastIsPart(cases: seq<TimedCase>, threshold: int)
    ensures forall tc <- AtLeast(cases, threshold) :: tc in cases
    ensures cases == [] ==> AtLeast(cases, threshold) == []
  {
    if cases == [] {
    } else {
      AtLeastIsPart(cases[..|cases| - 1], threshold);
    }
  }

  lemma AlertSectionFacts(run: Run, slow: seq<TimedCase>)
    requires forall tc <- slow :: SingleLine(tc.name) && SingleLine(tc.status) && SingleLine(tc.step)
    ensures NoStepHeaders(AlertSection(run, slow))
    ensures slow == [] ==> AllQuiet(AlertSection(run, slow))
    ensures AlertSection(run, slow) != [] ==> AlertSection(run, slow)[0] == ""
  {
    hide Quiet, NoStepHeader, RankedRows, DurationString, TableRow, SingleLine;
    AtLeastIsPart(slow, run.slowThreshold);
    RankedRowsQuiet(1, AtLeast(slow, run.slowThreshold));
    QuietHasNoStep(RankedRows(1, AtLeast(slow, run.slowThreshold)));
    BlankIsQuiet();
    QuietMember("");
    SlowHeaderIsSeen();
    GroupHeadQuiet();
    QuietMember(FIVE_DASHES);
    AlertTitleQuiet(run.slowThreshold);
    QuietMember("## Slow Alerts (>= " + DurationString(run.slowThreshold) + ")");
    TitlesQuiet();
    QuietMember("No test case exceeded the slow threshold.");
  }

  lemma SlowTitleQuiet(n: nat)
    ensures Quiet("## Slow Tests (Top " + Dec(n) + ")")
  {
    hide Quiet, Dec;
    DecSingle(n);
    ItemQuiet("## Slow Tests (Top " + Dec(n), ")");
  }

  /** The slow section: three quiet lines, the header, a rule and the rows. */
  lemma SlowSectionFacts(run: Run, slow: seq<TimedCase>)
    requires slow != [] && forall tc <- slow :: SingleLine(tc.name) && SingleLine(tc.status) && SingleLine(tc.step)
    ensures NoStepHeaders(SlowSection(run, slow))
    ensures var s, rows := SlowSection(run, slow), RankedRows(1, Top(run, slow));
      && s[5..] == rows && |s| == 5 + |rows| && AllQuiet(s[..3]) && s[3] == SLOW_HEADER
  {
    hide Quiet, NoStepHeader, RankedRows, TableRow, SingleLine, Dec, SlowTop;
    BlankIsQuiet();
    SlowTitleQuiet(SlowTop(run));
    SlowHeaderIsSeen();
    GroupHeadQuiet();
    QuietMember("");
    QuietMember("## Slow Tests (Top " + Dec(SlowTop(run)) + ")");
    QuietMember(FIVE_DASHES);
    RankedRowsQuiet(1, Top(run, slow));
    QuietHasNoStep(RankedRows(1, Top(run, slow)));
  }

  // ---------- finding the header and its rows ----------

  lemma {:induction false} FindAt(lines: seq<string>, from: nat, idx: nat, header: string)
    requires from <= idx <= |lines|
    requires forall k :: from <= k < idx ==> Trim(lines[k], JsSpace) != header
    requires idx < |lines| ==> Trim(lines[idx], JsSpace) == header
    ensures FindHeader(lines, from, header) == idx
    decreases idx - from
  {
    hide Trim;
    if from >= idx {
    } else {
      FindAt(lines, from + 1, idx, header);
    }
  }

  lemma {:induction false} RowsUntil(lines: seq<string>, i: nat, rows: seq<string>)
    requires i + |rows| < |lines|
    requires forall k :: 0 <= k < |rows| ==> lines[i + k] == rows[k]
    requires forall k ::
      0 <= k < |rows| ==> Trim(rows[k], JsSpace) == rows[k] && "|" <= rows[k] && !("| ---" <= rows[k])
    requires !("|" <= Trim(lines[i + |rows|], JsSpace))
    ensures RowsFrom(lines, i) == rows
    decreases |rows|
  {
    hide Trim;
    if rows == [] {
    } else {
      assert lines[i + 0] == rows[0];
      forall k | 0 <= k < |rows| - 1
        ensures lines[i + 1 + k] == rows[1..][k]
      {
        assert lines[i + (k + 1)] == rows[k + 1];
      }
      RowsUntil(lines, i + 1, rows[1..]);
    }
  }

  // ---------- a row's duration ----------

  /** What the recommender makes of a list of timed cases. */
  function ReadDurations(cases: seq<TimedCase>): seq<real> {
    if cases == [] then []
    else
      var d := ParseMs(DurationString(cases[0].duration));
      (if d.Some? then [d.value] else []) + ReadDurations(cases[1..])
  }

  lemma PaddedCell(s: string)
    requires Trim(s, JsSpace) == s && s != ""
    ensures Trim(" " + s + " ", JsSpace) == s
  {
    TrimFacts(s, JsSpace);
    var p := " " + s + " ";
    TrimLeftAt(p, 1, JsSpace);
    assert p[1..] == s + " ";
    assert (s + " ")[..|s|] == s;
    TrimTrimmed(s, JsSpace);
  }

  /** The pieces of a row whose first cells have no bar: the cells themselves, and at least as many
      pieces behind them as there are cells. */
  lemma RowColumns(a: string, b: string, c: string, rest: seq<string>)
    requires '|' !in a && '|' !in b && '|' !in c && |rest| == 2
    ensures var parts := Split(TableRow([a, b, c] + rest), '|');
      |parts| >= 7 && parts[3] == " " + c + " "
  {
    hide Split;
    var tail := Cells(rest);
    var x, y, z := " " + a + " ", " " + b + " ", " " + c + " ";
    assert ([a, b, c] + rest)[1..] == [b, c] + rest && ([b, c] + rest)[1..] == [c] + rest && ([c] + rest)[1..] == rest;
    CellsUnfold([a, b, c] + rest);
    CellsUnfold([b, c] + rest);
    CellsUnfold([c] + rest);
    ManyPieces(rest);
    SplitAt(z, tail, '|');
    SplitAt(y, Cells([c] + rest), '|');
    SplitAt(x, Cells([b, c] + rest), '|');
    SplitAt("", Cells([a, b, c] + rest), '|');
    assert "" + ['|'] + Cells([a, b, c] + rest) == TableRow([a, b, c] + rest);
    assert Split(TableRow([a, b, c] + rest), '|') == [""] + ([x] + ([y] + ([z] + Split(tail, '|'))));
  }

  lemma RankedRowDuration(rank: nat, tc: TimedCase)
    requires '|' !in tc.name
    ensures SlowDuration(RankedRow(rank, tc)) == ParseMs(DurationString(tc.duration))
  {
    hide Split, Cells, DurationString, DisplayStatus, Dec, Trim, ParseMs;
    DecSingle(rank);
    DurationSingle(tc.duration);
    var rest := [DisplayStatus(tc.status), tc.step];
    var cells := [Dec(rank), tc.name, DurationString(tc.duration)] + rest;
    RowColumns(Dec(rank), tc.name, DurationString(tc.duration), rest);
    assert cells == [Dec(rank), tc.name, DurationString(tc.duration), DisplayStatus(tc.status), tc.step];
    RowEnd(cells);
    TableRowSeen(cells);
    PaddedCell(DurationString(tc.duration));
  }

  lemma {:induction false} RankedDurations(first: nat, cases: seq<TimedCase>)
    requires forall tc <- cases :: '|' !in tc.name
    ensures SlowDurations(RankedRows(first, cases)) == ReadDurations(cases)
    decreases |cases|
  {
    hide RankedRow, SlowDuration, ParseMs, DurationString;
    if cases == [] {
    } else {
      assert cases[0] in cases && forall tc <- cases[1..] :: tc in cases;
      RankedRowDuration(first, cases[0]);
      RankedDurations(first + 1, cases[1..]);
      assert RankedRows(first, cases)[1..] == RankedRows(first + 1, cases[1..]);
    }
  }

  // ---------- the texts a ranking holds ----------

  lemma {:induction false} TimedSingle(results: seq<StepResult>)
    requires OneLiners(results)
    ensures forall tc <- AllTimed(results) :: SingleLine(tc.name) && SingleLine(tc.status) && SingleLine(tc.step)
  {
    hide SingleLine, SingleLines;
    if results == [] {
    } else {
      var n := |results| - 1;
      assert results[n] in results && forall r <- results[..n] :: r in results;
      TimedSingle(results[..n]);
    }
  }

  lemma OneLinerName(res: StepResult)
    requires OneLiner(res)
    ensures SingleLine(res.name)
  {
  }

  lemma {:induction false} GroupsSingle(results: seq<StepResult>, t: GoThresholds)
    requires OneLiners(results)
    ensures forall g <- AllGroupDurations(results, t) :: SingleLine(g.group) && SingleLine(g.step)
  {
    hide OneLiner, SelectGroupThreshold, Trim;
    if results == [] {
    } else {
      var n := |results| - 1;
      assert results[n] in results && forall r <- results[..n] :: r in results;
      GroupsSingle(results[..n], t);
      assert SingleLine(results[n].name) by {
        OneLinerName(results[n]);
      }
      if "group_" <= results[n].name {
        TrimFacts(results[n].name[|"group_"|..], GoSpace);
      }
    }
  }

  lemma RankedSingle(run: Run, results: seq<StepResult>, groups: seq<GroupDuration>, slow: seq<TimedCase>)
    requires OneLiners(results) && GroupRanking(groups, results, run.thresholds) && SlowRanking(slow, results)
    ensures forall tc <- slow :: SingleLine(tc.name) && SingleLine(tc.status) && SingleLine(tc.step)
    ensures forall g <- groups :: SingleLine(g.group) && SingleLine(g.step)
  {
    hide SingleLine, OneLiner, AllTimed, AllGroupDurations;
    TimedSingle(results);
    GroupsSingle(results, run.thresholds);
    forall tc | tc in slow
      ensures tc in AllTimed(results)
    {
      InMultiset(slow, AllTimed(results), tc);
    }
    forall g | g in groups
      ensures g in AllGroupDurations(results, run.thresholds)
    {
      InMultiset(groups, AllGroupDurations(results, run.thresholds), g);
    }
  }

  // ---------- the round trip ----------

  lemma SeenLines(lines: seq<string>)
    requires forall l <- lines :: SingleLine(l)
    ensures var read := JsLines(Unlines(lines));
      && |read| == |lines| + 1
      && (forall k :: 0 <= k < |lines| ==> read[k] == DropCR(lines[k]) && Trim(read[k], JsSpace) == Seen(lines[k]))
      && Trim(read[|lines|], JsSpace) == ""
  {
    hide JsLines, DropCR;
    ReadLines(lines);
    TrimTrimmed("", JsSpace);
  }

  lemma NotEmptyHeaders()
    ensures SLOW_HEADER != "" && STEP_HEADER != ""
  {
  }

  /** Without the five-column header no step row is read. */
  lemma NoStepRows(lines: seq<string>)
    requires NoStepHeaders(lines)
    ensures RowsAfter(JsLines(Unlines(lines)), STEP_HEADER) == []
  {
    hide JsLines, Unlines, DropCR, Trim, TableRow;
    SeenLines(lines);
    NotEmptyHeaders();
    var read := JsLines(Unlines(lines));
    forall k | 0 <= k < |read|
      ensures Trim(read[k], JsSpace) != STEP_HEADER
    {
      if k < |lines| {
        assert lines[k] in lines;
      }
    }
    FindAt(read, 0, |read|, STEP_HEADER);
  }

  lemma NoSlowRows(lines: seq<string>)
    requires AllQuiet(lines)
    ensures RowsAfter(JsLines(Unlines(lines)), SLOW_HEADER) == []
  {
    hide JsLines, Unlines, DropCR, Trim, TableRow;
    SeenLines(lines);
    NotEmptyHeaders();
    var read := JsLines(Unlines(lines));
    forall k | 0 <= k < |read|
      ensures Trim(read[k], JsSpace) != SLOW_HEADER
    {
      if k < |lines| {
        assert lines[k] in lines;
      }
    }
    FindAt(read, 0, |read|, SLOW_HEADER);
  }

  /** The rows stand at a place in the report and a blank line follows them. */
  ghost predicate RowsAt(rows: seq<string>, lines: seq<string>, at: nat) {
    && at + |rows| < |lines|
    && (forall k :: 0 <= k < |rows| ==> rows[k] == lines[at + k])
    && lines[at + |rows|] == ""
  }

  /** Rows the reader sees unchanged, each starting with a bar and none a rule. */
  ghost predicate TableRows(rows: seq<string>) {
    forall k :: 0 <= k < |rows| ==>
      && rows[k] == DropCR(rows[k]) && Trim(rows[k], JsSpace) == rows[k]
      && "|" <= rows[k] && !("| ---" <= rows[k])
  }

  lemma HeaderFound(lines: seq<string>, idx: nat)
    requires forall l <- lines :: SingleLine(l)
    requires idx < |lines| && AllQuiet(lines[..idx]) && lines[idx] == SLOW_HEADER
    ensures |JsLines(Unlines(lines))| == |lines| + 1 && FindHeader(JsLines(Unlines(lines)), 0, SLOW_HEADER) == idx
  {
    hide JsLines, Unlines, DropCR, Trim, TableRow, FindHeader;
    SeenLines(lines);
    var read := JsLines(Unlines(lines));
    forall k | 0 <= k < idx
      ensures Trim(read[k], JsSpace) != SLOW_HEADER
    {
      assert lines[k] == lines[..idx][k] && lines[k] in lines[..idx];
    }
    SlowHeaderIsSeen();
    FindAt(read, 0, idx, SLOW_HEADER);
  }

  lemma TableRowAt(rows: seq<string>, k: nat)
    requires TableRows(rows) && k < |rows|
    ensures rows[k] == DropCR(rows[k])
  {
  }

  lemma TableRowsTrimmed(rows: seq<string>)
    requires TableRows(rows)
    ensures forall k ::
      0 <= k < |rows| ==> Trim(rows[k], JsSpace) == rows[k] && "|" <= rows[k] && !("| ---" <= rows[k])
  {
  }

  lemma BlankSeen()
    ensures Seen("") == ""
  {
  }

  lemma TableRead(lines: seq<string>, from: nat, rows: seq<string>)
    requires forall l <- lines :: SingleLine(l)
    requires RowsAt(rows, lines, from) && TableRows(rows)
    ensures from + |rows| < |lines|
    ensures |JsLines(Unlines(lines))| == |lines| + 1 && RowsFrom(JsLines(Unlines(lines)), from) == rows
  {
    hide JsLines, Unlines, DropCR, Trim, RowsFrom, Seen, SingleLine, TableRows;
    SeenLines(lines);
    BlankSeen();
    var read := JsLines(Unlines(lines));
    forall k | 0 <= k < |rows|
      ensures read[from + k] == rows[k]
    {
      TableRowAt(rows, k);
    }
    TableRowsTrimmed(rows);
    RowsUntil(read, from, rows);
  }

  /** Behind quiet lines, the header and a rule, exactly the rows up to the blank line are read. */
  lemma SlowRowsRead(lines: seq<string>, idx: nat, rows: seq<string>)
    requires forall l <- lines :: SingleLine(l)
    requires idx < |lines| && AllQuiet(lines[..idx]) && lines[idx] == SLOW_HEADER
    requires RowsAt(rows, lines, idx + 2) && TableRows(rows)
    ensures RowsAfter(JsLines(Unlines(lines)), SLOW_HEADER) == rows
  {
    hide JsLines, Unlines, DropCR, Trim, TableRow, RowsFrom, FindHeader, Seen, AllQuiet, SingleLine, RowsAt, TableRows;
    HeaderFound(lines, idx);
    TableRead(lines, idx + 2, rows);
  }

  lemma RankedRowsSeen(cases: seq<TimedCase>)
    requires forall tc <- cases :: SingleLine(tc.name) && SingleLine(tc.status) && SingleLine(tc.step)
    ensures TableRows(RankedRows(1, cases))
  {
    hide Seen, DropCR, Trim, RankedRows, Quiet, Cells, SingleLine, DisplayStatus, DurationString, Dec;
    RankedRowsQuiet(1, cases);
    var rows := RankedRows(1, cases);
    forall k | 0 <= k < |rows|
      ensures Seen(rows[k]) == rows[k] == DropCR(rows[k]) && Trim(rows[k], JsSpace) == rows[k] && "|" <= rows[k]
    {
      var tc := cases[k];
      TableRowSeen([Dec(1 + k), tc.name, DurationString(tc.duration), DisplayStatus(tc.status), tc.step]);
    }
  }

  lemma ReportParts(run: Run, results: seq<StepResult>, groups: seq<GroupDuration>, slow: seq<TimedCase>)
    requires OneLineRun(run) && OneLiners(results)
    requires forall g <- groups :: SingleLine(g.group) && SingleLine(g.step)
    requires forall tc <- slow :: SingleLine(tc.name) && SingleLine(tc.status) && SingleLine(tc.step)
    ensures AllQuiet(Preamble(run, results) + GroupSection(groups) + StepSection(results))
    ensures var post := AlertSection(run, slow) + ["", "## Details", ""] + AllDetails(results);
      NoStepHeaders(post) && post[0] == "" && (slow == [] ==> AllQuiet(post))
  {
    hide Preamble, GroupSection, StepSection, AlertSection, AllDetails, Quiet, OneLiner, SingleLine, NoStepHeader;
    PreambleQuiet(run, results);
    GroupSectionQuiet(groups);
    StepSectionQuiet(results);
    JoinQuiet(Preamble(run, results), GroupSection(groups));
    JoinQuiet(Preamble(run, results) + GroupSection(groups), StepSection(results));
    AlertSectionFacts(run, slow);
    AllDetailsQuiet(results);
    BlankIsQuiet();
    TitlesQuiet();
    var middle := ["", "## Details", ""];
    assert AllQuiet(middle);
    JoinQuiet(middle, AllDetails(results));
    QuietHasNoStep(middle + AllDetails(results));
    assert AlertSection(run, slow) + middle + AllDetails(results)
        == AlertSection(run, slow) + (middle + AllDetails(results));
  }

  lemma EmptySlowSection(run: Run)
    ensures SlowSection(run, []) == [] && Top(run, []) == [] && RankedRows(1, Top(run, [])) == []
  {
  }

  /** The report's lines hold no five-column step header, whatever the names in its tables. */
  lemma WrittenHasNoStepHeader(run: Run, results: seq<StepResult>, groups: seq<GroupDuration>, slow: seq<TimedCase>)
    requires OneLineRun(run) && OneLiners(results)
    requires GroupRanking(groups, results, run.thresholds) && SlowRanking(slow, results)
    ensures NoStepHeaders(ReportLines(run, results, groups, slow))
  {
    hide GroupRanking, SlowRanking, Preamble, GroupSection, StepSection, SlowSection, AlertSection, AllDetails, Quiet,
         NoStepHeader, OneLiner, OneLineRun, SingleLine, SlowTop;
    RankedSingle(run, results, groups, slow);
    ReportParts(run, results, groups, slow);
    var pre := Preamble(run, results) + GroupSection(groups) + StepSection(results);
    var post := AlertSection(run, slow) + ["", "## Details", ""] + AllDetails(results);
    var section := SlowSection(run, slow);
    assert ReportLines(run, results, groups, slow) == pre + section + post;
    QuietHasNoStep(pre);
    if slow == [] {
      EmptySlowSection(run);
    } else {
      SlowSectionFacts(run, slow);
    }
  }

  /** The recommender gets no group duration and no log path out of any report the runner wrote: its step header
      is a column short of the one written. */
  lemma NoGroupsRead(run: Run, results: seq<StepResult>, groups: seq<GroupDuration>, slow: seq<TimedCase>)
    requires OneLineRun(run) && OneLiners(results)
    requires GroupRanking(groups, results, run.thresholds) && SlowRanking(slow, results)
    ensures var read := Parse(Unlines(ReportLines(run, results, groups, slow))); read.groups == [] && read.logs == []
  {
    hide GroupRanking, SlowRanking, OneLiner, OneLineRun, ReportLines, Unlines, JsLines, RowsAfter, SlowDurations;
    WrittenHasNoStepHeader(run, results, groups, slow);
    NoStepRows(ReportLines(run, results, groups, slow));
  }

  lemma SingleFromNoStep(lines: seq<string>)
    requires NoStepHeaders(lines)
    ensures forall l <- lines :: SingleLine(l)
  {
  }

  lemma SectionPlace(pre: seq<string>, section: seq<string>, post: seq<string>, rows: seq<string>)
    requires AllQuiet(pre) && |section| == 5 + |rows| && section[5..] == rows && AllQuiet(section[..3])
    requires section[3] == SLOW_HEADER && post != [] && post[0] == ""
    ensures var lines, idx := pre + section + post, |pre| + 3;
      && idx < |lines| && AllQuiet(lines[..idx]) && lines[idx] == SLOW_HEADER && RowsAt(rows, lines, idx + 2)
  {
    hide Quiet, TableRow;
    var lines, idx := pre + section + post, |pre| + 3;
    JoinQuiet(pre, section[..3]);
    assert lines[..idx] == pre + section[..3];
    forall k | 0 <= k < |rows|
      ensures rows[k] == lines[idx + 2 + k]
    {
      assert section[5..][k] == section[5 + k];
    }
  }

  /** Of the slow table it gets exactly what the durations of the top rows of the ranking read as, in order. The
      names in the top rows must hold no bar; other texts may. */
  lemma ParseWrittenReport(run: Run, results: seq<StepResult>, groups: seq<GroupDuration>, slow: seq<TimedCase>)
    requires OneLineRun(run) && OneLiners(results)
    requires GroupRanking(groups, results, run.thresholds) && SlowRanking(slow, results)
    requires forall tc <- Top(run, slow) :: '|' !in tc.name
    ensures Parse(Unlines(ReportLines(run, results, groups, slow))).slow == ReadDurations(Top(run, slow))
  {
    hide GroupRanking, SlowRanking, Preamble, GroupSection, StepSection, SlowSection, AlertSection, AllDetails, Quiet,
         NoStepHeader, OneLiner, OneLineRun, SingleLine, Unlines, JsLines, RowsAfter, RankedRows, TableRow, SlowTop,
         RowsAt, TableRows;
    RankedSingle(run, results, groups, slow);
    ReportParts(run, results, groups, slow);
    var pre := Preamble(run, results) + GroupSection(groups) + StepSection(results);
    var post := AlertSection(run, slow) + ["", "## Details", ""] + AllDetails(results);
    var lines := ReportLines(run, results, groups, slow);
    var section := SlowSection(run, slow);
    assert lines == pre + section + post;
    var rows := RankedRows(1, Top(run, slow));
    if slow == [] {
      EmptySlowSection(run);
      assert lines == pre + post;
      JoinQuiet(pre, post);
      NoSlowRows(lines);
    } else {
      SlowSectionFacts(run, slow);
      RankedRowsSeen(Top(run, slow));
      SectionPlace(pre, section, post, rows);
      WrittenHasNoStepHeader(run, results, groups, slow);
      SingleFromNoStep(lines);
      SlowRowsRead(lines, |pre| + 3, rows);
    }
    RankedDurations(1, Top(run, slow));
  }

  function Milliseconds(cases: seq<TimedCase>): seq<real> {
    if cases == [] then [] else [cases[0].duration as real / 1_000_000.0] + Milliseconds(cases[1..])
  }

  lemma {:induction false} ExactDurations(cases: seq<TimedCase>)
    ensures |ReadDurations(cases)| <= |cases| == |Milliseconds(cases)|
    ensures ReadDurations(cases) == Milliseconds(cases)
        <==> forall tc <- cases :: tc.duration == 0 || tc.duration >= 1_000_000
  {
    hide ParseMs, DurationString;
    if cases == [] {
    } else {
      var rest := cases[1..];
      assert cases[0] in cases && forall tc <- rest :: tc in cases;
      assert forall tc <- cases :: tc == cases[0] || tc in rest;
      ParsePrinted(cases[0].duration);
      ExactDurations(rest);
      if ReadDurations(cases) == Milliseconds(cases) {
        assert ParseMs(DurationString(cases[0].duration)).Some?;
        assert ReadDurations(cases)[0] == Milliseconds(cases)[0];
        assert ReadDurations(cases)[1..] == ReadDurations(rest) && Milliseconds(cases)[1..] == Milliseconds(rest);
      }
    }
  }

  /** So the top durations come back exactly and in order if and only if each of them is zero or at least a
      millisecond. */
  lemma SlowTableRoundTrip(run: Run, results: seq<StepResult>, groups: seq<GroupDuration>, slow: seq<TimedCase>)
    requires OneLineRun(run) && OneLiners(results)
    requires GroupRanking(groups, results, run.thresholds) && SlowRanking(slow, results)
    requires forall tc <- Top(run, slow) :: '|' !in tc.name
    ensures Parse(Unlines(ReportLines(run, results, groups, slow))).slow == Milliseconds(Top(run, slow))
        <==> forall tc <- Top(run, slow) :: tc.duration == 0 || tc.duration >= 1_000_000
  {
    hide GroupRanking, SlowRanking, OneLiner, OneLineRun, Parse, ReportLines, Unlines;
    ParseWrittenReport(run, results, groups, slow);
    ExactDurations(Top(run, slow));
  }

  lemma {:induction false} RankedRowAt(first: nat, cases: seq<TimedCase>, i: nat)
    requires i < |cases|
    ensures |RankedRows(first, cases)| == |cases| && RankedRows(first, cases)[i] == RankedRow(first + i, cases[i])
    decreases |cases|
  {
    hide RankedRow;
    if |cases| <= 1 {
    } else {
      RankedRowAt(first + 1, cases[1..], if i == 0 then 0 else i - 1);
    }
  }

  /** Both tables give a case the same rank and the same row: the alert rows and the slow rows agree as far
      as both go, the alerts being a prefix of the ranking. */
  lemma SameRowInBothTables(run: Run, slow: seq<TimedCase>, i: nat)
    requires SortedBy(slow, SlowLe)
    requires i < |Top(run, slow)| && i < |AtLeast(slow, run.slowThreshold)|
    ensures var a, b := RankedRows(1, Top(run, slow)), RankedRows(1, AtLeast(slow, run.slowThreshold));
      i < |a| && i < |b| && a[i] == b[i] == RankedRow(i + 1, slow[i])
  {
    hide RankedRow, SlowLe, SlowTop;
    AlertsArePrefix(slow, run.slowThreshold);
    RankedRowAt(1, Top(run, slow), i);
    RankedRowAt(1, AtLeast(slow, run.slowThreshold), i);
  }
}
