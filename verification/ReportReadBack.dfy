/** The tables of the report, read back cell by cell: what each row says about its group, its step or its case. */
module ReportReadBack {
  import opened Text
  import opened Numerals
  import opened Durations
  import opened GoDurations
  import opened Thresholds
  import opened TestLog
  import opened Ranking
  import opened Report
  import opened ReportRoundTrip

  /** Cutting a row at its bars and trimming the pieces between them gives the cells. */
  predicate ReadsAs(row: string, cells: seq<string>) {
    var pieces := Split(row, '|');
    && |pieces| == |cells| + 2
    && forall i :: 0 <= i < |cells| ==> Trim(pieces[i + 1], JsSpace) == cells[i]
  }

  /** Text that a cell can hold: no bar, no white space around. */
  predicate IsCell(s: string) {
    '|' !in s && Trim(s, JsSpace) == s
  }

  lemma EmptyCells()
    ensures Cells([]) == ""
  {
  }

  lemma {:induction false} PiecesOfCells(cells: seq<string>)
    requires forall c <- cells :: '|' !in c
    ensures var pieces := Split(Cells(cells), '|');
      && |pieces| == |cells| + 1
      && forall i :: 0 <= i < |cells| ==> pieces[i] == " " + cells[i] + " "
  {
    hide Split, Cells;
    if cells == [] {
      EmptyCells();
      SplitNone("", '|');
    } else {
      assert cells[0] in cells && forall c <- cells[1..] :: c in cells;
      PiecesOfCells(cells[1..]);
      CellsUnfold(cells);
      SplitAt(" " + cells[0] + " ", Cells(cells[1..]), '|');
    }
  }

  lemma TrimPadded(s: string)
    requires Trim(s, JsSpace) == s
    ensures Trim(" " + s + " ", JsSpace) == s
  {
    hide Trim;
    if s == "" {
      TrimFacts("  ", JsSpace);
      assert " " + s + " " == "  ";
    } else {
      PaddedCell(s);
    }
  }

  /** Every row of a table reads as its cells. */
  lemma RowReadsBack(cells: seq<string>)
    requires forall c <- cells :: IsCell(c)
    ensures ReadsAs(TableRow(cells), cells)
  {
    hide Split, Cells, Trim;
    PiecesOfCells(cells);
    SplitAt("", Cells(cells), '|');
    assert "" + ['|'] + Cells(cells) == TableRow(cells);
    forall i | 0 <= i < |cells|
      ensures Trim(Split(TableRow(cells), '|')[i + 1], JsSpace) == cells[i]
    {
      assert cells[i] in cells;
      TrimPadded(cells[i]);
    }
  }

  lemma DurationIsCell(d: int)
    ensures IsCell(DurationString(d))
  {
    hide DurationString, Trim;
    DurationSingle(d);
  }

  lemma DecIsCell(n: nat)
    ensures IsCell(Dec(n)) && Dec(n) != "-"
  {
    hide Trim;
    DecDigits(n);
    DecStarts(n);
    var s := Dec(n);
    assert s[|s| - 1] in s;
    TrimTrimmed(s, JsSpace);
  }

  lemma WordsAreCells()
    ensures IsCell("-") && IsCell("OK") && IsCell("EXCEEDED")
  {
    hide Trim;
    TrimTrimmed("-", JsSpace);
    TrimTrimmed("OK", JsSpace);
    TrimTrimmed("EXCEEDED", JsSpace);
  }

  // ---------- the group runtime profile ----------

  /** The verdict is EXCEEDED exactly when there is a threshold and the duration reaches it. */
  lemma GroupRowReadsBack(g: GroupDuration)
    requires IsCell(g.group) && IsCell(g.step)
    requires g.exceeded <==> g.threshold > 0 && g.duration >= g.threshold
    ensures ReadsAs(GroupRow(g),
      [g.group, g.step, DurationString(RoundTo(g.duration, 1_000_000_000)),
       if g.threshold > 0 then DurationString(g.threshold) else "-",
       if g.threshold > 0 && g.duration >= g.threshold then "EXCEEDED" else if g.threshold > 0 then "OK" else "-"])
  {
    hide ReadsAs, IsCell, TableRow, DurationString, RoundTo;
    WordsAreCells();
    DurationIsCell(RoundTo(g.duration, 1_000_000_000));
    DurationIsCell(g.threshold);
    RowReadsBack(
      [g.group, g.step, DurationString(RoundTo(g.duration, 1_000_000_000)),
       if g.threshold > 0 then DurationString(g.threshold) else "-",
       if g.threshold <= 0 then "-" else if g.exceeded then "EXCEEDED" else "OK"]);
  }

  lemma {:induction false} GroupsComeFrom(results: seq<StepResult>, t: GoThresholds, g: GroupDuration)
    requires g in AllGroupDurations(results, t)
    ensures g.exceeded <==> g.threshold > 0 && g.duration >= g.threshold
    ensures g.threshold == SelectGroupThreshold(g.group, t)
    ensures exists res :: res in results && res.name == g.step && res.duration == g.duration
                          && StepGroupName(res.name) == Some(g.group)
  {
    hide SelectGroupThreshold, StepGroupName;
    var init, last := results[..|results| - 1], results[|results| - 1];
    if g in AllGroupDurations(init, t) {
      GroupsComeFrom(init, t, g);
      assert forall res <- init :: res in results;
    } else {
      assert last in results;
    }
  }

  /** What the ranking says of a group is what some step of the run did, against the threshold looked up for it. */
  lemma RankedGroupIsTrue(groups: seq<GroupDuration>, results: seq<StepResult>, t: GoThresholds, g: GroupDuration)
    requires GroupRanking(groups, results, t) && g in groups
    ensures g.exceeded <==> g.threshold > 0 && g.duration >= g.threshold
    ensures g.threshold == SelectGroupThreshold(g.group, t)
    ensures exists res :: res in results && res.name == g.step && res.duration == g.duration
                          && StepGroupName(res.name) == Some(g.group)
  {
    hide SelectGroupThreshold, StepGroupName, GroupLe;
    Sorting.InMultiset(groups, AllGroupDurations(results, t), g);
    GroupsComeFrom(results, t, g);
  }

  /** The rows whose fifth cell is the word. */
  function CountVerdicts(rows: seq<string>, word: string): nat {
    if rows == [] then 0
    else
      var pieces := Split(rows[0], '|');
      (if |pieces| == 7 && Trim(pieces[5], JsSpace) == word then 1 else 0) + CountVerdicts(rows[1..], word)
  }

  /** How many groups reach their threshold. */
  function Reached(groups: seq<GroupDuration>): nat {
    if groups == [] then 0
    else (if groups[0].threshold > 0 && groups[0].duration >= groups[0].threshold then 1 else 0) + Reached(groups[1..])
  }

  lemma CellOf(row: string, cells: seq<string>, i: nat)
    requires ReadsAs(row, cells) && i < |cells|
    ensures |Split(row, '|')| == |cells| + 2 && Trim(Split(row, '|')[i + 1], JsSpace) == cells[i]
  {
  }

  lemma VerdictCell(g: GroupDuration)
    requires IsCell(g.group) && IsCell(g.step)
    requires g.exceeded <==> g.threshold > 0 && g.duration >= g.threshold
    ensures var pieces := Split(GroupRow(g), '|');
      |pieces| == 7
      && (Trim(pieces[5], JsSpace) == "EXCEEDED" <==> g.threshold > 0 && g.duration >= g.threshold)
  {
    hide IsCell, GroupRow, Split, Trim, DurationString, RoundTo, ReadsAs;
    GroupRowReadsBack(g);
    var cells :=
      [g.group, g.step, DurationString(RoundTo(g.duration, 1_000_000_000)),
       if g.threshold > 0 then DurationString(g.threshold) else "-",
       if g.threshold > 0 && g.duration >= g.threshold then "EXCEEDED" else if g.threshold > 0 then "OK" else "-"];
    CellOf(GroupRow(g), cells, 4);
    assert |"EXCEEDED"| == 8 && |"OK"| == 2 && |"-"| == 1;
  }

  lemma {:induction false} VerdictsCounted(groups: seq<GroupDuration>)
    requires forall g <- groups :: IsCell(g.group) && IsCell(g.step)
    requires forall g <- groups :: g.exceeded <==> g.threshold > 0 && g.duration >= g.threshold
    ensures CountVerdicts(GroupRows(groups), "EXCEEDED") == Reached(groups)
  {
    hide IsCell, GroupRow, Split, Trim, DurationString, RoundTo;
    if groups == [] {
    } else {
      var g := groups[0];
      assert g in groups && forall x <- groups[1..] :: x in groups;
      VerdictsCounted(groups[1..]);
      VerdictCell(g);
      assert GroupRows(groups)[0] == GroupRow(g) && GroupRows(groups)[1..] == GroupRows(groups[1..]);
    }
  }

  lemma {:induction false} ReachedLast(init: seq<GroupDuration>, last: GroupDuration)
    ensures Reached(init + [last])
         == Reached(init) + if last.threshold > 0 && last.duration >= last.threshold then 1 else 0
  {
    if init == [] {
      assert (init + [last])[1..] == [];
    } else {
      ReachedLast(init[1..], last);
      assert (init + [last])[0] == init[0] && (init + [last])[1..] == init[1..] + [last];
    }
  }

  lemma {:induction false} AlertsCounted(groups: seq<GroupDuration>)
    requires forall g <- groups :: g.exceeded <==> g.threshold > 0 && g.duration >= g.threshold
    ensures ExceededCount(groups) == Reached(groups)
  {
    if groups == [] {
    } else {
      var init, last := groups[..|groups| - 1], groups[|groups| - 1];
      assert last in groups && forall g <- init :: g in groups;
      AlertsCounted(init);
      ReachedLast(init, last);
      assert groups == init + [last];
    }
  }

  lemma {:induction false} GroupRowCount(groups: seq<GroupDuration>)
    ensures |GroupRows(groups)| == |groups|
  {
    hide GroupRow;
    if groups == [] {
    } else {
      GroupRowCount(groups[1..]);
    }
  }

  lemma {:induction false} GroupRowAt(groups: seq<GroupDuration>, i: nat)
    requires i < |groups|
    ensures |GroupRows(groups)| == |groups| && GroupRows(groups)[i] == GroupRow(groups[i])
  {
    hide GroupRow;
    if i == 0 {
      GroupRowCount(groups);
    } else {
      GroupRowAt(groups[1..], i - 1);
    }
  }

  /** The profile of a report: behind its title and header there is one row for each group of the ranking, in order,
      each reads as above, and as many read EXCEEDED as the report counts group alerts. */
  lemma ProfileReadsBack(groups: seq<GroupDuration>, results: seq<StepResult>, t: GoThresholds)
    requires GroupRanking(groups, results, t) && groups != []
    requires forall g <- groups :: IsCell(g.group) && IsCell(g.step)
    ensures var section := GroupSection(groups);
      && |section| == |groups| + 5
      && (forall i :: 0 <= i < |groups| ==>
            var g := groups[i];
            ReadsAs(section[4..][i],
              [g.group, g.step, DurationString(RoundTo(g.duration, 1_000_000_000)),
               if g.threshold > 0 then DurationString(g.threshold) else "-",
               if g.threshold > 0 && g.duration >= g.threshold then "EXCEEDED"
               else if g.threshold > 0 then "OK" else "-"]))
      && CountVerdicts(section[4..|section| - 1], "EXCEEDED") == ExceededCount(groups) == Reached(groups)
  {
    hide ReadsAs, IsCell, GroupRow, TableRow, DurationString, RoundTo, GroupRanking, GroupRows, CountVerdicts, Reached,
         ExceededCount, SelectGroupThreshold;
    forall g | g in groups
      ensures g.exceeded <==> g.threshold > 0 && g.duration >= g.threshold
    {
      RankedGroupIsTrue(groups, results, t, g);
    }
    VerdictsCounted(groups);
    AlertsCounted(groups);
    GroupRowCount(groups);
    var section := GroupSection(groups);
    assert section[4..|section| - 1] == GroupRows(groups);
    forall i | 0 <= i < |groups|
      ensures section[4..][i] == GroupRow(groups[i])
    {
      GroupRowAt(groups, i);
    }
    forall i | 0 <= i < |groups|
      ensures var g := groups[i];
        ReadsAs(section[4..][i],
          [g.group, g.step, DurationString(RoundTo(g.duration, 1_000_000_000)),
           if g.threshold > 0 then DurationString(g.threshold) else "-",
           if g.threshold > 0 && g.duration >= g.threshold then "EXCEEDED" else if g.threshold > 0 then "OK" else "-"])
    {
      assert groups[i] in groups;
      GroupRowReadsBack(groups[i]);
    }
  }

  /** The alerts a report counts are the groups, in some ranking of the run's, that reach their threshold. */
  lemma ReportCountsAlerts(text: string, stats: ReportStats, run: Run, results: seq<StepResult>)
    requires IsReport(text, stats, run, results)
    ensures exists groups :: GroupRanking(groups, results, run.thresholds) && stats.groupAlerts == Reached(groups)
  {
    hide ReportLines, Unlines, GroupRanking, SlowRanking, ExceededCount, Reached, SelectGroupThreshold, AtLeast;
    var groups: seq<GroupDuration>, slow: seq<TimedCase> :|
      GroupRanking(groups, results, run.thresholds) && SlowRanking(slow, results)
      && Describes(text, stats, run, results, groups, slow);
    forall g | g in groups
      ensures g.exceeded <==> g.threshold > 0 && g.duration >= g.threshold
    {
      RankedGroupIsTrue(groups, results, run.thresholds, g);
    }
    AlertsCounted(groups);
  }

  // ---------- the step table and the ranked tables ----------

  /** A status as the report shows it: one of the four known ones with its circle, any other as it is. */
  lemma ShownStatus(status: string)
    ensures var s := Upper(Trim(status, GoSpace));
      DisplayStatus(status) == if s == "PASS" then "\U{1f7e2} PASS"
                               else if s == "FAIL" then "\U{1f534} FAIL"
                               else if s == "SKIP" then "\U{1f7e1} SKIP"
                               else if s == "DEFERRED" then "\U{1f7e0} DEFERRED"
                               else Trim(status, GoSpace)
  {
    hide Upper, Trim;
  }

  /** A step row shows the step, its status and rounded duration, how many of its tests were skipped and deferred -
      a dash for none - and its log. */
  lemma StepRowReadsBack(res: StepResult)
    requires IsCell(res.name) && IsCell(DisplayStatus(res.status)) && IsCell(res.logPath)
    ensures ReadsAs(StepRow(res),
      [res.name, DisplayStatus(res.status), DurationString(RoundTo(res.duration, 1_000_000_000)),
       if res.skipTests == [] then "-" else Dec(|res.skipTests|),
       if res.deferredTests == [] then "-" else Dec(|res.deferredTests|), res.logPath])
  {
    hide ReadsAs, IsCell, TableRow, DurationString, RoundTo, DisplayStatus, Dec;
    WordsAreCells();
    DurationIsCell(RoundTo(res.duration, 1_000_000_000));
    DecIsCell(|res.skipTests|);
    DecIsCell(|res.deferredTests|);
    RowReadsBack(
      [res.name, DisplayStatus(res.status), DurationString(RoundTo(res.duration, 1_000_000_000)),
       if res.skipTests == [] then "-" else Dec(|res.skipTests|),
       if res.deferredTests == [] then "-" else Dec(|res.deferredTests|), res.logPath]);
  }

  /** A row of the ranked tables shows the rank, the case, its exact duration, its status and its step. */
  lemma RankedRowReadsBack(rank: nat, tc: TimedCase)
    requires IsCell(tc.name) && IsCell(DisplayStatus(tc.status)) && IsCell(tc.step)
    ensures ReadsAs(RankedRow(rank, tc),
                    [Dec(rank), tc.name, DurationString(tc.duration), DisplayStatus(tc.status), tc.step])
  {
    hide ReadsAs, IsCell, TableRow, DurationString, DisplayStatus, Dec;
    DurationIsCell(tc.duration);
    DecIsCell(rank);
    RowReadsBack([Dec(rank), tc.name, DurationString(tc.duration), DisplayStatus(tc.status), tc.step]);
  }

  /** The slow table shows the first twenty cases, or as many as asked for. */
  lemma TopIs(run: Run, slow: seq<TimedCase>)
    ensures var n := if run.slowTop <= 0 then 20 else run.slowTop;
      Top(run, slow) == if |slow| < n then slow else slow[..n]
  {
  }

  /** The head of the report counts the cases of each kind over all steps. */
  lemma TotalsShown(run: Run, results: seq<StepResult>)
    ensures "- Totals: pass=" + Dec(SumTests(results, Pass)) + " fail=" + Dec(SumTests(results, Fail))
            + " skip=" + Dec(SumTests(results, Skip)) + " deferred=" + Dec(SumTests(results, Deferred))
            in Preamble(run, results)
  {
    hide Dec, SumTests, Optional;
    var totals := "- Totals: pass=" + Dec(SumTests(results, Pass)) + " fail=" + Dec(SumTests(results, Fail))
                  + " skip=" + Dec(SumTests(results, Skip)) + " deferred=" + Dec(SumTests(results, Deferred));
    var p := Preamble(run, results);
    assert p[|p| - 2] == totals;
  }

  // ---------- the reader of a five-column step table ----------

  lemma RowIsTrimmed(cells: seq<string>)
    requires cells != []
    ensures var row := TableRow(cells); |row| >= 4 && row[0] == '|' == row[|row| - 1] && Trim(row, JsSpace) == row
  {
    hide Cells, Trim;
    Report.RowEnd(cells);
    var row := TableRow(cells);
    assert row[|row| - 1] == Cells(cells)[|Cells(cells)| - 1];
    TrimTrimmed(row, JsSpace);
  }

  /** A row is parsed into its cells. */
  lemma MarkdownRowIs(cells: seq<string>)
    requires cells != [] && forall c <- cells :: IsCell(c)
    ensures MarkdownRow(TableRow(cells)) == Some(cells)
  {
    hide Trim, Split, TableRow, IsCell;
    RowIsTrimmed(cells);
    RowReadsBack(cells);
    var row := TableRow(cells);
    var pieces := Split(row, '|');
    var read := TrimAll(pieces[1..|pieces| - 1]);
    forall i | 0 <= i < |cells|
      ensures read[i] == cells[i]
    {
      CellOf(row, cells, i);
      assert pieces[1..|pieces| - 1][i] == pieces[i + 1];
    }
    assert read == cells;
  }

  lemma GroupName(group: string)
    requires IsCell(group) && group != ""
    ensures GroupOfStep("group_" + group) == Some(Lower(group))
  {
    hide Trim, Lower;
    assert ("group_" + group)[|"group_"|..] == group;
    LowerAt(group);
  }

  /** Of a five-column step row of a group the reader takes the group's name, in lower case, the duration - in
      milliseconds, if it has any - and the log, if there is one. */
  lemma FiveColumnRow(group: string, status: string, d: int, skips: string, log: string)
    requires IsCell("group_" + group) && IsCell(group) && group != "" && IsCell(status) && IsCell(skips) && IsCell(log)
    requires d == 0 || d >= 1_000_000
    ensures var row := TableRow(["group_" + group, status, DurationString(d), skips, log]);
      && StepGroups([row]) == [(Lower(group), d as real / 1_000_000.0)]
      && StepLogs([row]) == if log == "" || log == "-" then [] else [log]
  {
    hide Trim, Split, TableRow, IsCell, DurationString, ParseMs, MarkdownRow, Lower;
    var cells := ["group_" + group, status, DurationString(d), skips, log];
    DurationIsCell(d);
    ParsePrinted(d);
    MarkdownRowIs(cells);
    GroupName(group);
    var row := TableRow(cells);
    assert [row][1..] == [];
    assert StepColumns(row) == Some((cells, d as real / 1_000_000.0));
  }

  /** A step of a single test counts for the group of its letter. */
  lemma TestLetter(c: char, name: string)
    ensures GroupOfStep("test_Test" + [c] + name)
         == if c == 'A' then Some("config") else if c == 'B' then Some("governance")
            else if c == 'C' || c == 'D' then Some("staking") else if c == 'E' then Some("delegation")
            else if c == 'F' || c == 'G' then Some("punish") else if c == 'H' || c == 'I' then Some("rewards")
            else if c == 'Y' || c == 'Z' then Some("epoch") else None
  {
    var step, test := "test_Test" + [c] + name, "Test" + [c] + name;
    assert step[|"test_"|..] == test && test[4] == c;
    assert step[0] == 't';
  }

  // ---------- rounding ----------

  lemma SmallMultiple(a: int, unit: int)
    requires 0 <= a * unit < unit
    ensures a == 0
  {
    assert a >= 1 ==> (a - 1) * unit >= 0;
    assert a <= -1 ==> (-a - 1) * unit >= 0;
  }

  lemma MultipleOf(q: int, unit: int)
    requires unit > 0
    ensures (q * unit) % unit == 0
  {
    var p, r := q * unit / unit, (q * unit) % unit;
    assert (q - p) * unit == r;
    SmallMultiple(q - p, unit);
  }

  lemma MagnitudeRounds(m: nat, unit: nat)
    requires unit > 0
    ensures var rest := m % unit;
      (m - rest) % unit == 0 && (m + unit - rest) % unit == 0
  {
    var q, rest := m / unit, m % unit;
    assert m == q * unit + rest;
    assert (q + 1) * unit == q * unit + unit;
    MultipleOf(q, unit);
    MultipleOf(q + 1, unit);
  }

  lemma NegativeMultiple(x: int, unit: nat)
    requires unit > 0 && x % unit == 0
    ensures (-x) % unit == 0
  {
    var q := x / unit;
    assert x == q * unit;
    assert (-q) * unit == -x;
    MultipleOf(-q, unit);
  }

  /** A duration is shown to the nearest unit, halves away from zero, unless that does not fit 64 bits. */
  lemma RoundsToNearest(d: int, unit: int)
    requires unit > 0 && -MAX_DURATION - 1 <= d - unit && d + unit <= MAX_DURATION
    ensures var r := RoundTo(d, unit);
      && r % unit == 0 && -unit <= 2 * (r - d) <= unit
      && (2 * (r - d) == unit ==> d >= 0) && (2 * (d - r) == unit ==> d < 0)
  {
    var m := if d < 0 then -d else d;
    MagnitudeRounds(m, unit);
    NegativeMultiple(m - m % unit, unit);
    NegativeMultiple(m + unit - m % unit, unit);
  }
}
