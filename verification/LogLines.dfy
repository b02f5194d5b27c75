/** What the runner's log reader makes of the lines that go test itself prints (ci.go). */
module LogLines {
  import opened Text
  import opened Sorting
  import opened Durations
  import opened GoDurations
  import opened GoReadsBack
  import opened TestLog

  /** The text of a result line up to the case, as go test prints it. */
  function Marker(k: Kind): string
    requires k != Deferred
  {
    match k
    case Pass => "--- PASS: "
    case Fail => "--- FAIL: "
    case Skip => "--- SKIP: "
  }

  lemma IndexAt(line: string, pattern: string, p: nat)
    requires p <= |line| && pattern <= line[p..] && pattern != ""
    requires forall i :: 0 <= i < p ==> line[i] != pattern[0]
    ensures IndexOf(line, pattern) == p
  {
    forall i | 0 <= i < p
      ensures !(pattern <= line[i..])
    {
      assert line[i..][0] == line[i];
    }
  }

  /** A marker further on, behind another one, is not read. */
  lemma LaterMarker(line: string, p: nat, pattern: string)
    requires p < |line| && line[p] == '-' && !(pattern <= line[p..]) && pattern != "" && pattern[0] == '-'
    requires forall i :: 0 <= i < p ==> line[i] != '-'
    ensures var idx := IndexOf(line, pattern); idx < 0 || Trim(line[..idx], DotsAndBlanks) != ""
  {
    hide Trim;
    var idx := IndexOf(line, pattern);
    if idx >= 0 {
      assert line[idx] == line[idx..][0];
      assert idx > p;
      assert line[..idx][p] == '-' && line[p] in line[..idx];
      TrimFacts(line[..idx], DotsAndBlanks);
    }
  }

  lemma MarkerText(k: Kind)
    requires k != Deferred
    ensures Marker(k) == "--- " + Label(k) + ": " && |Marker(k)| == 10 && Marker(k)[0] == '-'
  {
  }

  lemma OwnMarker(indent: string, k: Kind, item: string)
    requires k != Deferred && (forall c <- indent :: c == '.' || c == ' ' || c == '\t')
    requires item != "" && Trimmed(item, GoSpace)
    ensures TestOutputValue(indent + Marker(k) + item, k) == Some(item)
  {
    hide Trim, Marker, Label, IndexOf;
    MarkerText(k);
    var line, p := indent + Marker(k) + item, |indent|;
    assert line[p..] == Marker(k) + item;
    forall i | 0 <= i < p
      ensures line[i] != '-'
    {
      assert line[i] in indent;
    }
    IndexAt(line, Marker(k), p);
    assert line[..p] == indent;
    TrimFacts(indent, DotsAndBlanks);
    assert line[p + |Marker(k)|..] == item;
    TrimTrimmed(item, GoSpace);
  }

  lemma OtherMarker(indent: string, k: Kind, item: string, other: Kind)
    requires k != Deferred && other != Deferred && other != k
    requires forall c <- indent :: c == '.' || c == ' ' || c == '\t'
    ensures TestOutputValue(indent + Marker(k) + item, other) == None
  {
    hide Trim;
    var line, p := indent + Marker(k) + item, |indent|;
    var pattern := "--- " + Label(other) + ": ";
    assert line[p..] == Marker(k) + item;
    forall i | 0 <= i < p
      ensures line[i] != '-'
    {
      assert line[i] in indent;
    }
    assert !(pattern <= line[p..]) by {
      assert line[p..][4] == Marker(k)[4] && line[p..][5] == Marker(k)[5] && pattern[4] == Label(other)[0];
      assert pattern[5] == Label(other)[1];
    }
    LaterMarker(line, p, pattern);
  }

  /** A result line of go test, behind dots and blanks at most, is a case of the kind it says, with the item it
      names. */
  lemma ResultLine(indent: string, k: Kind, item: string)
    requires k != Deferred && (forall c <- indent :: c == '.' || c == ' ' || c == '\t')
    requires item != "" && Trimmed(item, GoSpace)
    ensures LineCase(indent + Marker(k) + item) == Some((k, item))
  {
    hide TestOutputValue, NestedOutputValue, Marker;
    OwnMarker(indent, k, item);
    if k != Pass {
      OtherMarker(indent, k, item, Pass);
    }
    if k == Skip {
      OtherMarker(indent, k, item, Fail);
    }
  }

  /** A line that announces a test names it, and records no case. */
  lemma RunLine(name: string)
    requires name != "" && Trimmed(name, GoSpace)
    ensures var line := "=== RUN   " + name; RunTestName(line) == Some(name) && LineCase(line) == None
  {
    hide TestOutputValue, NestedOutputValue, Trim;
    var line := "=== RUN   " + name;
    assert Trimmed(line, GoSpace) by {
      assert line[|line| - 1] == name[|name| - 1];
    }
    TrimTrimmed(line, GoSpace);
    TrimTrimmed(name, GoSpace);
    assert line[|"=== RUN   "|..] == name;
    assert line[0] == '=';
    forall k | k in {Pass, Fail, Skip}
      ensures TestOutputValue(line, k) == None && NestedOutputValue(line, k) == None
    {
      NoTestOutput(line, 0, k);
      NotNested(line, 0, k);
    }
  }

  lemma LastIndexAt(s: string, pattern: string, p: nat)
    requires p <= |s| && pattern <= s[p..] && pattern != ""
    requires forall i :: p < i < |s| ==> s[i] != pattern[0]
    ensures LastIndexOf(s, pattern) == p
  {
    forall i | p < i <= |s|
      ensures !(pattern <= s[i..])
    {
      assert i < |s| ==> s[i..][0] == s[i];
    }
  }

  lemma PrintedInside(d: int)
    requires -MAX_DURATION - 1 <= d <= MAX_DURATION
    ensures var s := DurationString(d);
      && s != "" && Trim(s, GoSpace) == s && (forall c <- s :: c != ' ' && c != '(' && c != ')')
  {
    hide Trim, Lower, DurationString, ParseDuration;
    PrintedIsClean(d);
    var s := DurationString(d);
    assert Trimmed(s, GoSpace) by {
      assert s[0] in s && s[|s| - 1] in s && IsPrintedChar(s[0]) && IsPrintedChar(s[|s| - 1]);
    }
    TrimTrimmed(s, GoSpace);
    assert forall c <- s :: IsPrintedChar(c);
  }

  /** A case with the duration Go prints in brackets is read with that name and that duration. */
  lemma TimedItem(name: string, d: int, k: Kind)
    requires name != "" && Trimmed(name, GoSpace) && -MAX_DURATION - 1 <= d <= MAX_DURATION
    ensures ParseTimedCase(name + " (" + DurationString(d) + ")", k) == Some(TimedCase(name, d, Label(k), ""))
  {
    hide Trim, DurationString, ParseDuration;
    var text := DurationString(d);
    var raw := name + " (" + text + ")";
    PrintedInside(d);
    ParseUndoesString(d);
    assert raw[|name|..] == " (" + text + ")";
    forall i | |name| < i < |raw|
      ensures raw[i] != ' '
    {
      if |name| + 2 <= i < |raw| - 1 {
        assert raw[i] == text[i - |name| - 2] && text[i - |name| - 2] in text;
      }
    }
    LastIndexAt(raw, " (", |name|);
    assert raw[|raw| - 1..] == ")";
    LastIndexAt(raw, ")", |raw| - 1);
    assert raw[|name| + 2..|raw| - 1] == text && raw[..|name|] == name;
    TrimTrimmed(name, GoSpace);
  }

  /** Trimming keeps a text from its first character on that is no white space. */
  lemma FirstKept(line: string, p: nat) returns (q: nat)
    requires p < |line| && !Cuts(GoSpace, line[p])
    ensures q <= p && Trim(line, GoSpace) != "" && Trim(line, GoSpace)[0] == line[q]
  {
    TrimLeftFacts(line, GoSpace);
    var left := TrimLeft(line, GoSpace);
    TrimRightFacts(left, GoSpace);
    q := |line| - |left|;
    assert left != "" && left[0] == line[q];
  }

  /** A result line announces no test. */
  lemma ResultIsNoRun(indent: string, k: Kind, item: string)
    requires k != Deferred && forall c <- indent :: c == '.' || c == ' ' || c == '\t'
    ensures RunTestName(indent + Marker(k) + item) == None
  {
    hide Trim;
    var line := indent + Marker(k) + item;
    assert line[|indent|] == Marker(k)[0] == '-';
    var q := FirstKept(line, |indent|);
    assert q < |indent| ==> line[q] == indent[q] && indent[q] in indent;
    assert line[q] != '=';
  }

  lemma ItemIsClean(name: string, d: int)
    requires name != "" && Trimmed(name, GoSpace)
    ensures var item := name + " (" + DurationString(d) + ")"; item != "" && Trimmed(item, GoSpace)
  {
    hide DurationString;
    var item := name + " (" + DurationString(d) + ")";
    assert item[0] == name[0] && item[|item| - 1] == ')';
  }

  /** A log of one timed result line holds that case, in the list of its kind and no other. */
  lemma ResultLog(indent: string, k: Kind, name: string, d: int)
    requires k != Deferred && (forall c <- indent :: c == '.' || c == ' ' || c == '\t')
    requires name != "" && Trimmed(name, GoSpace) && -MAX_DURATION - 1 <= d <= MAX_DURATION
    ensures var item := name + " (" + DurationString(d) + ")";
      var lines := [indent + Marker(k) + item];
      && (forall other :: Recorded(lines, 1, other) == if other == k then [item] else [])
      && RecordedTimed(lines, 1)
         == [TimedCase(name, d, if k == Pass then "PASS" else if k == Fail then "FAIL" else "SKIP", "")]
  {
    hide Trim, DurationString, LineCase, RunTestName, ParseTimedCase, Contains, Marker;
    var item := name + " (" + DurationString(d) + ")";
    var line := indent + Marker(k) + item;
    ItemIsClean(name, d);
    ResultIsNoRun(indent, k, item);
    ResultLine(indent, k, item);
    TimedItem(name, d, k);
    var lines := [line];
    assert LatestRun(lines, 1) == "";
    assert !Announced(lines, 1, name);
    assert OutcomeAt(lines, 0) == Some(Outcome(k, item, Some(TimedCase(name, d, Label(k), ""))));
    assert forall other :: Recorded(lines, 0, other) == [];
    assert RecordedTimed(lines, 0) == [];
  }

  /** The log of one test that is announced, says it is deferred, and is skipped: it is deferred, and nothing else. */
  lemma DeferredLog(name: string, remark: string, indent: string, d: int)
    requires name != "" && Trimmed(name, GoSpace) && -MAX_DURATION - 1 <= d <= MAX_DURATION
    requires Contains(remark, "Deferred:") && RunTestName(remark) == None && LineCase(remark) == None
    requires forall c <- indent :: c == '.' || c == ' ' || c == '\t'
    ensures var item := name + " (" + DurationString(d) + ")";
      var lines := ["=== RUN   " + name, remark, indent + "--- SKIP: " + item];
      && Recorded(lines, 3, Deferred) == [item] && RecordedTimed(lines, 3) == [TimedCase(name, d, "DEFERRED", "")]
      && Recorded(lines, 3, Pass) == Recorded(lines, 3, Fail) == Recorded(lines, 3, Skip) == []
  {
    hide Trim, DurationString, LineCase, RunTestName, ParseTimedCase, Contains;
    var item := name + " (" + DurationString(d) + ")";
    var skip := indent + "--- SKIP: " + item;
    var lines := ["=== RUN   " + name, remark, skip];
    ItemIsClean(name, d);
    RunLine(name);
    ResultLine(indent, Skip, item);
    TimedItem(name, d, Skip);
    ResultIsNoRun(indent, Skip, item);
    assert LatestRun(lines, 1) == name && LatestRun(lines, 2) == name;
    assert Announced(lines, 3, name) by {
      assert LatestRun(lines, 1 + 1) == name && Contains(lines[1], "Deferred:");
    }
    assert OutcomeAt(lines, 0) == None && OutcomeAt(lines, 1) == None;
    assert OutcomeAt(lines, 2) == Some(Outcome(Deferred, item, Some(TimedCase(name, d, "DEFERRED", ""))));
    assert forall k :: Recorded(lines, 2, k) == [] by {
      assert forall k :: Recorded(lines, 0, k) == [] && Recorded(lines, 1, k) == [];
    }
    assert RecordedTimed(lines, 0) == RecordedTimed(lines, 1) == RecordedTimed(lines, 2) == [];
  }

  /** The rows that printResult prints, to the letter. */
  lemma PrintedRows(item: string)
    ensures Row(Pass, item) == "  \U{1f7e2} PASS: " + item && Row(Fail, item) == "  \U{1f534} FAIL: " + item
    ensures Row(Skip, item) == "  \U{1f7e1} SKIP: " + item && Row(Deferred, item) == "  \U{1f7e0} DEFERRED: " + item
  {
  }

  /** And what it prints: a line with the name, status, duration and log, then all passed, failed, skipped and deferred
      cases, each kind sorted. */
  lemma PrintedResult(res: StepResult)
    ensures ResultLines(res)
         == ["<== " + res.name + ": " + DisplayStatus(res.status) + " ("
             + DurationString(RoundTo(res.duration, 1_000_000_000)) + ") log: " + res.logPath]
            + Rows(Pass, Sort(res.passTests, TextLe)) + Rows(Fail, Sort(res.failTests, TextLe))
            + Rows(Skip, Sort(res.skipTests, TextLe)) + Rows(Deferred, Sort(res.deferredTests, TextLe))
  {
    hide Sort, DurationString, RoundTo, DisplayStatus, Rows;
  }
}
