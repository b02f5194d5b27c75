/** The runner's log reader and result printer (ci.go): what a line of test output is, which skips
    are deferred, and that reading back a printed result gives the result. */
module TestLog {
  import opened Text
  import opened Sorting
  import opened GoDurations

  datatype TimedCase = TimedCase(name: string, duration: int, status: string, step: string)

  datatype StepResult = StepResult(
    name: string, command: string, logPath: string, status: string, duration: int,
    passTests: seq<string>, failTests: seq<string>, skipTests: seq<string>, deferredTests: seq<string>,
    timed: seq<TimedCase>)

  /** The four lists a case can be recorded in. */
  datatype Kind = Pass | Fail | Skip | Deferred

  function Tests(res: StepResult, k: Kind): seq<string> {
    match k
    case Pass => res.passTests
    case Fail => res.failTests
    case Skip => res.skipTests
    case Deferred => res.deferredTests
  }

  lemma TestsAre(res: StepResult)
    ensures Tests(res, Pass) == res.passTests && Tests(res, Fail) == res.failTests
    ensures Tests(res, Skip) == res.skipTests && Tests(res, Deferred) == res.deferredTests
  {
  }

  function SumTests(results: seq<StepResult>, k: Kind): nat {
    if results == [] then 0
    else SumTests(results[..|results| - 1], k) + |Tests(results[|results| - 1], k)|
  }

  function Label(k: Kind): string {
    match k
    case Pass => "PASS"
    case Fail => "FAIL"
    case Skip => "SKIP"
    case Deferred => "DEFERRED"
  }

  /** The coloured circle in front of a status. */
  function Circle(k: Kind): char {
    match k
    case Pass => '\U{1f7e2}'
    case Fail => '\U{1f534}'
    case Skip => '\U{1f7e1}'
    case Deferred => '\U{1f7e0}'
  }

  function Display(k: Kind): string {
    [Circle(k)] + " " + Label(k)
  }

  /** displayStatus. */
  function DisplayStatus(status: string): string {
    var s := Upper(Trim(status, GoSpace));
    if s == "PASS" then Display(Pass)
    else if s == "FAIL" then Display(Fail)
    else if s == "SKIP" then Display(Skip)
    else if s == "DEFERRED" then Display(Deferred)
    else Trim(status, GoSpace)
  }

  // ---------- reading one line ----------

  function Value(s: string): Option<string> {
    var value := Trim(s, GoSpace);
    if value == "" then None else Some(value)
  }

  /** extractRunTestName. */
  function RunTestName(line: string): Option<string> {
    var t := Trim(line, GoSpace);
    if "=== RUN   " <= t then Value(t[|"=== RUN   "|..]) else None
  }

  /** extractTestOutputValue: go test's own result lines, indented by dots and blanks at most. */
  function TestOutputValue(line: string, k: Kind): Option<string> {
    var marker := "--- " + Label(k) + ": ";
    var idx := IndexOf(line, marker);
    if idx < 0 || Trim(line[..idx], DotsAndBlanks) != "" then None else Value(line[idx + |marker|..])
  }

  /** extractNestedTestOutputValue: the rows printResult prints. */
  function NestedOutputValue(line: string, k: Kind): Option<string> {
    var marker := Display(k) + ": ";
    var trimmed := TrimLeft(line, Blanks);
    if marker <= trimmed then Value(trimmed[|marker|..]) else None
  }

  /** parseTimedCase: "name (duration)". */
  function ParseTimedCase(raw: string, k: Kind): Option<TimedCase> {
    var l, r := LastIndexOf(raw, " ("), LastIndexOf(raw, ")");
    if l <= 0 || r <= l + 2 then None
    else
      match ParseDuration(Trim(raw[l + 2..r], GoSpace))
      case None => None
      case Some(d) => Some(TimedCase(Trim(raw[..l], GoSpace), d, Label(k), ""))
  }

  /** The first reading of a line that succeeds: its kind and its value. */
  function LineCase(line: string): (r: Option<(Kind, string)>)
    ensures r.Some? ==> r.value.0 != Deferred
  {
    if TestOutputValue(line, Pass).Some? then Some((Pass, TestOutputValue(line, Pass).value))
    else if TestOutputValue(line, Fail).Some? then Some((Fail, TestOutputValue(line, Fail).value))
    else if TestOutputValue(line, Skip).Some? then Some((Skip, TestOutputValue(line, Skip).value))
    else if NestedOutputValue(line, Pass).Some? then Some((Pass, NestedOutputValue(line, Pass).value))
    else if NestedOutputValue(line, Fail).Some? then Some((Fail, NestedOutputValue(line, Fail).value))
    else if NestedOutputValue(line, Skip).Some? then Some((Skip, NestedOutputValue(line, Skip).value))
    else None
  }

  // ---------- what a line means in its log ----------

  /** The test most recently announced in the first k lines. */
  function LatestRun(lines: seq<string>, k: nat): string
    requires k <= |lines|
  {
    if k == 0 then ""
    else if RunTestName(lines[k - 1]).Some? then RunTestName(lines[k - 1]).value
    else LatestRun(lines, k - 1)
  }

  /** One of the first k lines says "Deferred:" while the named test is the latest announced. */
  ghost predicate Announced(lines: seq<string>, k: nat, name: string)
    requires k <= |lines|
  {
    name != "" && exists j :: 0 <= j < k && LatestRun(lines, j + 1) == name && Contains(lines[j], "Deferred:")
  }

  datatype Outcome = Outcome(kind: Kind, value: string, timed: Option<TimedCase>)

  /** What line k records: nothing, or one case in exactly one list. A skip is deferred exactly when it
      carries a duration and its test was announced as deferred on some line up to and including k. */
  ghost function OutcomeAt(lines: seq<string>, k: nat): Option<Outcome>
    requires k < |lines|
  {
    match LineCase(lines[k])
    case None => None
    case Some((kind, value)) =>
      var timed := ParseTimedCase(value, kind);
      if kind == Skip && timed.Some? && Announced(lines, k + 1, timed.value.name)
      then Some(Outcome(Deferred, value, Some(timed.value.(status := Label(Deferred)))))
      else Some(Outcome(kind, value, timed))
  }

  /** The values of one kind that the first k lines record, in order. */
  ghost function Recorded(lines: seq<string>, k: nat, kind: Kind): seq<string>
    requires k <= |lines|
  {
    if k == 0 then []
    else
      var o := OutcomeAt(lines, k - 1);
      Recorded(lines, k - 1, kind) + if o.Some? && o.value.kind == kind then [o.value.value] else []
  }

  ghost function RecordedTimed(lines: seq<string>, k: nat): seq<TimedCase>
    requires k <= |lines|
  {
    if k == 0 then []
    else
      var o := OutcomeAt(lines, k - 1);
      RecordedTimed(lines, k - 1) + if o.Some? && o.value.timed.Some? then [o.value.timed.value] else []
  }

  lemma NothingAnnounced(lines: seq<string>)
    ensures forall n :: !Announced(lines, 0, n)
  {
  }

  lemma AnnouncedStep(lines: seq<string>, i: nat)
    requires i < |lines|
    ensures forall n :: Announced(lines, i + 1, n) <==>
      Announced(lines, i, n) || (n != "" && LatestRun(lines, i + 1) == n && Contains(lines[i], "Deferred:"))
  {
    hide LatestRun, Contains;
    forall n | Announced(lines, i, n)
      ensures Announced(lines, i + 1, n)
    {
      var j :| 0 <= j < i && LatestRun(lines, j + 1) == n && Contains(lines[j], "Deferred:");
    }
  }

  /** parseTestOutput over the lines the scanner yields: it keeps the latest test and the set of deferred
      candidates as it goes, and records exactly the outcomes above. */
  method ParseTestOutput(lines: seq<string>)
    returns (pass: seq<string>, fail: seq<string>, skip: seq<string>, deferred: seq<string>, timed: seq<TimedCase>)
    ensures pass == Recorded(lines, |lines|, Pass)
    ensures fail == Recorded(lines, |lines|, Fail)
    ensures skip == Recorded(lines, |lines|, Skip)
    ensures deferred == Recorded(lines, |lines|, Deferred)
    ensures timed == RecordedTimed(lines, |lines|)
  {
    hide LineCase, RunTestName, Contains, ParseTimedCase, Announced;
    NothingAnnounced(lines);
    pass, fail, skip, deferred, timed := [], [], [], [], [];
    var currentTest := "";
    var deferredCandidates: set<string> := {};
    for i := 0 to |lines|
      invariant currentTest == LatestRun(lines, i)
      invariant forall n :: n in deferredCandidates <==> Announced(lines, i, n)
      invariant pass == Recorded(lines, i, Pass) && fail == Recorded(lines, i, Fail)
      invariant skip == Recorded(lines, i, Skip) && deferred == Recorded(lines, i, Deferred)
      invariant timed == RecordedTimed(lines, i)
    {
      var line := lines[i];
      if RunTestName(line).Some? {
        currentTest := RunTestName(line).value;
      }
      AnnouncedStep(lines, i);
      if currentTest != "" && Contains(line, "Deferred:") {
        deferredCandidates := deferredCandidates + {currentTest};
      }
      var here := LineCase(line);
      if here.Some? {
        var (kind, value) := here.value;
        var tc := ParseTimedCase(value, kind);
        if kind == Pass {
          pass := pass + [value];
        } else if kind == Fail {
          fail := fail + [value];
        } else if tc.Some? && tc.value.name in deferredCandidates {
          tc := Some(tc.value.(status := "DEFERRED"));
          deferred := deferred + [value];
        } else {
          skip := skip + [value];
        }
        if tc.Some? {
          timed := timed + [tc.value];
        }
      }
    }
  }

  // ---------- what the reader keeps ----------

  /** How many lines record something. */
  ghost function RecordingLines(lines: seq<string>, k: nat): nat
    requires k <= |lines|
  {
    if k == 0 then 0 else RecordingLines(lines, k - 1) + if OutcomeAt(lines, k - 1).Some? then 1 else 0
  }

  /** Every line adds to at most one of the four lists: together they hold one value per recording line. */
  lemma {:induction false} OneListPerLine(lines: seq<string>, k: nat)
    requires k <= |lines|
    ensures |Recorded(lines, k, Pass)| + |Recorded(lines, k, Fail)|
            + |Recorded(lines, k, Skip)| + |Recorded(lines, k, Deferred)|
         == RecordingLines(lines, k) <= k
  {
    hide OutcomeAt;
    if k == 0 {
    } else {
      OneListPerLine(lines, k - 1);
    }
  }

  function CountStatus(timed: seq<TimedCase>, status: string): nat {
    if timed == [] then 0
    else CountStatus(timed[..|timed| - 1], status) + if timed[|timed| - 1].status == status then 1 else 0
  }

  lemma OutcomeStatus(lines: seq<string>, k: nat)
    requires k < |lines|
    ensures var o := OutcomeAt(lines, k);
      o.Some? ==>
        && (o.value.kind == Deferred ==> o.value.timed.Some?)
        && (o.value.timed.Some? ==> (o.value.timed.value.status == Label(Deferred) <==> o.value.kind == Deferred))
  {
    hide LineCase, Announced, LatestRun, Trim, ParseDuration, LastIndexOf;
    assert Label(Pass)[0] != Label(Deferred)[0] && Label(Fail)[0] != Label(Deferred)[0];
    assert Label(Skip)[0] != Label(Deferred)[0];
  }

  lemma CountAppend(timed: seq<TimedCase>, tc: TimedCase, status: string)
    ensures CountStatus(timed + [tc], status) == CountStatus(timed, status) + if tc.status == status then 1 else 0
  {
    assert (timed + [tc])[..|timed|] == timed;
  }

  /** The timed entries marked DEFERRED are exactly as many as the deferred cases: an untimed skip is never deferred. */
  lemma {:induction false} DeferredAreTimed(lines: seq<string>, k: nat)
    requires k <= |lines|
    ensures CountStatus(RecordedTimed(lines, k), Label(Deferred)) == |Recorded(lines, k, Deferred)|
  {
    hide OutcomeAt;
    if k == 0 {
    } else {
      DeferredAreTimed(lines, k - 1);
      OutcomeStatus(lines, k - 1);
      var o := OutcomeAt(lines, k - 1);
      if o.Some? && o.value.timed.Some? {
        CountAppend(RecordedTimed(lines, k - 1), o.value.timed.value, Label(Deferred));
      } else {
        assert RecordedTimed(lines, k) == RecordedTimed(lines, k - 1);
      }
    }
  }

  /** Line k is a skip that carries a duration, and some line up to and including it says "Deferred:" while the
      skip's test is the latest one announced. */
  ghost predicate DeferredSkip(lines: seq<string>, k: nat, value: string)
    requires k < |lines|
  {
    && LineCase(lines[k]) == Some((Skip, value)) && ParseTimedCase(value, Skip).Some?
    && Announced(lines, k + 1, ParseTimedCase(value, Skip).value.name)
  }

  /** The deferred list holds exactly such skips, and the skip list exactly the others. */
  lemma {:induction false} DeferredExactlyWhen(lines: seq<string>, n: nat, value: string)
    requires n <= |lines|
    ensures value in Recorded(lines, n, Deferred) <==> exists k :: 0 <= k < n && DeferredSkip(lines, k, value)
    ensures value in Recorded(lines, n, Skip) <==>
      exists k :: 0 <= k < n && LineCase(lines[k]) == Some((Skip, value)) && !DeferredSkip(lines, k, value)
  {
    hide LineCase, ParseTimedCase, Announced;
    if n == 0 {
    } else {
      var k := n - 1;
      DeferredExactlyWhen(lines, k, value);
      assert value in Recorded(lines, n, Deferred)
        <==> value in Recorded(lines, k, Deferred) || DeferredSkip(lines, k, value);
      assert value in Recorded(lines, n, Skip)
        <==> value in Recorded(lines, k, Skip)
             || (LineCase(lines[k]) == Some((Skip, value)) && !DeferredSkip(lines, k, value));
    }
  }

  // ---------- printing a result ----------

  /** Duration.Round for a positive unit: to the nearest multiple, halves away from zero, and within 64 bits. */
  function RoundTo(d: int, unit: int): int
    requires unit > 0
  {
    var m, limit := if d < 0 then -d else d, if d < 0 then MAX_DURATION + 1 else MAX_DURATION;
    var r := m % unit;
    var rounded := if r + r < unit then m - r else if m + unit - r <= limit then m + unit - r else limit;
    if d < 0 then -rounded else rounded
  }

  function Header(res: StepResult): string {
    "<== " + res.name + ": " + DisplayStatus(res.status) + " (" + DurationString(RoundTo(res.duration, 1_000_000_000))
    + ") log: " + res.logPath
  }

  function Row(k: Kind, item: string): string {
    "  " + Display(k) + ": " + item
  }

  function Rows(k: Kind, items: seq<string>): seq<string> {
    if items == [] then [] else [Row(k, items[0])] + Rows(k, items[1..])
  }

  function CaseRows(k: Kind, items: seq<string>): seq<string> {
    Rows(k, Sort(items, TextLe))
  }

  function ResultLines(res: StepResult): seq<string> {
    [Header(res)] + CaseRows(Pass, res.passTests) + CaseRows(Fail, res.failTests)
    + CaseRows(Skip, res.skipTests) + CaseRows(Deferred, res.deferredTests)
  }

  /** printCaseList: what it appends to the output. */
  method PrintCaseList(k: Kind, items: seq<string>) returns (out: string)
    ensures out == Unlines(CaseRows(k, items))
  {
    hide Row, Sort;
    out := "";
    if items == [] {
      return;
    }
    var list := Sort(items, TextLe);
    for i := 0 to |list|
      invariant Unlines(CaseRows(k, items)) == out + Unlines(Rows(k, list[i..]))
    {
      assert list[i..][1..] == list[i + 1..];
      assert Rows(k, list[i..]) == [Row(k, list[i])] + Rows(k, list[i + 1..]);
      out := out + (Row(k, list[i]) + "\n");
    }
  }

  lemma OneLine(line: string)
    ensures Unlines([line]) == line + "\n"
  {
    assert Unlines([line][1..]) == "";
  }

  /** printResult. */
  method PrintResult(res: StepResult) returns (out: string)
    ensures out == Unlines(ResultLines(res))
  {
    hide Header, CaseRows, Unlines;
    out := Header(res) + "\n";
    OneLine(Header(res));
    var rows := PrintCaseList(Pass, res.passTests);
    out := out + rows;
    rows := PrintCaseList(Fail, res.failTests);
    out := out + rows;
    rows := PrintCaseList(Skip, res.skipTests);
    out := out + rows;
    rows := PrintCaseList(Deferred, res.deferredTests);
    out := out + rows;
    var a := [Header(res)];
    var b, c, d := a + CaseRows(Pass, res.passTests), CaseRows(Fail, res.failTests), CaseRows(Skip, res.skipTests);
    UnlinesAppend(a, CaseRows(Pass, res.passTests));
    UnlinesAppend(b, c);
    UnlinesAppend(b + c, d);
    UnlinesAppend(b + c + d, CaseRows(Deferred, res.deferredTests));
  }

  // ---------- reading back a printed result ----------

  /** A marker is only read at the start of a line, or behind dots and blanks. */
  lemma NoTestOutput(line: string, p: nat, k: Kind)
    requires p < |line| && !Cuts(DotsAndBlanks, line[p]) && forall i :: 0 <= i <= p ==> line[i] != '-'
    ensures TestOutputValue(line, k) == None
  {
    hide Trim;
    var marker := "--- " + Label(k) + ": ";
    var idx := IndexOf(line, marker);
    if idx >= 0 {
      assert line[idx] == line[idx..][0] == marker[0] == '-';
      assert line[..idx][p] == line[p] && line[p] in line[..idx];
      TrimFacts(line[..idx], DotsAndBlanks);
    }
  }

  lemma TrimLeftAt(line: string, p: nat, cut: Cutset)
    requires p < |line| && !Cuts(cut, line[p]) && forall i :: 0 <= i < p ==> Cuts(cut, line[i])
    ensures TrimLeft(line, cut) == line[p..]
  {
    TrimLeftFacts(line, cut);
    var r := TrimLeft(line, cut);
    assert r != "" ==> r[0] == line[|line| - |r|];
  }

  lemma NotRun(line: string, p: nat)
    requires p < |line| && !Cuts(GoSpace, line[p]) && line[p] != '='
    requires forall i :: 0 <= i < p ==> Cuts(GoSpace, line[i])
    ensures RunTestName(line) == None
  {
    TrimLeftAt(line, p, GoSpace);
    TrimRightFacts(line[p..], GoSpace);
    var t := Trim(line, GoSpace);
    assert t == "" || t[0] == line[p];
  }

  lemma NotNested(line: string, p: nat, k: Kind)
    requires p < |line| && !Cuts(Blanks, line[p]) && line[p] != Circle(k)
    requires forall i :: 0 <= i < p ==> Cuts(Blanks, line[i])
    ensures NestedOutputValue(line, k) == None
  {
    TrimLeftAt(line, p, Blanks);
    assert (Display(k) + ": ")[0] == Circle(k);
  }

  /** A line that starts like a row of one kind can only be a row of that kind. */
  lemma RowLine(line: string, k: Kind, other: Kind)
    requires |line| > 2 && line[0] == line[1] == ' ' && line[2] == Circle(k)
    ensures RunTestName(line) == None && TestOutputValue(line, other) == None
    ensures other != k ==> NestedOutputValue(line, other) == None
    ensures TrimLeft(line, Blanks) == line[2..]
  {
    hide TestOutputValue, NestedOutputValue, RunTestName;
    NotRun(line, 2);
    NoTestOutput(line, 2, other);
    TrimLeftAt(line, 2, Blanks);
    if other != k {
      NotNested(line, 2, other);
    }
  }

  lemma RowStart(k: Kind, item: string)
    ensures var line := Row(k, item);
      && |line| > 3 && line[0] == line[1] == ' ' && line[2] == Circle(k) && line[2..] == Display(k) + ": " + item
      && line[|line| - 1] == (if item != "" then item[|item| - 1] else ' ')
  {
  }

  lemma NestedRow(k: Kind, item: string)
    requires item != "" && Trimmed(item, GoSpace)
    ensures NestedOutputValue(Row(k, item), k) == Some(item)
  {
    hide RunTestName, TestOutputValue;
    RowStart(k, item);
    RowLine(Row(k, item), k, k);
    TrimTrimmed(item, GoSpace);
    var marker := Display(k) + ": ";
    assert (marker + item)[|marker|..] == item;
  }

  /** A printed row reads as its item; a deferred row reads as nothing. */
  lemma RowCase(k: Kind, item: string)
    requires k != Deferred && item != "" && Trimmed(item, GoSpace)
    ensures LineCase(Row(k, item)) == Some((k, item)) && RunTestName(Row(k, item)) == None
  {
    hide TestOutputValue, NestedOutputValue, RunTestName;
    var line := Row(k, item);
    RowStart(k, item);
    RowLine(line, k, Pass);
    RowLine(line, k, Fail);
    RowLine(line, k, Skip);
    NestedRow(k, item);
  }

  lemma DeferredRowCase(line: string)
    requires |line| > 2 && line[0] == line[1] == ' ' && line[2] == Circle(Deferred)
    ensures LineCase(line) == None && RunTestName(line) == None
  {
    hide TestOutputValue, NestedOutputValue, RunTestName;
    RowLine(line, Deferred, Pass);
    RowLine(line, Deferred, Fail);
    RowLine(line, Deferred, Skip);
  }

  lemma HeaderCase(line: string)
    requires line != "" && line[0] == '<'
    ensures LineCase(line) == None && RunTestName(line) == None
  {
    hide TestOutputValue, NestedOutputValue, RunTestName;
    NotRun(line, 0);
    NoTestOutput(line, 0, Pass);
    NoTestOutput(line, 0, Fail);
    NoTestOutput(line, 0, Skip);
    NotNested(line, 0, Pass);
    NotNested(line, 0, Fail);
    NotNested(line, 0, Skip);
  }

  function PlainLine(line: string, kind: Kind): seq<string> {
    var c := LineCase(line);
    if c.Some? && c.value.0 == kind then [c.value.1] else []
  }

  /** The values of one kind in lines that announce no test. */
  function Plain(lines: seq<string>, kind: Kind): seq<string> {
    if lines == [] then [] else PlainLine(lines[0], kind) + Plain(lines[1..], kind)
  }

  lemma PlainUnfold(lines: seq<string>, kind: Kind)
    ensures lines == [] ==> Plain(lines, kind) == []
    ensures lines != [] ==> Plain(lines, kind) == PlainLine(lines[0], kind) + Plain(lines[1..], kind)
  {
    hide PlainLine;
  }

  lemma {:induction false} PlainAppend(a: seq<string>, b: seq<string>, kind: Kind)
    ensures Plain(a + b, kind) == Plain(a, kind) + Plain(b, kind)
  {
    hide PlainLine, Plain;
    PlainUnfold(a, kind);
    if a == [] {
      assert a + b == b;
    } else {
      PlainAppend(a[1..], b, kind);
      PlainUnfold(a + b, kind);
      assert (a + b)[1..] == a[1..] + b && (a + b)[0] == a[0];
    }
  }

  ghost predicate NoRuns(lines: seq<string>) {
    forall i :: 0 <= i < |lines| ==> RunTestName(lines[i]) == None
  }

  lemma {:induction false} NoLatestRun(lines: seq<string>, k: nat)
    requires NoRuns(lines) && k <= |lines|
    ensures LatestRun(lines, k) == ""
  {
    hide RunTestName;
    if k == 0 {
    } else {
      NoLatestRun(lines, k - 1);
    }
  }

  lemma PlainOutcome(lines: seq<string>, k: nat, kind: Kind)
    requires NoRuns(lines) && k < |lines|
    ensures var o := OutcomeAt(lines, k);
      (if o.Some? && o.value.kind == kind then [o.value.value] else []) == PlainLine(lines[k], kind)
  {
    hide LineCase, LatestRun, RunTestName, Contains;
    var next := k + 1;
    forall n
      ensures !Announced(lines, next, n)
    {
      if Announced(lines, next, n) {
        var j :| 0 <= j <= k && LatestRun(lines, j + 1) == n && Contains(lines[j], "Deferred:");
        NoLatestRun(lines, j + 1);
      }
    }
  }

  lemma PlainOne(line: string, kind: Kind)
    ensures Plain([line], kind) == PlainLine(line, kind)
  {
    hide PlainLine;
    assert [line][1..] == [];
  }

  lemma {:induction false} RecordedPlain(lines: seq<string>, k: nat, kind: Kind)
    requires NoRuns(lines) && k <= |lines|
    ensures Recorded(lines, k, kind) == Plain(lines[..k], kind)
  {
    hide OutcomeAt, PlainLine, NoRuns;
    if k == 0 {
    } else {
      RecordedPlain(lines, k - 1, kind);
      PlainOutcome(lines, k - 1, kind);
      PlainAppend(lines[..k - 1], [lines[k - 1]], kind);
      assert lines[..k] == lines[..k - 1] + [lines[k - 1]];
      PlainOne(lines[k - 1], kind);
    }
  }

  /** What a result's pass, fail and skip items look like when a log reader produced them. */
  predicate CleanItems(items: seq<string>) {
    forall item <- items :: item != "" && Trimmed(item, GoSpace) && SingleLine(item)
  }

  predicate SingleLines(items: seq<string>) {
    forall item <- items :: SingleLine(item)
  }

  lemma {:induction false} RowsPlain(k: Kind, items: seq<string>, kind: Kind)
    requires k != Deferred && CleanItems(items)
    ensures Plain(Rows(k, items), kind) == if kind == k then items else []
  {
    hide Row, LineCase;
    if items == [] {
    } else {
      assert items[0] in items && forall x <- items[1..] :: x in items;
      RowsPlain(k, items[1..], kind);
      RowCase(k, items[0]);
      assert Rows(k, items)[1..] == Rows(k, items[1..]);
    }
  }

  lemma NoRunsCons(line: string, rest: seq<string>)
    requires RunTestName(line) == None && NoRuns(rest)
    ensures NoRuns([line] + rest)
  {
    hide RunTestName;
  }

  lemma DropAppend(a: seq<string>, b: seq<string>)
    ensures DropCRs(a + b) == DropCRs(a) + DropCRs(b)
  {
  }

  lemma {:induction false} RowsUnchanged(k: Kind, items: seq<string>)
    requires k != Deferred && CleanItems(items)
    ensures NoRuns(Rows(k, items)) && DropCRs(Rows(k, items)) == Rows(k, items)
  {
    hide Row, LineCase, RunTestName;
    if items == [] {
    } else {
      assert items[0] in items && forall x <- items[1..] :: x in items;
      RowsUnchanged(k, items[1..]);
      RowCase(k, items[0]);
      RowStart(k, items[0]);
      var rest := Rows(k, items[1..]);
      NoRunsCons(Row(k, items[0]), rest);
      DropAppend([Row(k, items[0])], rest);
      assert DropCRs([Row(k, items[0])]) == [Row(k, items[0])];
    }
  }

  lemma {:induction false} DeferredRowsPlain(items: seq<string>, kind: Kind)
    ensures var rows := DropCRs(Rows(Deferred, items)); NoRuns(rows) && Plain(rows, kind) == []
  {
    hide Row, LineCase, RunTestName;
    if items == [] {
    } else {
      DeferredRowsPlain(items[1..], kind);
      RowStart(Deferred, items[0]);
      var rows := DropCRs(Rows(Deferred, items));
      DeferredRowCase(rows[0]);
      assert rows[1..] == DropCRs(Rows(Deferred, items[1..]));
      assert forall i :: 0 < i < |rows| ==> rows[i] == rows[1..][i - 1];
    }
  }

  lemma {:induction false} RowsSingle(k: Kind, items: seq<string>)
    requires SingleLines(items)
    ensures forall l <- Rows(k, items) :: SingleLine(l)
  {
    if items == [] {
    } else {
      assert items[0] in items && forall x <- items[1..] :: x in items;
      RowsSingle(k, items[1..]);
      assert SingleLine(Row(k, items[0]));
    }
  }

  lemma HeaderSingle(res: StepResult)
    requires SingleLine(res.name) && SingleLine(res.status) && SingleLine(res.logPath)
    ensures SingleLine(Header(res)) && DropCR(Header(res)) != "" && DropCR(Header(res))[0] == '<'
  {
    hide Trim, DurationString, RoundTo;
    TrimFacts(res.status, GoSpace);
    PrintedIsClean(RoundTo(res.duration, 1_000_000_000));
    var d := DurationString(RoundTo(res.duration, 1_000_000_000));
    assert SingleLine(d);
    assert SingleLine(DisplayStatus(res.status));
    assert Header(res)[0] == '<' && Header(res)[1] == '=';
  }

  /** A result the runner can hand to printResult: every text is one line, and the recorded
      pass, fail and skip items are trimmed and not empty. */
  predicate Printable(res: StepResult) {
    && SingleLine(res.name) && SingleLine(res.status) && SingleLine(res.logPath)
    && CleanItems(res.passTests) && CleanItems(res.failTests) && CleanItems(res.skipTests)
    && SingleLines(res.deferredTests)
  }

  lemma SortKeeps(items: seq<string>)
    ensures CleanItems(items) ==> CleanItems(Sort(items, TextLe)) && SingleLines(items)
    ensures SingleLines(items) ==> SingleLines(Sort(items, TextLe))
  {
    hide Sort;
    forall x | x in Sort(items, TextLe)
      ensures x in items
    {
      InMultiset(Sort(items, TextLe), items, x);
    }
  }

  /** The four blocks of rows, sorted, as the scanner yields them. */
  function Blocks(res: StepResult): seq<string> {
    Rows(Pass, Sort(res.passTests, TextLe)) + (Rows(Fail, Sort(res.failTests, TextLe))
    + (Rows(Skip, Sort(res.skipTests, TextLe)) + DropCRs(Rows(Deferred, Sort(res.deferredTests, TextLe)))))
  }

  function Listed(res: StepResult, kind: Kind): seq<string> {
    match kind
    case Pass => Sort(res.passTests, TextLe)
    case Fail => Sort(res.failTests, TextLe)
    case Skip => Sort(res.skipTests, TextLe)
    case Deferred => []
  }

  lemma NoRunsJoin(a: seq<string>, b: seq<string>)
    requires NoRuns(a) && NoRuns(b)
    ensures NoRuns(a + b)
  {
    hide RunTestName;
  }

  lemma BlockFacts(k: Kind, items: seq<string>, kind: Kind)
    requires k != Deferred && CleanItems(items)
    ensures var rows := Rows(k, Sort(items, TextLe));
      NoRuns(rows) && DropCRs(rows) == rows && Plain(rows, kind) == if kind == k then Sort(items, TextLe) else []
  {
    hide Rows, NoRuns, DropCRs, Plain, Sort;
    SortKeeps(items);
    RowsPlain(k, Sort(items, TextLe), kind);
    RowsUnchanged(k, Sort(items, TextLe));
  }

  lemma BlocksPlain(res: StepResult, kind: Kind)
    requires Printable(res)
    ensures NoRuns(Blocks(res)) && Plain(Blocks(res), kind) == Listed(res, kind)
  {
    hide Rows, NoRuns, Sort, Plain, CleanItems, SingleLine;
    var p, f := Rows(Pass, Sort(res.passTests, TextLe)), Rows(Fail, Sort(res.failTests, TextLe));
    var s := Rows(Skip, Sort(res.skipTests, TextLe));
    var d := DropCRs(Rows(Deferred, Sort(res.deferredTests, TextLe)));
    BlockFacts(Pass, res.passTests, kind);
    BlockFacts(Fail, res.failTests, kind);
    BlockFacts(Skip, res.skipTests, kind);
    DeferredRowsPlain(Sort(res.deferredTests, TextLe), kind);
    NoRunsJoin(s, d);
    NoRunsJoin(f, s + d);
    NoRunsJoin(p, f + (s + d));
    PlainAppend(s, d, kind);
    PlainAppend(f, s + d, kind);
    PlainAppend(p, f + (s + d), kind);
  }

  lemma LinesAreBlocks(res: StepResult)
    requires Printable(res)
    ensures DropCRs(ResultLines(res)) == [DropCR(Header(res))] + Blocks(res)
  {
    hide Header, Rows, NoRuns, Sort, Plain, CleanItems, SingleLine, DropCR;
    var h := [Header(res)];
    var p, f := Rows(Pass, Sort(res.passTests, TextLe)), Rows(Fail, Sort(res.failTests, TextLe));
    var s := Rows(Skip, Sort(res.skipTests, TextLe));
    var d := Rows(Deferred, Sort(res.deferredTests, TextLe));
    BlockFacts(Pass, res.passTests, Pass);
    BlockFacts(Fail, res.failTests, Pass);
    BlockFacts(Skip, res.skipTests, Pass);
    assert ResultLines(res) == h + (p + (f + (s + d)));
    DropAppend(s, d);
    DropAppend(f, s + d);
    DropAppend(p, f + (s + d));
    DropAppend(h, p + (f + (s + d)));
    assert DropCRs(h) == [DropCR(Header(res))];
  }

  lemma HeaderPlain(h: string, kind: Kind)
    requires h != "" && h[0] == '<'
    ensures Plain([h], kind) == [] && RunTestName(h) == None
  {
    hide LineCase, RunTestName;
    HeaderCase(h);
    PlainOne(h, kind);
  }

  /** The lines of one result as the scanner yields them. */
  lemma ResultSections(res: StepResult, kind: Kind)
    requires Printable(res)
    ensures var lines := DropCRs(ResultLines(res));
      NoRuns(lines) && Plain(lines, kind) == Listed(res, kind)
  {
    hide Header, ResultLines, Blocks, Plain, PlainLine, DropCR, Listed, RunTestName;
    LinesAreBlocks(res);
    BlocksPlain(res, kind);
    HeaderSingle(res);
    var h := DropCR(Header(res));
    HeaderPlain(h, kind);
    NoRunsCons(h, Blocks(res));
    PlainAppend([h], Blocks(res), kind);
  }

  lemma ResultSingle(res: StepResult)
    requires Printable(res)
    ensures forall l <- ResultLines(res) :: SingleLine(l)
  {
    hide Header, Rows, Sort;
    SortKeeps(res.passTests);
    SortKeeps(res.failTests);
    SortKeeps(res.skipTests);
    SortKeeps(res.deferredTests);
    RowsSingle(Pass, Sort(res.passTests, TextLe));
    RowsSingle(Fail, Sort(res.failTests, TextLe));
    RowsSingle(Skip, Sort(res.skipTests, TextLe));
    RowsSingle(Deferred, Sort(res.deferredTests, TextLe));
    HeaderSingle(res);
  }

  /** Reading undoes printing: from the text printResult prints, the log reader records exactly the sorted
      pass, fail and skip lists, and no DEFERRED row lands in any list. */
  lemma ParsePrintedResult(res: StepResult)
    requires Printable(res)
    ensures var lines := ScanLines(Unlines(ResultLines(res)));
      && Recorded(lines, |lines|, Pass) == Sort(res.passTests, TextLe)
      && Recorded(lines, |lines|, Fail) == Sort(res.failTests, TextLe)
      && Recorded(lines, |lines|, Skip) == Sort(res.skipTests, TextLe)
      && Recorded(lines, |lines|, Deferred) == []
  {
    hide ResultLines, Unlines, ScanLines, DropCR, Recorded, Plain, Sort, NoRuns;
    ResultSingle(res);
    ReadLines(ResultLines(res));
    var lines := DropCRs(ResultLines(res));
    assert lines[..|lines|] == lines;
    forall kind: Kind
      ensures Recorded(lines, |lines|, kind) == Plain(lines, kind)
    {
      ResultSections(res, kind);
      RecordedPlain(lines, |lines|, kind);
    }
    ResultSections(res, Pass);
    ResultSections(res, Fail);
    ResultSections(res, Skip);
    ResultSections(res, Deferred);
  }
}
