# Verified models of the chain test harness

This project models the logic of the chain integration-test harness in Dafny and proves what that logic keeps.
The harness starts networks of nodes, runs groups of tests against them, writes reports, and recommends time
budgets from those reports. `dafny verify dfyconfig.toml` verifies the whole project.

There is one module for each component:

- **Durations, GoDurations, GoReadsBack** - durations as text. The recommender scans them with a regular expression and
  prints whole seconds; the runner uses Go's `time.ParseDuration` and `Duration.String`, stated here as a small
  specification over integer nanoseconds.
- **Budgets, Thresholds, Adoption** - `scripts/recommend_budgets.js`: quantiles, tiered rounding, threshold CSVs
  with their two readers (the other is in `ci.go`), the merge with the current thresholds, drift, and adoption.
- **TestLog, LogLines, Summary, Ranking, Report, ReportRoundTrip, ReportReadBack** - `ci.go`: the line-driven log
  reader, the lines of go test and of the printer that it must read, nested summaries, the slow-test ranking, the
  report read back cell by cell, and the recommender's reader of it.
- **GroupsMode** - the runner's groups mode: shared and isolated setups over a list of groups.
- **Waiters** - `internal/testkit/chain_window.go`: three polling waits. What the nodes answer and what the clock
  shows is an arbitrary finite sequence; a run that has not ended when the sequence does is pending.
- **Consensus** - `internal/testkit/consensus_liveness.go`: fork conflicts among head samples, the in-turn signer,
  the competing-block window, and the backwards log scan.
- **Forks** - `internal/testkit/fork_schedule.go` and `fork_surface.go`: which schedules are accepted, and which
  forks and blob schedule are then expected.
- **GenesisMerge** - `scripts/merge_alloc.js`: minimum balances merged into the genesis allocation.
- **Text, Numerals, Sorting** - trimming, splitting, joining, numerals and sorting as those components use them.

Code that works by loops or by changing state is a method, proved against a specification function or predicate;
the main results are lemmas about those specifications and hold for every input, run or sequence of observations.
Objects the source keeps and updates (the runner's results and flags in groups mode, the genesis allocation) are
classes.

## Where the code does less than one might expect

Each of these is a property that does not hold of the code as such. The condition under which it does is proved,
with an input that fails it where the condition is not self-evident.

- The report's step table has six columns (`ci.go:1177`) but its reader looks for a five-column header
  (`scripts/recommend_budgets.js:350`). So the recommender reads no group duration and no log path out of a
  report written today, only the slow table (`NoGroupsRead`).
- The runner does not read every CSV the recommender prints as the recommender does. It does so exactly when every
  printed duration fits Go's 63-bit nanoseconds and no key is surrounded by white space that only Go trims, U+0085
  (`GoReadsTheSame`). `LongBudgetRejected` is a budget it refuses, `NextLineKeyDiffers` a key it reads differently.
- A duration below a millisecond has a unit (µs, ns) the recommender does not know and reads as nothing; a
  negative one loses its sign (`ParsePrinted`, and for the slow table `SlowTableRoundTrip`).
- With a drift ratio of zero and a minimum of zero, an adopted threshold drifts from itself (`DriftAfterAdoption`,
  `DriftFromItself`).
- The success of the canonical-sync wait need not be backed by the blocks asked for, as the window's end wraps at 2^64:
  it is exactly when the poll that succeeds does not itself start a window that wraps
  (`FirstSuccessBackedExactlyWhen`, `WrapSucceedsAtOnce`). And the blocks need not give success, as the window counts
  from its start even when the target fell below it: before its deadline they make the wait succeed by their poll, however
  many are asked for, exactly when no two matched polls rise further than some poll so far has risen above its window's start -
  or so far that one block more would wrap (`PairForcesSuccessExactlyWhen`, `FallDelaysSuccess`).
- A timestamp of 2^63 or more turns negative in the activation test, so outside smoke mode every fork seems inactive
  (`ActiveExactlyWhen`) and the expected blob schedule, which otherwise only grows, lapses: exactly then
  (`BlobNeverFalls`, `BlobLapsesAtSignBit`).
- The competing-block window leaves the epoch near 2^64, exactly when neither four heights ahead nor any checkpoint
  ahead fits 64 bits (`WindowStaysInEpoch`, `WindowBehindTheChain`).
- A step whose log names summaries reports their cases in place of its own, and so fewer than its log records exactly
  when those that can be read hold fewer (`CasesLostExactlyWhen`, `UnreadableSummaryLosesCases`).
- An unreadable genesis balance counts as zero, and stays unreadable when the minimum asked for is zero
  (`MergeIsPointwiseMaximum`).

## Model

| member | source | states |
|---|---|---|
| Text.SplitListJoin | ci.go:420-430 | a list of trimmed, non-empty, comma-free items survives being joined by commas and read by `splitList` |
| Text.ReadLines | ci.go:775-777 | both programs' line readers give back the lines that were written, each without one trailing carriage return |
| Durations.ParseDurationMs | scripts/recommend_budgets.js:172-208 | the loop over successive matches computes the sum of all matches of the global scan, and nothing at all when there is none |
| Durations.MatchIsUnambiguous | scripts/recommend_budgets.js:177 | whenever digits, an optional dot, digits and a unit stand at a position, that is the match taken there: the expression's backtracking never matters |
| Durations.ParseFormatted | scripts/recommend_budgets.js:439-453 | for every number of milliseconds, parsing the printed duration gives the least whole second not below it, and zero if it is not positive |
| Durations.PrintedParts | scripts/recommend_budgets.js:439-453 | the printed form is hours, minutes and seconds with minutes and seconds below sixty, zero parts left out |
| GoDurations.ParseFormattedInGo | ci.go:471-485 | the runner reads a duration the recommender printed as the same number of seconds exactly when it fits 63-bit nanoseconds, and otherwise rejects it |
| GoDurations.ParsePrinted | scripts/recommend_budgets.js:172-208 | what the recommender reads of `Duration.String`, for every duration: the duration itself iff it is zero or at least a millisecond; its absolute value if it is at most minus a millisecond; else nothing |
| GoReadsBack.ParseUndoesString | ci.go:1014-1027 | `time.ParseDuration` gives back every 64-bit duration from what `Duration.String` prints, through all units and decimals |
| GoReadsBack.FlagReadsPrinted | ci.go:471-485 | a flag takes such a text exactly if the duration is not negative, and then as that duration |
| GoReadsBack.FlagWords | ci.go:471-476 | nothing, 0, off, none and disabled, in any case and with white space around, switch a threshold off |
| Budgets.QuantileMonotone | scripts/recommend_budgets.js:396-411 | samples replaced by slower ones, compared after any reordering, never lower the interpolated quantile |
| Budgets.QuantileCovers | scripts/recommend_budgets.js:396-411 | at least floor((n-1)q)+1 of the n samples are at most the quantile |
| Budgets.QuantileIsPiecewiseLinear | scripts/recommend_budgets.js:404-410 | at a position k + t, the quantile is 1 - t parts of the k-th order statistic and t parts of the next |
| Budgets.BudgetIsLeast | scripts/recommend_budgets.js:597-604 | the budget is the least allowed one not below the quantile times the headroom |
| Budgets.LeastGroupBudget | scripts/recommend_budgets.js:413-426 | rounding gives the least allowed group budget not below the value: multiples of 15 s from 30 s to 2 min, of 30 s to 10 min, of a minute beyond |
| Budgets.LeastSlowBudget | scripts/recommend_budgets.js:428-437 | the same for slow thresholds: multiples of 1 s from 5 s to 30 s, of 5 s to 2 min, of 10 s beyond |
| Budgets.GroupRounding | scripts/recommend_budgets.js:413-426 | group rounding over its tiers never lowers, keeps order, is idempotent, and yields whole seconds of at least 30 s |
| Budgets.SlowRounding | scripts/recommend_budgets.js:428-437 | slow rounding never lowers, keeps order, is idempotent, and yields positive whole seconds |
| Budgets.BudgetMonotone | scripts/recommend_budgets.js:597-604 | slower samples in any order never lower the rounded budget, through quantile, headroom and rounding |
| Budgets.BudgetCovers | scripts/recommend_budgets.js:597-604 | with headroom at least 1, at least floor((n-1)q)+1 of the n samples fit within the budget, whatever their sign |
| Budgets.RecommendGroups | scripts/recommend_budgets.js:594-627 | exactly the groups with samples get a budget, each the least allowed one not below the quantile times the headroom, and their counts; the suggested default, although rounded once more, equals the largest budget |
| Budgets.Largest | scripts/recommend_budgets.js:624-626 | the maximum of the budgets is attained by some group and bounds all of them |
| Thresholds.ParseThresholdCsv | scripts/recommend_budgets.js:210-237 | the loop over the items computes the fold of one-item reading, stopping with the exception of the first bad item |
| Thresholds.ParseGroupThresholds | ci.go:487-514 | the runner's reader of the same text: the fold of its own one-item reading, with its own errors |
| Thresholds.PrintedItems | scripts/recommend_budgets.js:681-685 | the CSV holds `name=duration` for every entry in the order given, and at the end the default exactly if it is positive |
| Thresholds.TakenItem | scripts/recommend_budgets.js:217-235 | an item is taken iff it has exactly one equals sign, a key that is not blank before it and a readable duration behind it; else the reader throws |
| Thresholds.GoTakenItem | ci.go:494-511 | an item is taken iff there is a key that is not blank before its first equals sign and a duration a flag takes behind it |
| Thresholds.ParsePrintedCsv | scripts/recommend_budgets.js:681-685 | reading a printed CSV gives every threshold in whole seconds, in whatever order the entries were printed |
| Thresholds.GoParsePrintedCsv | ci.go:487-514 | when Go trims no key further, the runner accepts a printed CSV exactly when every printed duration fits 63-bit nanoseconds, and then has the same thresholds |
| Thresholds.GoReadsTheSame | ci.go:487-514 | of every CSV the recommender can print, the runner reads the same thresholds iff every printed duration fits and Go trims no key further |
| Thresholds.NextLineKeyDiffers | ci.go:500-508 | a key the recommender reads and prints, U+0085, that the runner does not read the same |
| Thresholds.LookupsAgree | ci.go:1082-1089 | after a printed CSV that both programs read alike, the two lookups as functions give the same threshold for a text iff it is trimmed, or its trimmed form has no entry, or that entry equals the default |
| Ranking.StepLookupsAgree | ci.go:1091-1098 | for every name the runner looks up, those of group steps, the two lookups agree after any printed CSV that both programs read alike |
| Thresholds.UntrimmedNameDiffers | scripts/recommend_budgets.js:467-473 | a text, which neither program looks up, on which the two lookups as functions differ |
| Thresholds.LongBudgetRejected | ci.go:471-485 | a CSV the recommender prints and reads but the runner refuses |
| Adoption.MergeRecommendedGroups | scripts/recommend_budgets.js:494-547 | the two passes, in any order over the names: the default is the suggested one if positive, else the current one; a group has its recommendation if enough samples back it, else its current threshold, else the recommendation; any other is a known one with the default, if that is positive |
| Adoption.OrderedGroupEntries | scripts/recommend_budgets.js:455-465 | for every collation, lists each group once, known groups first in their order and the rest as they collate, those that collate alike in property order, and is the only such list |
| Adoption.OrderIgnoresProperties | scripts/recommend_budgets.js:455-465 | when no two names collate alike, the order of the properties does not matter |
| Adoption.DriftIsABand | scripts/recommend_budgets.js:475-485 | a positive suggestion drifts iff it lies outside a band around the positive current value, as wide as the larger of the minimum and the ratio's share of it |
| Adoption.CollectDriftAlerts | scripts/recommend_budgets.js:687-714 | the alerts, with both values and the percentage, are those of the drifting groups in some order of the entries, each once, and then the default's |
| Adoption.ReportNamesDrift | scripts/recommend_budgets.js:687-714 | the alerts name exactly the thresholds that drift, so there is none exactly when nothing drifts |
| Adoption.AlertValues | scripts/recommend_budgets.js:487-492 | every alert carries the current and the suggested threshold it is about, and the percentage that takes the one to the other |
| Adoption.ParsedIsReadable | scripts/recommend_budgets.js:210-237 | everything the CSV reader returns can be printed again: trimmed lower-case keys without separators, no threshold below zero |
| Adoption.RecommendedIsWellFormed | scripts/recommend_budgets.js:594-636 | what the recommendation loop hands to the merge satisfies the conditions under which adoption converges |
| Adoption.MergeAdopted | scripts/recommend_budgets.js:494-547 | merging the same recommendation with the adopted thresholds gives back the adopted groups, and the default when it is positive |
| Adoption.DriftAfterAdoption | scripts/recommend_budgets.js:475-485 | thresholds compared with themselves raise no alert iff the ratio or the minimum is positive, or no threshold is |
| Adoption.DriftFromItself | scripts/recommend_budgets.js:475-485 | with ratio and minimum zero, a threshold of a minute drifts from itself |
| Adoption.AdoptionConverges | scripts/recommend_budgets.js:494-547 | for every readable current CSV: the printed recommendation parses to itself in whole seconds, merging the same samples again leaves all group thresholds and the printed CSV's meaning unchanged, and no group or default drift alert is raised iff ratio or minimum is positive or nothing printed is |
| TestLog.ParseTestOutput | ci.go:760-831 | one pass keeping the latest test and the set of announced deferrals records exactly the outcome that each line has by the declarative definition |
| LogLines.ResultLine | ci.go:973-987 | a line `--- PASS: `, `--- FAIL: ` or `--- SKIP: ` behind dots and blanks, with a trimmed item, is a case of that kind with that item |
| LogLines.RunLine | ci.go:1002-1012 | a line that announces a test names it and records no case |
| LogLines.TimedItem | ci.go:1014-1027 | name (duration), with the duration as Go prints it, is read with that name and that duration, for every 64-bit duration |
| LogLines.ResultLog | ci.go:784-805 | a log of one timed result line holds that case in the list of its kind and in no other, and that timed case |
| LogLines.DeferredLog | ci.go:778-805 | the log of a test that is announced, says it is deferred and is skipped with a duration: the case is deferred, timed as DEFERRED, and in no other list |
| TestLog.OneListPerLine | ci.go:760-831 | every line adds to at most one of the four lists: their lengths sum to the number of recording lines |
| TestLog.DeferredAreTimed | ci.go:794-828 | the timed entries marked DEFERRED are exactly as many as the deferred cases, after any number of lines |
| TestLog.DeferredExactlyWhen | ci.go:781-828 | the deferred list holds exactly the skips with a readable duration whose test was the latest announced on some line, up to and including theirs, that says "Deferred:"; the skip list exactly the others |
| TestLog.PrintCaseList | ci.go:1277-1286 | prints one row for each item, the items sorted, under the displayed status |
| TestLog.PrintResult | ci.go:1269-1275 | prints the status line and the four case lists in their order |
| LogLines.PrintedRows | ci.go:1283-1301 | the rows to the letter: two blanks, the coloured circle and the word of the kind, the item |
| LogLines.PrintedResult | ci.go:1269-1275 | a line with name, status, duration to the second and log, then the sorted passed, failed, skipped and deferred cases, in that order |
| TestLog.ParsePrintedResult | ci.go:1269-1301 | the log reader, given what `printResult` prints, records exactly the sorted pass, fail and skip lists, and no deferred case |
| Summary.BuildRunSummary | ci.go:1333-1373 | every step is recorded with its name, status, log and four counts, each total is the number of cases of its kind over all results, and the number of failed steps is that of the steps that did not pass |
| Summary.AttributeImplicitFailures | ci.go:833-854 | blames for a failure nobody reported the run pattern, else the listed tests, else the fallback, and changes nothing otherwise |
| Summary.FailureIsNamed | ci.go:833-854 | a failed step with a name always ends with a recorded failure; reported failures are kept as they are, and blamed names are never empty |
| Summary.FallbackCaseBases | ci.go:953-971 | the names to pad with, never none: the pattern, the tests and the step's name, as far as they are not blank, or else "unknown" |
| Summary.PadCaseList | ci.go:940-951 | keeps the items and appends labels until the wanted count is reached, and nothing if it already is |
| Summary.FallbacksDistinct | ci.go:940-951 | the labels one padding call adds are pairwise distinct whatever the base names contain, and the count asked for is reached |
| Summary.CollectCasesFromSummary | ci.go:909-938 | the five collected lists are the concatenations over the steps of the padded cases of each step's log |
| Summary.CollectedLength | ci.go:909-951 | each list is as long as the sum over the steps of the larger of the recorded count and the entries found (after attribution), and what was found survives in order |
| Summary.FailedStepCounted | ci.go:925-928 | a failed step with a name adds a failure even when neither its log nor its recorded count has one |
| Summary.NoTotalFalls | ci.go:909-938 | the list collected from one summary is never shorter than the total recorded in it, whatever the logs say |
| Summary.ExtractSummaryPaths | ci.go:881-907 | lists the named summaries in the order of their first mention |
| Summary.SummaryLine | ci.go:892-899 | the line `Summary: ` with a trimmed path names that path |
| Summary.PathsOnce | ci.go:881-907 | every summary named by a line is listed, nothing else is, and none twice |
| Summary.CollectNestedSummaryCases | ci.go:856-879 | the lists of the summaries one after the other, those that cannot be read skipped |
| Summary.CollectStepCases | ci.go:715-719 | a step reports the cases of the summaries its log names, in place of the log's own, else the log's own; a failed one without failures is blamed itself |
| Summary.NestedLength | ci.go:856-879 | the collected lists are exactly as long as the sums over the readable summaries of the larger of recorded and found; unreadable ones add nothing |
| Summary.CasesLostExactlyWhen | ci.go:715-719 | a step reports fewer cases than its log records iff the log names summaries and the readable ones hold fewer, apart from one failure it is then blamed for itself |
| Summary.UnreadableSummaryLosesCases | ci.go:715-719 | a log with a passed case that names an unreadable summary: the case is not reported |
| Summary.StepKeepsTotals | ci.go:715-719 | what a step reports is never less than the totals of the summaries it could read |
| Ranking.CollectSlowCases | ci.go:1041-1056 | returns a rearrangement of all timed cases, longest first, then by step, then by name |
| Ranking.CollectSlowCaseAlerts | ci.go:1058-1069 | returns the cases at or above a positive threshold in their order, none for a threshold of zero |
| Ranking.AlertsArePrefix | ci.go:1058-1069 | the alerts are exactly a prefix of the ranking: all in it reach the threshold and none behind it does |
| Ranking.CollectGroupDurations | ci.go:1091-1115 | returns a rearrangement of all group steps with thresholds and verdicts, ordered by duration descending and group |
| Report.WriteReport | ci.go:1117-1267 | writes exactly the lines of the report, for rankings of these results, and counts the exceeded groups and slow alerts |
| Report.WriteGroups | ci.go:1149-1175 | writes the group profile, if there is any group, and counts the exceeded ones |
| Report.WriteSteps | ci.go:1177-1196 | writes the six-column step table |
| Report.RankRows | ci.go:1207-1216 | numbers the rows from 1 |
| Report.WriteSlow | ci.go:1198-1239 | writes the first SlowTop cases and, for a positive threshold, the alerts with their count |
| Report.WriteDetails | ci.go:1241-1261 | writes the details of every step |
| ReportReadBack.ProfileReadsBack | ci.go:1149-1175 | cutting the profile's rows at the bars gives, for each group in order, the group, the step, the duration to the second, the threshold or a dash, and EXCEEDED iff there is a threshold and the duration reaches it; as many rows read EXCEEDED as groups reach their threshold |
| ReportReadBack.RankedGroupIsTrue | ci.go:1091-1107 | every ranked group is a group step of the run with its duration, against the threshold looked up for it |
| ReportReadBack.ReportCountsAlerts | ci.go:1149-1175 | the alerts a report counts are the groups that reach their threshold |
| ReportReadBack.StepRowReadsBack | ci.go:1179-1196 | cutting a step row gives the step, its status, the duration to the second, the numbers of skipped and deferred tests, a dash for none, and the log |
| ReportReadBack.RankedRowReadsBack | ci.go:1207-1216 | cutting a row of the ranked tables gives rank, case, exact duration, status and step |
| ReportReadBack.ShownStatus | ci.go:1288-1301 | PASS, FAIL, SKIP and DEFERRED, in any case and with white space around, are shown with their circle, any other status as it is |
| ReportReadBack.TopIs | ci.go:1118-1120 | the slow table shows the first SlowTop cases, twenty if none is asked for |
| ReportReadBack.TotalsShown | ci.go:1142-1147 | the head of the report counts the cases of each kind over all steps |
| ReportReadBack.RoundsToNearest | ci.go:1191 | a duration is shown to the nearest second, halves away from zero |
| Report.ExtractRowsAfterHeader | scripts/recommend_budgets.js:269-286 | the rows from two lines below the first header line to the first line without a bar, rules skipped |
| Report.CollectStepRows | scripts/recommend_budgets.js:353-379 | the group durations and log paths of the step rows, in order |
| ReportReadBack.FiveColumnRow | scripts/recommend_budgets.js:351-373 | of a five-column step row of a group the reader takes the lower-case group, the duration in milliseconds, and the log if there is one |
| ReportReadBack.TestLetter | scripts/recommend_budgets.js:288-323 | a step of a single test counts for the group of the test's letter, and for none with any other letter |
| Report.ParseReport | scripts/recommend_budgets.js:343-394 | the three results of the reader as functions of the text |
| ReportRoundTrip.NoGroupsRead | scripts/recommend_budgets.js:350-379 | of any report the runner writes the recommender reads no group duration and no log path |
| ReportRoundTrip.ParseWrittenReport | scripts/recommend_budgets.js:381-391 | of any report the runner writes, with bar-free names in the top rows, the recommender reads exactly the readable durations of the top min(SlowTop, n) cases in order |
| ReportRoundTrip.SlowTableRoundTrip | ci.go:1198-1217 | the top durations come back exactly and in order iff each is zero or at least a millisecond |
| ReportRoundTrip.SameRowInBothTables | ci.go:1198-1239 | a case in both the slow table and the alert table has the same rank and the same row in each |
| GroupsMode.Runner.constructor | ci.go:216-218 | starts without results, without failure and with no shared setup up |
| GroupsMode.Runner.RunStep | ci.go:226-233 | appends the step's result, and a failure is recorded iff some result is not PASS |
| GroupsMode.Runner.SetupShared | ci.go:220-241 | does nothing when the setup is up; else runs clean, init and run up to the first failure and is up iff all three passed |
| GroupsMode.Runner.TeardownShared | ci.go:243-253 | stops the shared setup exactly when it is up, and it is down afterwards whatever the outcome |
| GroupsMode.Runner.RunGroup | ci.go:255-284 | one round runs the planned steps of the group up to a failure, leaving at most the stop to the end |
| GroupsMode.Runner.Finish | ci.go:285-295 | stops a setup that is up, and runs ci-log only if asked for and nothing failed |
| GroupsMode.Runner.RunGroups | ci.go:216-295 | the results of the mode, whatever the outcomes, are the play of a plan fixed by the list and the options: run to the first failure and then stopped; a group skips its setup iff shared setups are on, its lower-case name is not punish, and the shared list holds that name |
| GroupsMode.BuildGroupSet | ci.go:436-445 | the set of the list's names in lower case |
| GroupsMode.SharesExactlyWhen | ci.go:447-460 | a group shares iff shared setups are on, its trimmed lower-case name is not punish, and some item of the shared list has it |
| GroupsMode.PlanIsLegal | ci.go:255-284 | the plan obeys the setup protocol from either state of the setup |
| GroupsMode.PlanWants | ci.go:255-284 | the plan holds every non-empty name of the list, in order, sharing exactly where it may |
| GroupsMode.PlayIsDisciplined | ci.go:216-295 | playing any plan that obeys the protocol obeys it under every pattern of outcomes, and ends with no setup up |
| GroupsMode.SetupsAreStopped | ci.go:220-253 | in any disciplined run, setups that came up and stops differ by whether one is up before and after |
| GroupsMode.PlayRanPrefix | ci.go:255-284 | the groups run are a prefix of those planned, and all of them when everything passed |
| GroupsMode.AtMostOneStopFollows | ci.go:285-287 | nothing follows a failed step but at most one stop, and that only behind a failed group |
| GroupsMode.CiLogRunsLast | ci.go:288-295 | ci-log runs at the very end or not at all: only if asked for and behind steps that all passed, and then always |
| GroupsMode.GroupsModeDiscipline | ci.go:216-295 | for every list, options and outcomes: sharing groups run only while a setup is up and others only while none is, every setup that came up is stopped exactly once, the groups run are a prefix of the list, and at most one stop follows the first failure |
| Waiters.Compare | internal/testkit/chain_window.go:119-143 | a round matches iff some reference has the target's height and hash, and otherwise resets the window iff some reference is higher |
| Waiters.WaitForCanonicalSync | internal/testkit/chain_window.go:102-146 | succeeds at the first poll that meets the success predicate, if the deadline has not passed by then, and times out only past the deadline |
| Waiters.SuccessHasStablePair | internal/testkit/chain_window.go:113-146 | where no window start up to poll j wraps, a success at j has a matched poll i at or before it, at least the stable blocks lower, j matched, and no resetting poll between |
| Waiters.FirstSuccessBackedExactlyWhen | internal/testkit/chain_window.go:133-140 | the first success, at which the wait returns, has such a pair iff its poll does not start a window within the stable blocks of 2^64 |
| Waiters.BackedExactlyWhen | internal/testkit/chain_window.go:133-140 | over all polls made, every poll that passes the test has such a pair iff no window start is within the stable blocks of 2^64 |
| Waiters.PairForcesSuccessExactlyWhen | internal/testkit/chain_window.go:113-146 | in a run, every such pair for any number of blocks makes the wait succeed by its poll iff no two matched polls without a reset between rise further than some poll so far has risen above its window's start, or so far that one block more wraps |
| Waiters.PairSucceedsExactlyWhen | internal/testkit/chain_window.go:133-143 | in a run, every such pair for any number of blocks passes the test at its own poll iff no matched poll below its window's start is followed in the window by a higher one, neither the start nor the later poll being at height 2^64-1 |
| Waiters.SuccessExactlyWhen | internal/testkit/chain_window.go:113-146 | where no window start wraps and no poll rises below its window's start, poll j passes the test iff there is such a pair |
| Waiters.NeverFallingIsEnough | internal/testkit/chain_window.go:113-146 | no poll rises below its window's start whenever the matched heights never fall |
| Waiters.FallDelaysSuccess | internal/testkit/chain_window.go:133-140 | a pair after a fall of the target that does not succeed |
| Waiters.WrapSucceedsAtOnce | internal/testkit/chain_window.go:138 | at height 2^64-1 the first matched poll succeeds without any pair |
| Waiters.ObservedMax | internal/testkit/chain_window.go:264-269 | the largest height among the samples without error, attained unless zero |
| Waiters.WaitUntilHeightOrStall | internal/testkit/chain_window.go:311-385 | the first look decides, or else the first round that runs out of time, reaches the target or finds a stall, in that order; a returned height is at least the target |
| Waiters.RoundMeans | internal/testkit/chain_window.go:318-351 | the loop is open for the given limit, two minutes if none, and a round reaches the target iff a sample without error does |
| Waiters.StallsExactlyWhen | internal/testkit/chain_window.go:353-371 | a round stalls iff the start, or the last round that raised the maximum, is at least the stall timeout ago, fifteen seconds if none is given |
| Waiters.NoProgressSinceMark | internal/testkit/chain_window.go:353-356 | the mark is the time of the last new maximum, and no observation since exceeds it |
| Waiters.StallIsFaithful | internal/testkit/chain_window.go:361-371 | at a stall every observation is at most the running maximum, which is below the target and unchanged since a mark at least the stall timeout old |
| Waiters.WaitIsBounded | internal/testkit/chain_window.go:348-374 | with a clock advancing at least one poll interval a round, at most overallTimeout / poll + 1 rounds are gone through |
| Waiters.WaitForJailTransitionOrStall | internal/testkit/chain_window.go:387-473 | the first poll that does not continue decides: timeout, jailed and reset at one height, deadline passed or stall, in that order; a returned height is not below the start |
| Waiters.PollMeans | internal/testkit/chain_window.go:396-446 | when a poll is a success, a missed deadline or too late, in terms of what it read |
| Waiters.JailStallsExactlyWhen | internal/testkit/chain_window.go:402-458 | the jail wait stalls iff the start, or the last poll that raised the maximum, is at least the stall timeout ago, fifteen seconds if none is given |
| Waiters.WindowTimeout | internal/testkit/chain_window.go:22-27 | without overflow a window of blocks is given six seconds a block and two minutes |
| Waiters.EarlierPolls | internal/testkit/chain_window.go:419-461 | every readable poll at or above the start before the last was below the deadline and not jailed and reset |
| Waiters.AtMostOneDeadlinePoll | internal/testkit/chain_window.go:419-461 | no run goes through two polls at or past the deadline: the first of them ends it |
| Waiters.JailStallIsFaithful | internal/testkit/chain_window.go:448-458 | at a stall no height read since the mark exceeds the running maximum and the mark is at least the stall timeout old |
| Consensus.FillBuckets | internal/testkit/consensus_liveness.go:147-163 | there is a bucket for exactly the non-zero heights of error-free samples, with exactly their hashes, and their labels in order |
| Consensus.SortedHashes | internal/testkit/consensus_liveness.go:174-179 | the distinct hashes of a set, each once, ordered by their lower-case text |
| Consensus.SameHeightHashConflicts | internal/testkit/consensus_liveness.go:141-187 | a height is reported iff two error-free samples at it, non-zero, disagree; with exactly its distinct hashes sorted, and its labels sorted; heights strictly increase |
| Consensus.ReportMeans | internal/testkit/consensus_liveness.go:141-187 | in terms of the samples alone: which heights are reported, that the hashes are those seen and the participants the names, or else the URLs, of the samples at the height, all sorted |
| Consensus.ConflictsIgnoreOrder | internal/testkit/consensus_liveness.go:141-187 | permuting the samples does not change the report |
| Consensus.OneTurnEach | internal/testkit/consensus_liveness.go:211-216 | each of n distinct signers has exactly one turn in any n consecutive heights, at the height whose remainder by n is its index, as EIP-225, Specification, has it |
| Consensus.WindowStaysInEpoch | internal/testkit/consensus_liveness.go:218-226 | the chosen height is not below the current one, lies in its epoch and is no checkpoint (for epochs longer than a block) iff four heights ahead or some checkpoint ahead fits 64 bits; it is then the height before a checkpoint at most six ahead, and else four ahead |
| Consensus.ContainsAll | internal/testkit/consensus_liveness.go:304-310 | true iff every pattern occurs, case-insensitively |
| Consensus.ScanBackwards | internal/testkit/consensus_liveness.go:297-318 | collects the last maxLines matches, latest first |
| Consensus.Reverse | internal/testkit/consensus_liveness.go:319-321 | the two-pointer loop mirrors the list |
| Consensus.TailMatchingLogLines | internal/testkit/consensus_liveness.go:288-323 | returns exactly the last min(maxLines, n) of the n matching lines in their original order, and none when unreadable or nothing is asked for |
| Consensus.MatchesAreLines | internal/testkit/consensus_liveness.go:299-314 | a text is a match iff it is a trimmed, non-empty line of the log holding all patterns |
| Consensus.WindowBehindTheChain | internal/testkit/consensus_liveness.go:218-226 | at height 2^64-1 the chosen height is 3 |
| Forks.UpgradeForkSchedulePhases | internal/testkit/fork_schedule.go:15-36 | the enabled forks in the order of the ladder |
| Forks.CheckPrefix | internal/testkit/fork_schedule.go:51-71 | the loop with its two flags accepts iff the enabled ones among the first six forks are contiguous |
| Forks.ValidateUpgradeForkSchedule | internal/testkit/fork_schedule.go:38-73 | in upgrade mode: accepted iff some fork is enabled, all enabled ones are pairwise nondecreasing, and those among the first six are contiguous; the error names the first of these that fails |
| Forks.ScheduleFields | internal/testkit/fork_schedule.go:19-71 | the three conditions in terms of the schedule's own eight times in the order of the ladder |
| Forks.ActiveExactlyWhen | internal/testkit/fork_surface.go:216-261 | outside smoke mode a fork is active iff it is enabled and its time has come, and the timestamp is below 2^63 |
| Forks.ScheduledBlob | internal/testkit/fork_surface.go:100-123 | outside smoke mode the latest begun fork decides target, maximum and fraction, Osaka sharing Prague's |
| Forks.SmokeBlob | internal/testkit/fork_surface.go:221-239 | in smoke mode the latest fork that the target names decides, at every time |
| Forks.AcceptedMeansLadder | internal/testkit/fork_schedule.go:38-73 | on an accepted upgrade schedule, at every timestamp, an active fork has every enabled earlier fork active, and every earlier one of the first six behind an enabled fork |
| Forks.OrderingIsNeeded | internal/testkit/fork_schedule.go:46-50 | the ordering from Cancun on holds iff at every timestamp each active fork has all enabled earlier ones active |
| Forks.BlobNeverFalls | internal/testkit/fork_surface.go:100-123 | for every schedule, an expectation once there stays and its blob target, maximum and fraction do not fall as time grows to u, iff in smoke mode or u is below 2^63 |
| Forks.BlobLapsesAtSignBit | internal/testkit/fork_surface.go:260 | at 2^63 it does lapse |
| GenesisMerge.QuantityRoundTrip | scripts/merge_alloc.js:58-60 | the hexadecimal quantity of an integer reads back as that integer |
| GenesisMerge.DecimalBalances | scripts/merge_alloc.js:70-76 | balances in decimals, with or without sign, read as their number, nothing as zero, truth values as 1 and 0, and null not at all |
| GenesisMerge.TakenAddress | scripts/merge_alloc.js:47-56 | an address is taken iff, trimmed, it is 0x and forty hexadecimal digits; its letters keep their case |
| GenesisMerge.Merger.constructor | scripts/merge_alloc.js:90-91 | starts from a copy of the system contracts |
| GenesisMerge.Merger.EnsureBalance | scripts/merge_alloc.js:62-87 | the whole new allocation after one request: untouched for an invalid address or a sufficient balance, else that one balance raised |
| GenesisMerge.Merger.EnsureAll | scripts/merge_alloc.js:105-109 | one address list is the fold of its requests |
| GenesisMerge.Merger.MergeAll | scripts/merge_alloc.js:104-109 | the main block is the fold of the funder's request and the five lists' |
| GenesisMerge.RequestsInFull | scripts/merge_alloc.js:104-109 | who is asked for how much: the funder, both validator lists, both signer lists and the fee addresses, each for its balance, and nobody else |
| GenesisMerge.FoldAt | scripts/merge_alloc.js:62-109 | key by key, all folds together are one request for the largest minimum asked for that key, or none |
| GenesisMerge.MergeIsPointwiseMaximum | scripts/merge_alloc.js:62-109 | a requested key ends with the larger of its initial balance and every minimum requested for it; other fields and other keys are unchanged |
| GenesisMerge.MergeIgnoresOrder | scripts/merge_alloc.js:104-109 | any order and any repetition of the requests gives the same allocation, to the letter |
| GenesisMerge.MergeIsIdempotent | scripts/merge_alloc.js:62-109 | merging again changes nothing |

## Left out

- The bindings under `contracts/`: generated calls around opaque bytecode.
- Running processes, the run lock, walking directories, log files, YAML and JSON files and version probes: their outcomes are parameters (`outcome` in GroupsMode, the text or lines of a file elsewhere).
- Dialling nodes and reading headers, balances and contracts: their answers are arbitrary observation sequences, and the clock is part of them.
- The modes of the runner other than groups mode, and its manifest. Of `runStep` the collection of cases is modelled, where the log and the summaries it names are given, as far as they can be read.
- Arguments, output formats and the slow-threshold drift of the recommender, and its reading of durations out of log files: only easy members.
- `ObserveHeights` apart from its maximum: which nodes are asked and the display order of their samples decide no wait.
- `VerifyOsakaTxGasCap`, the key commands and the field checks of `VerifyForkRPCSurface`: network and cryptography; of the latter the fork selection is modelled.
- `native/ecosystem.config.js`, `scripts/build_alloc.js`, `scripts/add_blacklist_alloc.js`, `scripts/check_bytecode_consistency.js`: configuration assembly.
- JavaScript numbers are reals (integers where the source uses BigInt): rounding, infinities and exponent notation are not modelled, nor are property names an object inherits.
- Text is a sequence of code points: case folding is ASCII only, `localeCompare` is any total preorder, and Go's byte offsets and its scanner's limit on the length of a line are not modelled.
- Go scales the decimals of a parsed duration in floating point; here the product is exact and then truncated.
- `sort.Slice` leaves ties open, so the rankings are any ordered rearrangement, and results about reports hold for every choice; the other sorts are total orders, hence have one result.
- The string builder of the report and the printed output are lists of lines joined at the end, and slices reversed or sorted in place are values: update in place and aliasing of these buffers are not captured.
- JSON arrays and objects as addresses or balances, and allocation entries that are not objects, do not occur in the merge's inputs; reading address lists and balances from the environment is not modelled.
- Budgets.RecommendGroups: the maximum and quantile columns of the human output are not part of the result.
- Forks.OrderingIsNeeded: says nothing about Shanghai, which the activation test does not know, although the validator orders it too.
- TestLog.ParsePrintedResult: the items must be trimmed, non-empty and single lines, which is what the log reader itself records; timed entries do not appear in what is printed with a step.
