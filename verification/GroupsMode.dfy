/** Groups mode of the runner (ci.go): groups that share one setup, groups that bring their own,
    and what happens when a step fails. */
module GroupsMode {
  import opened Text

  /** The make steps of groups mode; skipSetup is the SKIP_SETUP=1 environment. */
  datatype Step = Clean | Init | Start | Stop | Group(name: string, skipSetup: bool) | CiLog

  datatype Result = Result(step: Step, passed: bool)

  // ---------- which groups share ----------

  /** The names of a list, in lower case. */
  function GroupSet(raw: string): set<string> {
    set g | g in SplitList(raw, GoSpace) :: Lower(g)
  }

  /** What splitList gives is trimmed and not empty already. */
  lemma ListedName(raw: string, g: string)
    requires g in SplitList(raw, GoSpace)
    ensures Trim(g, GoSpace) == g && Lower(g) != ""
  {
    hide Trim;
    PiecesFacts(Split(raw, ','), GoSpace);
    LowerAt(g);
    TrimTrimmed(g, GoSpace);
  }

  /** buildGroupSet. */
  method BuildGroupSet(raw: string) returns (out: set<string>)
    ensures out == GroupSet(raw)
  {
    hide SplitList, Lower, Trim;
    out := {};
    var list := SplitList(raw, GoSpace);
    for i := 0 to |list|
      invariant out == set g | g in list[..i] :: Lower(g)
    {
      assert list[..i + 1] == list[..i] + [list[i]];
      ListedName(raw, list[i]);
      var key := Lower(Trim(list[i], GoSpace));
      if key != "" {
        out := out + {key};
      }
    }
    assert list[..|list|] == list;
  }

  /** isSharedSetupEligibleGroup: punish always runs on its own. */
  predicate Eligible(group: string, allow: set<string>) {
    var key := Lower(Trim(group, GoSpace));
    allow != {} && key != "" && key != "punish" && key in allow
  }

  /** The flags of the run; sharedGroups is the list as given. */
  datatype Options = Options(sharedSetup: bool, sharedGroups: string, runCiLog: bool)

  predicate Shares(group: string, o: Options) {
    o.sharedSetup && Eligible(group, GroupSet(o.sharedGroups))
  }

  // ---------- the plan, and playing it ----------

  const SETUP: seq<Step> := [Clean, Init, Start]

  /** The steps of one group when a shared setup is up or not. */
  function GroupSteps(group: string, up: bool, o: Options): seq<Step> {
    if Shares(group, o) then (if up then [] else SETUP) + [Group(group, true)]
    else (if up then [Stop] else []) + [Group(group, false)]
  }

  /** The steps behind the loop. */
  function ClosingSteps(up: bool, o: Options): seq<Step> {
    (if up then [Stop] else []) + (if o.runCiLog then [CiLog] else [])
  }

  lemma ClosingShape(up: bool, o: Options)
    ensures var plan := ClosingSteps(up, o);
      && (up ==> plan != [] && plan[0] == Stop && plan[1..] == ClosingSteps(false, o))
      && (!up && o.runCiLog ==> plan == [CiLog] && plan[1..] == [])
      && (!up && !o.runCiLog ==> plan == [])
  {
  }

  /** What runs when every step passes: setups start lazily, before the first group that shares,
      and stop before the next group that does not, or at the end. */
  function Plan(groups: seq<string>, up: bool, o: Options): seq<Step> {
    if groups == [] then ClosingSteps(up, o)
    else if groups[0] == "" then Plan(groups[1..], up, o)
    else GroupSteps(groups[0], up, o) + Plan(groups[1..], Shares(groups[0], o), o)
  }

  /** Playing a plan against the outcomes of its steps: it ends at the first failure, except that a failed
      group on a shared setup is followed by stopping that setup. */
  function Play(plan: seq<Step>, k: nat, outcome: nat -> bool): (results: seq<Result>)
    decreases |plan|
  {
    if plan == [] then []
    else
      var r := Result(plan[0], outcome(k));
      if r.passed then [r] + Play(plan[1..], k + 1, outcome)
      else if r.step.Group? && r.step.skipSetup then [r, Result(Stop, outcome(k + 1))]
      else [r]
  }

  /** The next n steps from the k-th on all pass. */
  predicate AllPass(k: nat, n: nat, outcome: nat -> bool) {
    forall i :: k <= i < k + n ==> outcome(i)
  }

  lemma PlayUnfold(plan: seq<Step>, k: nat, outcome: nat -> bool)
    ensures plan == [] ==> Play(plan, k, outcome) == []
    ensures plan != [] && outcome(k) ==>
      Play(plan, k, outcome) == [Result(plan[0], true)] + Play(plan[1..], k + 1, outcome)
    ensures plan != [] && !outcome(k) ==>
      Play(plan, k, outcome) == [Result(plan[0], false)]
        + if plan[0].Group? && plan[0].skipSetup then [Result(Stop, outcome(k + 1))] else []
  {
  }

  /** Playing a plan in two parts: the second is reached exactly when the first passes throughout. */
  lemma {:induction false} PlayInParts(a: seq<Step>, b: seq<Step>, k: nat, outcome: nat -> bool)
    ensures AllPass(k, |a|, outcome) ==>
      |Play(a, k, outcome)| == |a| && Play(a + b, k, outcome) == Play(a, k, outcome) + Play(b, k + |a|, outcome)
    ensures !AllPass(k, |a|, outcome) ==> Play(a + b, k, outcome) == Play(a, k, outcome)
    decreases |a|
  {
    hide Play;
    PlayUnfold(a, k, outcome);
    if a == [] {
      assert a + b == b;
    } else {
      PlayInParts(a[1..], b, k + 1, outcome);
      PlayUnfold(a + b, k, outcome);
      assert (a + b)[0] == a[0] && (a + b)[1..] == a[1..] + b;
      assert AllPass(k, |a|, outcome) <==> outcome(k) && AllPass(k + 1, |a| - 1, outcome);
    }
  }

  lemma PlayClosing(up: bool, o: Options, k: nat, outcome: nat -> bool)
    ensures Play(ClosingSteps(up, o), k, outcome)
         == if up then
              [Result(Stop, outcome(k))] + (if outcome(k) then Play(ClosingSteps(false, o), k + 1, outcome) else [])
            else if o.runCiLog then [Result(CiLog, outcome(k))] else []
  {
    ClosingShape(up, o);
  }

  lemma PlayGroup(groups: seq<string>, i: nat, up: bool, o: Options, k: nat, outcome: nat -> bool)
    requires i < |groups|
    ensures var whole, steps := Play(Plan(groups[i..], up, o), k, outcome), GroupSteps(groups[i], up, o);
      whole == if groups[i] == "" then Play(Plan(groups[i + 1..], up, o), k, outcome)
               else Play(steps, k, outcome)
                    + if AllPass(k, |steps|, outcome)
                      then Play(Plan(groups[i + 1..], Shares(groups[i], o), o), k + |steps|, outcome) else []
  {
    hide Shares, GroupSteps, Play;
    assert groups[i..][0] == groups[i] && groups[i..][1..] == groups[i + 1..];
    var steps := GroupSteps(groups[i], up, o);
    PlayInParts(steps, Plan(groups[i + 1..], Shares(groups[i], o), o), k, outcome);
    assert Play(steps, k, outcome) + [] == Play(steps, k, outcome);
  }

  predicate AllPassed(results: seq<Result>) {
    forall r <- results :: r.passed
  }

  lemma NothingFailed()
    ensures AllPassed([])
  {
  }

  /** The names of the groups that ran, with how they ran. */
  function Ran(results: seq<Result>): seq<Step> {
    if results == [] then []
    else (if results[0].step.Group? then [results[0].step] else []) + Ran(results[1..])
  }

  function GroupsOf(plan: seq<Step>): seq<Step> {
    if plan == [] then [] else (if plan[0].Group? then [plan[0]] else []) + GroupsOf(plan[1..])
  }

  /** Every non-empty name of the list, in order, with SKIP_SETUP exactly for the groups that share. */
  function Wanted(groups: seq<string>, o: Options): seq<Step> {
    if groups == [] then []
    else (if groups[0] == "" then [] else [Group(groups[0], Shares(groups[0], o))]) + Wanted(groups[1..], o)
  }

  lemma {:induction false} GroupsOfAppend(a: seq<Step>, b: seq<Step>)
    ensures GroupsOf(a + b) == GroupsOf(a) + GroupsOf(b)
  {
    if a == [] {
      assert a + b == b;
    } else {
      GroupsOfAppend(a[1..], b);
      assert (a + b)[0] == a[0] && (a + b)[1..] == a[1..] + b;
    }
  }

  lemma OneGroup(group: string, up: bool, o: Options)
    ensures GroupsOf(GroupSteps(group, up, o)) == [Group(group, Shares(group, o))]
  {
    hide Shares;
    var g := Group(group, Shares(group, o));
    assert GroupsOf([g]) == [g] by {
      assert [g][1..] == [];
    }
    assert GroupsOf([Stop]) == [] by {
      assert [Stop][1..] == [];
    }
    assert GroupsOf(SETUP) == [] by {
      assert SETUP[1..] == [Init, Start] && [Init, Start][1..] == [Start] && [Start][1..] == [];
    }
    GroupsOfAppend(SETUP, [g]);
    GroupsOfAppend([Stop], [g]);
    assert [] + [g] == [g];
  }

  lemma {:induction false} PlanWants(groups: seq<string>, up: bool, o: Options)
    ensures GroupsOf(Plan(groups, up, o)) == Wanted(groups, o)
  {
    hide Shares;
    if groups == [] {
      ClosingShape(up, o);
      ClosingShape(false, o);
      assert GroupsOf(ClosingSteps(false, o)) == [];
    } else if groups[0] == "" {
      PlanWants(groups[1..], up, o);
    } else {
      var steps := GroupSteps(groups[0], up, o);
      PlanWants(groups[1..], Shares(groups[0], o), o);
      GroupsOfAppend(steps, Plan(groups[1..], Shares(groups[0], o), o));
      OneGroup(groups[0], up, o);
    }
  }

  lemma RanOne(r: Result)
    ensures Ran([r]) == if r.step.Group? then [r.step] else []
  {
    assert [r][1..] == [];
  }

  /** What ran is a prefix of what the plan holds: all of it when everything passed. */
  lemma {:induction false} PlayRanPrefix(plan: seq<Step>, k: nat, outcome: nat -> bool)
    ensures Ran(Play(plan, k, outcome)) <= GroupsOf(plan)
    ensures AllPassed(Play(plan, k, outcome)) ==> Ran(Play(plan, k, outcome)) == GroupsOf(plan)
    decreases |plan|
  {
    if plan == [] {
    } else {
      var r := Result(plan[0], outcome(k));
      if r.passed {
        var rest := Play(plan[1..], k + 1, outcome);
        PlayRanPrefix(plan[1..], k + 1, outcome);
        assert ([r] + rest)[1..] == rest;
        assert forall x <- rest :: x in [r] + rest;
      } else if r.step.Group? && r.step.skipSetup {
        var stop := Result(Stop, outcome(k + 1));
        assert [r, stop][1..] == [stop] && [stop][1..] == [];
        RanOne(stop);
        assert Ran([r, stop]) == [r.step] + Ran([stop]);
        assert r in [r, stop];
      } else {
        assert [r][1..] == [];
        assert r in [r];
      }
    }
  }

  lemma {:induction false} GroupsAreRan(results: seq<Result>, r: Result)
    requires r in results && r.step.Group?
    ensures r.step in Ran(results)
  {
    if results[0] == r {
    } else {
      assert r in results[1..];
      GroupsAreRan(results[1..], r);
    }
  }

  lemma {:induction false} WantedFrom(groups: seq<string>, o: Options, step: Step)
    requires step in Wanted(groups, o)
    ensures step.Group? && step.name in groups && step.name != "" && step.skipSetup == Shares(step.name, o)
  {
    hide Shares;
    if groups[0] != "" && step == Group(groups[0], Shares(groups[0], o)) {
    } else {
      WantedFrom(groups[1..], o, step);
    }
  }

  /** Who shares: with shared setups on, a group other than punish whose name, in lower case, is listed. */
  lemma SharesExactlyWhen(group: string, o: Options)
    ensures var key := Lower(Trim(group, GoSpace));
      Shares(group, o) <==>
        o.sharedSetup && key != "punish"
        && exists item :: item in SplitList(o.sharedGroups, GoSpace) && Lower(item) == key
  {
    hide Lower, Trim, SplitList;
    var key := Lower(Trim(group, GoSpace));
    forall item | item in SplitList(o.sharedGroups, GoSpace) && Lower(item) == key
      ensures key != "" && key in GroupSet(o.sharedGroups)
    {
      ListedName(o.sharedGroups, item);
    }
  }

  lemma SharingRule(groupList: seq<string>, o: Options, outcome: nat -> bool)
    ensures forall r <- Play(Plan(groupList, false, o), 0, outcome) :: r.step.Group? ==>
      && r.step.name in groupList && r.step.name != ""
      && var key := Lower(Trim(r.step.name, GoSpace));
      (r.step.skipSetup <==>
         o.sharedSetup && key != "punish"
         && exists item :: item in SplitList(o.sharedGroups, GoSpace) && Lower(item) == key)
  {
    hide Plan, Play, Ran, GroupsOf, Wanted, Shares, Lower, Trim, SplitList;
    var results := Play(Plan(groupList, false, o), 0, outcome);
    PlanWants(groupList, false, o);
    PlayRanPrefix(Plan(groupList, false, o), 0, outcome);
    forall r | r in results && r.step.Group?
      ensures r.step.name in groupList && r.step.name != "" && r.step.skipSetup == Shares(r.step.name, o)
    {
      GroupsAreRan(results, r);
      assert r.step in Wanted(groupList, o);
      WantedFrom(groupList, o, r.step);
      SharesExactlyWhen(r.step.name, o);
    }
    forall r | r in results && r.step.Group?
      ensures var key := Lower(Trim(r.step.name, GoSpace));
        (r.step.skipSetup <==>
           o.sharedSetup && key != "punish"
           && exists item :: item in SplitList(o.sharedGroups, GoSpace) && Lower(item) == key)
    {
      SharesExactlyWhen(r.step.name, o);
    }
  }

  /** The state main's closures share: the results so far, whether anything failed, whether the shared
      setup is up. The outcome of the k-th step run is open. */
  class Runner {
    var results: seq<Result>
    var hadFailure: bool
    var sharedReady: bool
    const outcome: nat -> bool

    /** hadFailure holds exactly when some result is not PASS. */
    predicate Valid()
      reads this
    {
      hadFailure == !AllPassed(results)
    }

    constructor (outcome: nat -> bool)
      ensures Valid() && results == [] && !sharedReady && this.outcome == outcome
    {
      results, hadFailure, sharedReady := [], false, false;
      this.outcome := outcome;
    }

    /** runStep and the check of its status. */
    method RunStep(step: Step) returns (passed: bool)
      requires Valid()
      modifies this`results, this`hadFailure
      ensures Valid() && passed == outcome(|old(results)|)
      ensures results == old(results) + [Result(step, passed)]
      ensures hadFailure == (old(hadFailure) || !passed)
    {
      passed := outcome(|results|);
      results := results + [Result(step, passed)];
      if !passed {
        hadFailure := true;
      }
      assert forall r <- results :: r in old(results) || r == Result(step, passed);
      assert forall r <- old(results) :: r in results;
      assert results[|results| - 1] in results;
    }

    /** setupShared: true when the shared setup is up afterwards. */
    method SetupShared() returns (ok: bool)
      requires Valid() && !hadFailure
      modifies this
      ensures Valid() && sharedReady == ok && hadFailure == !ok
      ensures old(sharedReady) ==> ok && results == old(results)
      ensures !old(sharedReady) ==>
        && results == old(results) + Play(SETUP, |old(results)|, outcome)
        && ok == AllPass(|old(results)|, |SETUP|, outcome)
    {
      if sharedReady {
        return true;
      }
      ghost var before := results;
      var steps := SETUP;
      for i := 0 to |steps|
        invariant Valid() && !hadFailure && !sharedReady && |results| == |before| + i && AllPass(|before|, i, outcome)
        invariant results + Play(steps[i..], |results|, outcome) == before + Play(SETUP, |before|, outcome)
      {
        assert steps[i..][1..] == steps[i + 1..];
        var passed := RunStep(steps[i]);
        if !passed {
          assert !outcome(|before| + i);
          return false;
        }
      }
      sharedReady := true;
      ok := true;
    }

    /** teardownShared. */
    method TeardownShared()
      requires Valid()
      modifies this
      ensures Valid() && !sharedReady
      ensures !old(sharedReady) ==> results == old(results) && hadFailure == old(hadFailure)
      ensures old(sharedReady) ==>
        && results == old(results) + [Result(Stop, outcome(|old(results)|))]
        && hadFailure == (old(hadFailure) || !outcome(|old(results)|))
    {
      if !sharedReady {
        return;
      }
      var passed := RunStep(Stop);
      sharedReady := false;
    }

    /** One round of the loop over the groups; false when it breaks. */
    method RunGroup(group: string, o: Options) returns (go: bool)
      requires Valid() && !hadFailure
      modifies this
      ensures Valid() && go == !hadFailure == AllPass(|old(results)|, |GroupSteps(group, old(sharedReady), o)|, outcome)
      ensures results + (if !go && sharedReady then [Result(Stop, outcome(|results|))] else [])
           == old(results) + Play(GroupSteps(group, old(sharedReady), o), |old(results)|, outcome)
      ensures go ==>
        sharedReady == Shares(group, o) && |results| == |old(results)| + |GroupSteps(group, old(sharedReady), o)|
    {
      hide Shares, AllPassed;
      ghost var k, up := |results|, sharedReady;
      var useShared := Shares(group, o);
      if useShared {
        var ready := SetupShared();
        if !up {
          PlayInParts(SETUP, [Group(group, true)], k, outcome);
        }
        if !ready {
          return false;
        }
      } else if sharedReady {
        TeardownShared();
        PlayInParts([Stop], [Group(group, false)], k, outcome);
        if hadFailure {
          return false;
        }
      }
      var passed := RunStep(Group(group, useShared));
      return passed;
    }

    /** What follows the loop over the groups. */
    method Finish(o: Options)
      requires Valid()
      modifies this
      ensures Valid() && !sharedReady
      ensures !old(hadFailure) ==>
        results == old(results) + Play(Plan([], old(sharedReady), o), |old(results)|, outcome)
      ensures old(hadFailure) ==>
        results == old(results) + if old(sharedReady) then [Result(Stop, outcome(|old(results)|))] else []
    {
      hide AllPassed, ClosingSteps, Play;
      PlayClosing(sharedReady, o, |results|, outcome);
      PlayClosing(false, o, |results| + 1, outcome);
      if sharedReady {
        TeardownShared();
      }
      if !hadFailure && o.runCiLog {
        var passed := RunStep(CiLog);
      }
    }

    /** The groups case of main. Its results are the play of the plan, whatever the outcomes. */
    method RunGroups(groupList: seq<string>, o: Options)
      requires Valid() && results == [] && !sharedReady
      modifies this
      ensures Valid() && !sharedReady
      ensures results == Play(Plan(groupList, false, o), 0, outcome)
      // a group of the list skips its setup exactly if shared setups are on and its name, punish apart, is listed
      ensures forall r <- results :: r.step.Group? ==>
        && r.step.name in groupList && r.step.name != ""
        && var key := Lower(Trim(r.step.name, GoSpace));
        (r.step.skipSetup <==>
           o.sharedSetup && key != "punish"
           && exists item :: item in SplitList(o.sharedGroups, GoSpace) && Lower(item) == key)
    {
      hide Lower, Trim, SplitList, Shares, GroupSteps, AllPassed, Play, Plan, AllPass;
      ghost var whole := Play(Plan(groupList, false, o), 0, outcome);
      var i := 0;
      assert groupList[0..] == groupList;
      assert !hadFailure by {
        NothingFailed();
      }
      while i < |groupList|
        invariant 0 <= i <= |groupList| && Valid() && !hadFailure
        invariant results + Play(Plan(groupList[i..], sharedReady, o), |results|, outcome) == whole
      {
        PlayGroup(groupList, i, sharedReady, o, |results|, outcome);
        var group := groupList[i];
        i := i + 1;
        if group == "" {
          continue;
        }
        ghost var a, b := results, Play(GroupSteps(group, sharedReady, o), |results|, outcome);
        ghost var next := |a| + |GroupSteps(group, sharedReady, o)|;
        ghost var c := Play(Plan(groupList[i..], Shares(group, o), o), next, outcome);
        assert a + (b + c) == (a + b) + c;
        var go := RunGroup(group, o);
        if !go {
          break;
        }
      }
      assert !hadFailure ==> groupList[i..] == [];
      Finish(o);
      SharingRule(groupList, o, outcome);
    }
  }

  // ---------- what every run keeps ----------

  /** Where the shared setup is between two steps; Broken when setting it up failed. */
  datatype Session = Down | Cleaned | Inited | Up | Broken

  /** Which steps may run: setups in order, groups without setup of their own only while the shared one is up,
      all other groups, and the log, only while none is up. */
  predicate Legal(s: Session, step: Step) {
    match step
    case Clean => s == Down
    case Init => s == Cleaned
    case Start => s == Inited
    case Stop => s == Up
    case Group(_, skipSetup) => s == if skipSetup then Up else Down
    case CiLog => s == Down
  }

  function After(s: Session, r: Result): Session {
    match r.step
    case Clean => if r.passed then Cleaned else Broken
    case Init => if r.passed then Inited else Broken
    case Start => if r.passed then Up else Broken
    case Stop => Down
    case Group(_, _) => s
    case CiLog => s
  }

  function End(s: Session, results: seq<Result>): Session
    decreases |results|
  {
    if results == [] then s else End(After(s, results[0]), results[1..])
  }

  predicate Disciplined(s: Session, results: seq<Result>)
    decreases |results|
  {
    results == [] || (Legal(s, results[0].step) && Disciplined(After(s, results[0]), results[1..]))
  }

  /** A plan that is legal from a session on and ends with no setup up. */
  predicate LegalPlan(s: Session, plan: seq<Step>)
    decreases |plan|
  {
    if plan == [] then s == Down
    else Legal(s, plan[0]) && LegalPlan(After(s, Result(plan[0], true)), plan[1..])
  }

  function SessionOf(up: bool): Session {
    if up then Up else Down
  }

  lemma ClosingIsLegal(up: bool, o: Options)
    ensures LegalPlan(SessionOf(up), ClosingSteps(up, o))
  {
    ClosingShape(up, o);
    ClosingShape(false, o);
    assert LegalPlan(Down, ClosingSteps(false, o));
  }

  lemma SetupLegal(tail: seq<Step>)
    requires LegalPlan(Up, tail)
    ensures LegalPlan(Down, SETUP + tail)
  {
    assert ([Start] + tail)[1..] == tail && ([Init] + ([Start] + tail))[1..] == [Start] + tail;
    assert LegalPlan(Inited, [Start] + tail);
    assert LegalPlan(Cleaned, [Init] + ([Start] + tail));
    assert (SETUP + tail)[1..] == [Init] + ([Start] + tail);
  }

  lemma GroupStepsLegal(group: string, up: bool, o: Options, rest: seq<Step>)
    requires LegalPlan(SessionOf(Shares(group, o)), rest)
    ensures LegalPlan(SessionOf(up), GroupSteps(group, up, o) + rest)
  {
    hide Shares;
    var g := Group(group, Shares(group, o));
    var tail := [g] + rest;
    assert tail[1..] == rest;
    assert LegalPlan(SessionOf(Shares(group, o)), tail);
    if Shares(group, o) && !up {
      SetupLegal(tail);
      assert SETUP + [g] + rest == SETUP + tail;
    } else if !Shares(group, o) && up {
      assert [Stop] + [g] + rest == [Stop] + tail && ([Stop] + tail)[1..] == tail;
    } else {
      assert GroupSteps(group, up, o) + rest == tail;
    }
  }

  lemma {:induction false} PlanIsLegal(groups: seq<string>, up: bool, o: Options)
    ensures LegalPlan(SessionOf(up), Plan(groups, up, o))
  {
    hide Shares;
    if groups == [] {
      ClosingIsLegal(up, o);
    } else if groups[0] == "" {
      PlanIsLegal(groups[1..], up, o);
    } else {
      PlanIsLegal(groups[1..], Shares(groups[0], o), o);
      GroupStepsLegal(groups[0], up, o, Plan(groups[1..], Shares(groups[0], o), o));
    }
  }

  /** Playing a legal plan is disciplined whatever fails, and leaves no setup up: at worst one that
      never came up. */
  lemma {:induction false} PlayIsDisciplined(s: Session, plan: seq<Step>, k: nat, outcome: nat -> bool)
    requires LegalPlan(s, plan)
    ensures Disciplined(s, Play(plan, k, outcome))
    ensures End(s, Play(plan, k, outcome)) in {Down, Broken}
    decreases |plan|
  {
    if plan == [] {
    } else {
      var r := Result(plan[0], outcome(k));
      if r.passed {
        PlayIsDisciplined(After(s, r), plan[1..], k + 1, outcome);
        assert ([r] + Play(plan[1..], k + 1, outcome))[1..] == Play(plan[1..], k + 1, outcome);
      } else if r.step.Group? && r.step.skipSetup {
        var stop := Result(Stop, outcome(k + 1));
        assert [r, stop][1..] == [stop] && [stop][1..] == [];
        assert End(After(s, r), [stop]) == End(Down, []) == Down;
      } else {
        assert [r][1..] == [];
      }
    }
  }

  function Setups(results: seq<Result>): nat {
    if results == [] then 0 else (if results[0] == Result(Start, true) then 1 else 0) + Setups(results[1..])
  }

  function Stops(results: seq<Result>): nat {
    if results == [] then 0 else (if results[0].step == Stop then 1 else 0) + Stops(results[1..])
  }

  /** Along disciplined results, setups that came up and stops alternate: they differ by whether one is up. */
  lemma {:induction false} SetupsAreStopped(s: Session, results: seq<Result>)
    requires Disciplined(s, results)
    ensures Setups(results) + (if s == Up then 1 else 0) == Stops(results) + (if End(s, results) == Up then 1 else 0)
    decreases |results|
  {
    if results == [] {
    } else {
      SetupsAreStopped(After(s, results[0]), results[1..]);
    }
  }

  /** Nothing follows a failure but one stop. */
  lemma {:induction false} AtMostOneStopFollows(plan: seq<Step>, k: nat, outcome: nat -> bool, i: nat)
    requires i < |Play(plan, k, outcome)| && !Play(plan, k, outcome)[i].passed
    ensures var results := Play(plan, k, outcome);
      i >= |results| - 2 && (i == |results| - 2 ==> results[i + 1].step == Stop && results[i].step.Group?)
    decreases |plan|
  {
    if plan == [] || !outcome(k) {
    } else {
      AtMostOneStopFollows(plan[1..], k + 1, outcome, i - 1);
    }
  }

  /** What stands at a place of the results: the plan's own step, behind steps that all passed, or else the stop
      at the very end, behind a failed group. */
  lemma {:induction false} PlaySteps(plan: seq<Step>, k: nat, outcome: nat -> bool, i: nat)
    requires i < |Play(plan, k, outcome)|
    ensures var results := Play(plan, k, outcome);
      || (i < |plan| && results[i].step == plan[i] && forall j :: 0 <= j < i ==> results[j].passed)
      || (i > 0 && i == |results| - 1 && results[i].step == Stop
          && results[i - 1].step.Group? && !results[i - 1].passed)
    decreases |plan|
  {
    if !outcome(k) || i == 0 {
    } else {
      PlaySteps(plan[1..], k + 1, outcome, i - 1);
    }
  }

  lemma {:induction false} PassedThroughout(plan: seq<Step>, k: nat, outcome: nat -> bool)
    requires AllPassed(Play(plan, k, outcome))
    ensures |Play(plan, k, outcome)| == |plan|
    decreases |plan|
  {
    if plan == [] {
    } else {
      assert Result(plan[0], outcome(k)) in Play(plan, k, outcome);
      var rest := Play(plan[1..], k + 1, outcome);
      assert forall x <- rest :: x in [Result(plan[0], true)] + rest;
      PassedThroughout(plan[1..], k + 1, outcome);
    }
  }

  /** The plan ends with ci-log if that is asked for, and holds it nowhere else. */
  ghost predicate CiLogLast(plan: seq<Step>, o: Options) {
    && (forall i :: 0 <= i < |plan| && plan[i] == CiLog ==> o.runCiLog && i == |plan| - 1)
    && (o.runCiLog ==> plan != [] && plan[|plan| - 1] == CiLog)
  }

  lemma StepsCiLog(steps: seq<Step>, rest: seq<Step>, o: Options)
    requires CiLog !in steps && CiLogLast(rest, o)
    ensures CiLogLast(steps + rest, o)
  {
    forall i | 0 <= i < |steps + rest| && (steps + rest)[i] == CiLog
      ensures o.runCiLog && i == |steps + rest| - 1
    {
      assert i >= |steps| && rest[i - |steps|] == CiLog;
    }
  }

  lemma {:induction false} PlanCiLog(groups: seq<string>, up: bool, o: Options)
    ensures CiLogLast(Plan(groups, up, o), o)
  {
    hide Shares;
    if groups == [] {
    } else {
      if groups[0] == "" {
        PlanCiLog(groups[1..], up, o);
      } else {
        PlanCiLog(groups[1..], Shares(groups[0], o), o);
        StepsCiLog(GroupSteps(groups[0], up, o), Plan(groups[1..], Shares(groups[0], o), o), o);
      }
    }
  }

  /** ci-log runs at the very end or not at all: only if asked for and behind steps that all passed,
      and then it does run. */
  lemma CiLogRunsLast(groupList: seq<string>, o: Options, outcome: nat -> bool)
    ensures var results := Play(Plan(groupList, false, o), 0, outcome);
      && (forall i :: 0 <= i < |results| && results[i].step == CiLog ==>
            o.runCiLog && i == |results| - 1 && forall j :: 0 <= j < i ==> results[j].passed)
      && (o.runCiLog && AllPassed(results) ==> results != [] && results[|results| - 1].step == CiLog)
  {
    hide Plan, Play;
    var plan := Plan(groupList, false, o);
    var results := Play(plan, 0, outcome);
    PlanCiLog(groupList, false, o);
    forall i | 0 <= i < |results| && results[i].step == CiLog
      ensures o.runCiLog && i == |results| - 1 && forall j :: 0 <= j < i ==> results[j].passed
    {
      PlaySteps(plan, 0, outcome, i);
      if i + 1 < |results| {
        PlaySteps(plan, 0, outcome, i + 1);
      }
    }
    if o.runCiLog && AllPassed(results) {
      PassedThroughout(plan, 0, outcome);
      PlaySteps(plan, 0, outcome, |results| - 1);
    }
  }

  /** The setup discipline, for every list of groups and every pattern of step outcomes. */
  lemma GroupsModeDiscipline(groupList: seq<string>, o: Options, outcome: nat -> bool)
    ensures var results := Play(Plan(groupList, false, o), 0, outcome);
      // groups skip their setup only while a shared one is up, the others only while none is
      && Disciplined(Down, results)
      // every setup that fully passed is stopped exactly once before the mode ends
      && End(Down, results) in {Down, Broken} && Stops(results) == Setups(results)
      // the groups run are a prefix of the list, and all of it unless something failed
      && Ran(results) <= Wanted(groupList, o)
      && (AllPassed(results) ==> Ran(results) == Wanted(groupList, o))
      // after the first failure at most one stop follows
      && (forall i {:trigger results[i].passed} :: 0 <= i < |results| && !results[i].passed ==>
            i >= |results| - 2 && (i == |results| - 2 ==> results[|results| - 1].step == Stop))
  {
    hide Plan, Play, Disciplined, Ran, GroupsOf, Wanted;
    var plan := Plan(groupList, false, o);
    var results := Play(plan, 0, outcome);
    PlanIsLegal(groupList, false, o);
    PlayIsDisciplined(Down, plan, 0, outcome);
    SetupsAreStopped(Down, results);
    PlanWants(groupList, false, o);
    PlayRanPrefix(plan, 0, outcome);
    forall i {:trigger results[i].passed} | 0 <= i < |results| && !results[i].passed
      ensures i >= |results| - 2 && (i == |results| - 2 ==> results[|results| - 1].step == Stop)
    {
      AtMostOneStopFollows(plan, 0, outcome, i);
    }
  }
}
