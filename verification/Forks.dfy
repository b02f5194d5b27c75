/** The fork ladder: which schedules are accepted (internal/testkit/fork_schedule.go) and which forks, and
    which blob schedule, are then expected to be active (internal/testkit/fork_surface.go). */
module Forks {
  import opened Text
  import opened Numerals

  datatype Fork = Shanghai | Cancun | FixHeader | Posa | Prague | Osaka | Bpo1 | Bpo2

  datatype Schedule = Schedule(
    shanghai: int, cancun: int, fixHeader: int, posa: int, prague: int, osaka: int, bpo1: int, bpo2: int)

  datatype Config = Config(mode: string, target: string, schedule: Schedule)

  function At(s: Schedule, f: Fork): int {
    match f
    case Shanghai => s.shanghai
    case Cancun => s.cancun
    case FixHeader => s.fixHeader
    case Posa => s.posa
    case Prague => s.prague
    case Osaka => s.osaka
    case Bpo1 => s.bpo1
    case Bpo2 => s.bpo2
  }

  const LADDER: seq<Fork> := [Shanghai, Cancun, FixHeader, Posa, Prague, Osaka, Bpo1, Bpo2]

  function Rung(f: Fork): (i: nat)
    ensures i < |LADDER| && LADDER[i] == f
  {
    match f
    case Shanghai => 0
    case Cancun => 1
    case FixHeader => 2
    case Posa => 3
    case Prague => 4
    case Osaka => 5
    case Bpo1 => 6
    case Bpo2 => 7
  }

  predicate Enabled(s: Schedule, f: Fork) {
    At(s, f) > 0
  }

  // ---------- validation ----------

  predicate IsUpgrade(cfg: Option<Config>) {
    cfg.Some? && Lower(cfg.value.mode) == "upgrade"
  }

  ghost predicate AnyEnabled(s: Schedule) {
    exists f :: Enabled(s, f)
  }

  /** All enabled forks, adjacent on the ladder or not, are scheduled in ladder order. */
  ghost predicate Ordered(s: Schedule) {
    forall f, g :: Rung(f) < Rung(g) && Enabled(s, f) && Enabled(s, g) ==> At(s, f) <= At(s, g)
  }

  /** Among the first six forks no disabled one lies between enabled ones. */
  ghost predicate Contiguous(s: Schedule) {
    forall f, g, h :: Rung(f) < Rung(g) < Rung(h) < 6 && Enabled(s, f) && Enabled(s, h) ==> Enabled(s, g)
  }

  function EnabledOf(forks: seq<Fork>, s: Schedule): seq<Fork> {
    if forks == [] then []
    else
      var n := |forks| - 1;
      EnabledOf(forks[..n], s) + if Enabled(s, forks[n]) then [forks[n]] else []
  }

  /** UpgradeForkSchedulePhases; a phase is its fork, the time being the schedule's. */
  method UpgradeForkSchedulePhases(cfg: Option<Config>) returns (out: seq<Fork>)
    ensures out == if cfg.None? then [] else EnabledOf(LADDER, cfg.value.schedule)
  {
    out := [];
    if cfg.None? {
      return;
    }
    var phases := LADDER;
    for i := 0 to |phases|
      invariant out == EnabledOf(phases[..i], cfg.value.schedule)
    {
      assert phases[..i + 1][..i] == phases[..i];
      if At(cfg.value.schedule, phases[i]) > 0 {
        out := out + [phases[i]];
      }
    }
    assert phases[..|phases|] == phases;
  }

  lemma {:induction false} EnabledOfFacts(n: nat, s: Schedule)
    requires n <= |LADDER|
    ensures var e := EnabledOf(LADDER[..n], s);
      && (forall i, j :: 0 <= i < j < |e| ==> Rung(e[i]) < Rung(e[j]))
      && (forall f :: f in e <==> Rung(f) < n && Enabled(s, f))
  {
    hide Enabled;
    if n == 0 {
    } else {
      EnabledOfFacts(n - 1, s);
      assert LADDER[..n][..n - 1] == LADDER[..n - 1];
      forall f | Rung(f) == n - 1
        ensures f == LADDER[n - 1]
      {
      }
      assert Rung(LADDER[n - 1]) == n - 1;
    }
  }

  /** Comparing neighbours is enough. */
  lemma {:induction false} NeighboursOrder(e: seq<Fork>, s: Schedule, i: nat, j: nat)
    requires i <= j < |e| && forall k :: 0 < k < |e| ==> At(s, e[k - 1]) <= At(s, e[k])
    ensures At(s, e[i]) <= At(s, e[j])
    decreases j - i
  {
    if i >= j {
    } else {
      NeighboursOrder(e, s, i, j - 1);
    }
  }

  lemma AllEnabled(s: Schedule)
    ensures var e := EnabledOf(LADDER, s);
      && (forall i, j :: 0 <= i < j < |e| ==> Rung(e[i]) < Rung(e[j]))
      && (forall f :: f in e <==> Enabled(s, f))
  {
    hide EnabledOf, Enabled;
    assert LADDER[..|LADDER|] == LADDER;
    EnabledOfFacts(|LADDER|, s);
  }

  lemma SortedIsOrdered(s: Schedule)
    requires var e := EnabledOf(LADDER, s); forall k :: 0 < k < |e| ==> At(s, e[k - 1]) <= At(s, e[k])
    ensures Ordered(s)
  {
    hide At, EnabledOf, Enabled, Rung;
    var e := EnabledOf(LADDER, s);
    AllEnabled(s);
    forall f, g | Rung(f) < Rung(g) && Enabled(s, f) && Enabled(s, g)
      ensures At(s, f) <= At(s, g)
    {
      assert f in e && g in e;
      var i :| 0 <= i < |e| && e[i] == f;
      var j :| 0 <= j < |e| && e[j] == g;
      assert i <= j;
      NeighboursOrder(e, s, i, j);
    }
  }

  lemma OrderedNeighbours(s: Schedule)
    ensures var e := EnabledOf(LADDER, s);
      && (e == [] <==> !AnyEnabled(s))
      && ((forall k :: 0 < k < |e| ==> At(s, e[k - 1]) <= At(s, e[k])) <==> Ordered(s))
  {
    hide At, EnabledOf, Enabled, Rung;
    var e := EnabledOf(LADDER, s);
    AllEnabled(s);
    if AnyEnabled(s) {
      var f :| Enabled(s, f);
      assert f in e;
    }
    if e != [] {
      assert e[0] in e;
    }
    if forall k :: 0 < k < |e| ==> At(s, e[k - 1]) <= At(s, e[k]) {
      SortedIsOrdered(s);
    }
    if Ordered(s) {
      forall k | 0 < k < |e|
        ensures At(s, e[k - 1]) <= At(s, e[k])
      {
        assert e[k - 1] in e && e[k] in e;
      }
    }
  }

  /** The times of a schedule in the order of the ladder. */
  function Times(s: Schedule): seq<int> {
    [s.shanghai, s.cancun, s.fixHeader, s.posa, s.prague, s.osaka, s.bpo1, s.bpo2]
  }

  lemma TimeOf(s: Schedule, f: Fork)
    ensures Times(s)[Rung(f)] == At(s, f)
  {
  }

  lemma RungOf(i: nat)
    requires i < 8
    ensures Rung(LADDER[i]) == i
  {
  }

  predicate AreTimes(s: Schedule, t: seq<int>) {
    |t| == 8 && (forall f :: t[Rung(f)] == At(s, f)) && forall i :: 0 <= i < 8 ==> Rung(LADDER[i]) == i
  }

  lemma AnyFields(s: Schedule, t: seq<int>)
    requires AreTimes(s, t)
    ensures AnyEnabled(s) <==> exists i :: 0 <= i < 8 && t[i] > 0
  {
    hide At, Rung;
    if AnyEnabled(s) {
      var f :| Enabled(s, f);
      assert t[Rung(f)] > 0;
    }
    forall i | 0 <= i < 8 && t[i] > 0
      ensures Enabled(s, LADDER[i])
    {
      assert t[Rung(LADDER[i])] == At(s, LADDER[i]);
    }
  }

  lemma OrderedFields(s: Schedule, t: seq<int>)
    requires AreTimes(s, t)
    ensures Ordered(s) <==> forall i, j :: 0 <= i < j < 8 && t[i] > 0 && t[j] > 0 ==> t[i] <= t[j]
  {
    hide At, Rung;
    if Ordered(s) {
      forall i, j | 0 <= i < j < 8 && t[i] > 0 && t[j] > 0
        ensures t[i] <= t[j]
      {
        var f, g := LADDER[i], LADDER[j];
        assert t[Rung(f)] == At(s, f) && t[Rung(g)] == At(s, g);
        assert Enabled(s, f) && Enabled(s, g);
      }
    }
  }

  lemma ContiguousFields(s: Schedule, t: seq<int>)
    requires AreTimes(s, t)
    ensures Contiguous(s) <==> forall i, j, k :: 0 <= i < j < k < 6 && t[i] > 0 && t[k] > 0 ==> t[j] > 0
  {
    hide At, Rung;
    if Contiguous(s) {
      forall i, j, k | 0 <= i < j < k < 6 && t[i] > 0 && t[k] > 0
        ensures t[j] > 0
      {
        var f, g, h := LADDER[i], LADDER[j], LADDER[k];
        assert t[Rung(f)] == At(s, f) && t[Rung(g)] == At(s, g) && t[Rung(h)] == At(s, h);
        assert Enabled(s, f) && Enabled(s, h);
        assert Enabled(s, g);
      }
    }
  }

  /** The three conditions in terms of the schedule's own times: a fork is enabled from a positive time on. */
  lemma ScheduleFields(s: Schedule)
    ensures var t := [s.shanghai, s.cancun, s.fixHeader, s.posa, s.prague, s.osaka, s.bpo1, s.bpo2];
      && (AnyEnabled(s) <==> exists i :: 0 <= i < 8 && t[i] > 0)
      && (Ordered(s) <==> forall i, j :: 0 <= i < j < 8 && t[i] > 0 && t[j] > 0 ==> t[i] <= t[j])
      && (Contiguous(s) <==> forall i, j, k :: 0 <= i < j < k < 6 && t[i] > 0 && t[k] > 0 ==> t[j] > 0)
  {
    hide At, Rung;
    var t := Times(s);
    forall f
      ensures t[Rung(f)] == At(s, f)
    {
      TimeOf(s, f);
    }
    forall i | 0 <= i < 8
      ensures Rung(LADDER[i]) == i && At(s, LADDER[i]) == t[i]
    {
      RungOf(i);
      TimeOf(s, LADDER[i]);
    }
    AnyFields(s, t);
    OrderedFields(s, t);
    ContiguousFields(s, t);
  }

  datatype Verdict = Accepted | MissingSchedule | BadOrdering | BadPrefix

  /** Among the first n forks: one is enabled; a disabled one lies behind an enabled one; all is contiguous. */
  ghost predicate EnabledBelow(s: Schedule, n: nat) {
    exists f :: Rung(f) < n && Enabled(s, f)
  }

  ghost predicate GapBelow(s: Schedule, n: nat) {
    exists f, g :: Rung(f) < Rung(g) < n && Enabled(s, f) && !Enabled(s, g)
  }

  ghost predicate ContiguousBelow(s: Schedule, n: nat) {
    forall f, g, h :: Rung(f) < Rung(g) < Rung(h) < n && Enabled(s, f) && Enabled(s, h) ==> Enabled(s, g)
  }

  lemma RungsBelow(i: nat)
    requires i < 6
    ensures Rung(LADDER[i]) == i
    ensures forall f {:trigger Rung(f)} :: Rung(f) < i + 1 <==> Rung(f) < i || f == LADDER[i]
  {
  }

  lemma NextEnabled(s: Schedule, i: nat)
    requires i < 6
    ensures EnabledBelow(s, i + 1) == (EnabledBelow(s, i) || Enabled(s, LADDER[i]))
  {
    hide Enabled, Rung;
    RungsBelow(i);
  }

  lemma NextGap(s: Schedule, i: nat)
    requires i < 6
    ensures GapBelow(s, i + 1) == (GapBelow(s, i) || (EnabledBelow(s, i) && !Enabled(s, LADDER[i])))
  {
    hide Enabled, Rung;
    RungsBelow(i);
  }

  lemma NextContiguous(s: Schedule, i: nat)
    requires i < 6
    ensures ContiguousBelow(s, i + 1) == (ContiguousBelow(s, i) && !(GapBelow(s, i) && Enabled(s, LADDER[i])))
  {
    hide Enabled, Rung;
    RungsBelow(i);
    var phase := LADDER[i];
    if GapBelow(s, i) && Enabled(s, phase) {
      var f, g :| Rung(f) < Rung(g) < i && Enabled(s, f) && !Enabled(s, g);
      assert Rung(f) < Rung(g) < Rung(phase) < i + 1;
    }
  }

  lemma NoRungs(s: Schedule)
    ensures !EnabledBelow(s, 0) && !GapBelow(s, 0) && ContiguousBelow(s, 0)
  {
  }

  lemma AllRungs(s: Schedule)
    ensures ContiguousBelow(s, 6) == Contiguous(s)
  {
  }

  lemma PrefixFails(s: Schedule, n: nat)
    requires n <= 6 && !ContiguousBelow(s, n)
    ensures !Contiguous(s)
  {
    hide Enabled;
  }

  /** Its last loop, over the first six forks: an enabled fork behind a gap behind an enabled one is refused. */
  method CheckPrefix(s: Schedule) returns (ok: bool)
    ensures ok == Contiguous(s)
  {
    hide EnabledBelow, GapBelow, ContiguousBelow, Contiguous, At;
    var seenEnabled, seenGap := false, false;
    NoRungs(s);
    for i := 0 to 6
      invariant seenEnabled == EnabledBelow(s, i) && seenGap == GapBelow(s, i) && ContiguousBelow(s, i)
    {
      NextEnabled(s, i);
      NextGap(s, i);
      NextContiguous(s, i);
      if At(s, LADDER[i]) <= 0 {
        if seenEnabled {
          seenGap := true;
        }
        continue;
      }
      if seenGap {
        PrefixFails(s, i + 1);
        return false;
      }
      seenEnabled := true;
    }
    AllRungs(s);
    ok := true;
  }

  /** ValidateUpgradeForkSchedule: the verdict says exactly which of the three conditions fails first. */
  method ValidateUpgradeForkSchedule(cfg: Option<Config>) returns (v: Verdict)
    ensures !IsUpgrade(cfg) ==> v == Accepted
    ensures IsUpgrade(cfg) ==>
      var s := cfg.value.schedule;
      v == if !AnyEnabled(s) then MissingSchedule
           else if !Ordered(s) then BadOrdering
           else if !Contiguous(s) then BadPrefix
           else Accepted
  {
    hide At, AnyEnabled, Ordered, Contiguous, EnabledOf, Lower;
    if cfg.None? || Lower(cfg.value.mode) != "upgrade" {
      return Accepted;
    }
    var s := cfg.value.schedule;
    OrderedNeighbours(s);
    var phases := UpgradeForkSchedulePhases(cfg);
    if |phases| == 0 {
      return MissingSchedule;
    }
    for i := 1 to |phases|
      invariant forall k :: 0 < k < i ==> At(s, phases[k - 1]) <= At(s, phases[k])
    {
      if At(s, phases[i - 1]) > At(s, phases[i]) {
        return BadOrdering;
      }
    }
    var contiguous := CheckPrefix(s);
    v := if contiguous then Accepted else BadPrefix;
  }

  // ---------- activation ----------

  function Name(f: Fork): string {
    match f
    case Shanghai => "shanghai"
    case Cancun => "cancun"
    case FixHeader => "fixheader"
    case Posa => "posa"
    case Prague => "prague"
    case Osaka => "osaka"
    case Bpo1 => "bpo1"
    case Bpo2 => "bpo2"
  }

  predicate IsSmoke(cfg: Config) {
    Lower(Trim(cfg.mode, GoSpace)) == "smoke"
  }

  /** forkIsActive; shanghai is not a name it knows. The timestamp, 64 bits unsigned, is compared as signed. */
  predicate IsActive(cfg: Option<Config>, f: Fork, timestamp: nat) {
    cfg.Some? && f != Shanghai
    && if IsSmoke(cfg.value) then Contains(Lower(Trim(cfg.value.target, GoSpace)), Name(f))
       else At(cfg.value.schedule, f) > 0 && Wrap64(timestamp) >= At(cfg.value.schedule, f)
  }

  /** Outside smoke mode a fork is active exactly from its time on - but only up to 2^63, where the signed
      comparison turns negative and every fork seems inactive. */
  lemma ActiveExactlyWhen(cfg: Config, f: Fork, timestamp: nat)
    requires timestamp < TWO64 && !IsSmoke(cfg) && f != Shanghai
    ensures IsActive(Some(cfg), f, timestamp) <==> Enabled(cfg.schedule, f) && At(cfg.schedule, f) <= timestamp < TWO63
  {
    hide Lower, Trim;
    assert timestamp < TWO63 ==> Wrap64(timestamp) == timestamp;
    assert timestamp >= TWO63 ==> Wrap64(timestamp) == timestamp - TWO64;
  }

  lemma UpgradeIsNotSmoke(cfg: Config)
    requires IsUpgrade(Some(cfg))
    ensures !IsSmoke(cfg)
  {
    var mode := cfg.mode;
    LowerAt(mode);
    assert Lower(mode)[0] == 'u' && Lower(mode)[6] == 'e';
    assert Trimmed(mode, GoSpace) by {
      assert LowerChar(mode[0]) == 'u' && LowerChar(mode[6]) == 'e' && |mode| == 7;
    }
    TrimTrimmed(mode, GoSpace);
    assert "smoke"[0] != 'u';
  }

  /** What the validator's ordering is for: on an accepted upgrade schedule, at every timestamp, an active
      fork has every enabled earlier fork active, and every fork between two enabled ones of the first six, too. */
  lemma AcceptedMeansLadder(cfg: Config, timestamp: nat, earlier: Fork, later: Fork)
    requires IsUpgrade(Some(cfg)) && Ordered(cfg.schedule) && Contiguous(cfg.schedule) && timestamp < TWO64
    requires Rung(earlier) < Rung(later) && earlier != Shanghai && IsActive(Some(cfg), later, timestamp)
    ensures Enabled(cfg.schedule, earlier) ==> IsActive(Some(cfg), earlier, timestamp)
    ensures Rung(later) < 6 && (exists first :: Rung(first) < Rung(earlier) && Enabled(cfg.schedule, first))
            ==> IsActive(Some(cfg), earlier, timestamp)
  {
    hide At, IsActive, IsSmoke, IsUpgrade;
    UpgradeIsNotSmoke(cfg);
    ActiveExactlyWhen(cfg, earlier, timestamp);
    ActiveExactlyWhen(cfg, later, timestamp);
  }

  /** Ordering among the forks that activation knows. */
  ghost predicate OrderedFromCancun(s: Schedule) {
    forall f, g :: (f != Shanghai && Rung(f) < Rung(g) && Enabled(s, f) && Enabled(s, g) ==> At(s, f) <= At(s, g))
  }

  /** At a timestamp, every active fork has all enabled earlier ones active. */
  ghost predicate LadderActive(cfg: Config, t: nat) {
    forall f, g ::
      (f != Shanghai && Rung(f) < Rung(g) && Enabled(cfg.schedule, f) && IsActive(Some(cfg), g, t)
       ==> IsActive(Some(cfg), f, t))
  }

  /** And the ordering is not only enough but needed: it holds among the forks activation knows exactly when at every
      timestamp each active fork has all enabled earlier ones active. */
  lemma OrderingIsNeeded(cfg: Config)
    requires !IsSmoke(cfg) && forall f :: At(cfg.schedule, f) < TWO63
    ensures OrderedFromCancun(cfg.schedule) <==> forall t: nat :: t < TWO64 ==> LadderActive(cfg, t)
  {
    hide At, IsActive, IsSmoke;
    forall t: nat, f | t < TWO64 && f != Shanghai
      ensures IsActive(Some(cfg), f, t) <==> Enabled(cfg.schedule, f) && At(cfg.schedule, f) <= t < TWO63
    {
      ActiveExactlyWhen(cfg, f, t);
    }
    if forall t: nat :: t < TWO64 ==> LadderActive(cfg, t) {
      forall f, g | f != Shanghai && Rung(f) < Rung(g) && Enabled(cfg.schedule, f) && Enabled(cfg.schedule, g)
        ensures At(cfg.schedule, f) <= At(cfg.schedule, g)
      {
        var t: nat := At(cfg.schedule, g);
        assert g != Shanghai;
        assert LadderActive(cfg, t);
        assert IsActive(Some(cfg), g, t);
      }
    }
    if OrderedFromCancun(cfg.schedule) {
      forall t: nat | t < TWO64
        ensures LadderActive(cfg, t)
      {
        forall f, g | f != Shanghai && Rung(f) < Rung(g) && Enabled(cfg.schedule, f) && IsActive(Some(cfg), g, t)
          ensures IsActive(Some(cfg), f, t)
        {
          assert g != Shanghai;
        }
      }
    }
  }

  // ---------- the expected blob schedule ----------

  datatype Blob = Blob(target: nat, max: nat, fraction: nat)

  const CANCUN_BLOB := Blob(3, 6, 3338477)
  const PRAGUE_BLOB := Blob(6, 9, 5007716)
  const BPO1_BLOB := Blob(10, 15, 8346193)
  const BPO2_BLOB := Blob(14, 21, 11684671)

  /** The selection in VerifyForkRPCSurface for a geth node. */
  function ExpectedBlob(cfg: Option<Config>, timestamp: nat): Option<Blob> {
    if IsActive(cfg, Bpo2, timestamp) then Some(BPO2_BLOB)
    else if IsActive(cfg, Bpo1, timestamp) then Some(BPO1_BLOB)
    else if IsActive(cfg, Osaka, timestamp) then Some(PRAGUE_BLOB)
    else if IsActive(cfg, Prague, timestamp) then Some(PRAGUE_BLOB)
    else if IsActive(cfg, Cancun, timestamp) then Some(CANCUN_BLOB)
    else None
  }

  /** Outside smoke mode, the latest of the forks that have begun decides, whatever the order of the schedule. */
  lemma ScheduledBlob(cfg: Config, t: nat)
    requires t < TWO63 && !IsSmoke(cfg)
    ensures var s := cfg.schedule;
      ExpectedBlob(Some(cfg), t)
      == if 0 < s.bpo2 <= t then Some(Blob(14, 21, 11684671))
         else if 0 < s.bpo1 <= t then Some(Blob(10, 15, 8346193))
         else if 0 < s.osaka <= t || 0 < s.prague <= t then Some(Blob(6, 9, 5007716))
         else if 0 < s.cancun <= t then Some(Blob(3, 6, 3338477))
         else None
  {
    hide IsActive, IsSmoke;
    ActiveExactlyWhen(cfg, Bpo2, t);
    ActiveExactlyWhen(cfg, Bpo1, t);
    ActiveExactlyWhen(cfg, Osaka, t);
    ActiveExactlyWhen(cfg, Prague, t);
    ActiveExactlyWhen(cfg, Cancun, t);
  }

  /** In smoke mode, the latest of the forks that the target names decides, at every time. */
  lemma SmokeBlob(cfg: Config, t: nat)
    requires IsSmoke(cfg)
    ensures var target := Lower(Trim(cfg.target, GoSpace));
      ExpectedBlob(Some(cfg), t)
      == if Contains(target, "bpo2") then Some(Blob(14, 21, 11684671))
         else if Contains(target, "bpo1") then Some(Blob(10, 15, 8346193))
         else if Contains(target, "osaka") || Contains(target, "prague") then Some(Blob(6, 9, 5007716))
         else if Contains(target, "cancun") then Some(Blob(3, 6, 3338477))
         else None
    ensures IsActive(Some(cfg), FixHeader, t) <==> Contains(Lower(Trim(cfg.target, GoSpace)), "fixheader")
    ensures IsActive(Some(cfg), Posa, t) <==> Contains(Lower(Trim(cfg.target, GoSpace)), "posa")
  {
    hide Lower, Trim, Contains;
  }

  lemma ActiveStaysActive(cfg: Config, f: Fork, t: nat, u: nat)
    requires t <= u < TWO64 && IsActive(Some(cfg), f, t) && (IsSmoke(cfg) || u < TWO63)
    ensures IsActive(Some(cfg), f, u)
  {
    hide Lower, Trim, Contains, At;
    assert u < TWO63 ==> Wrap64(t) == t && Wrap64(u) == u;
  }

  predicate NotBelow(b: Option<Blob>, a: Blob) {
    b.Some? && a.target <= b.value.target && a.max <= b.value.max && a.fraction <= b.value.fraction
  }

  /** As time grows, the expectation stays and its target, maximum and fraction do not fall - for every schedule,
      accepted or not - exactly in smoke mode or below 2^63. */
  lemma BlobNeverFalls(cfg: Config, t: nat, u: nat)
    requires t <= u < TWO64
    ensures var before, after := ExpectedBlob(Some(cfg), t), ExpectedBlob(Some(cfg), u);
      before.Some? ==> (NotBelow(after, before.value) <==> IsSmoke(cfg) || u < TWO63)
  {
    hide IsActive, IsSmoke;
    if IsSmoke(cfg) || u < TWO63 {
      forall f | IsActive(Some(cfg), f, t)
        ensures IsActive(Some(cfg), f, u)
      {
        ActiveStaysActive(cfg, f, t, u);
      }
    } else {
      forall f | f != Shanghai
        ensures !IsActive(Some(cfg), f, u)
      {
        ActiveExactlyWhen(cfg, f, u);
      }
    }
  }

  lemma UpgradeText(s: Schedule)
    ensures IsUpgrade(Some(Config("upgrade", "", s)))
  {
    hide Lower;
    LowerLower("upgrade");
  }

  /** At 2^63 it does lapse: a chain past Cancun expects no blob schedule any more. */
  lemma BlobLapsesAtSignBit()
    ensures var cfg := Some(Config("upgrade", "", Schedule(1, 2, 3, 4, 0, 0, 0, 0)));
      ExpectedBlob(cfg, 2) == Some(CANCUN_BLOB) && ExpectedBlob(cfg, TWO63) == None
  {
    var cfg := Config("upgrade", "", Schedule(1, 2, 3, 4, 0, 0, 0, 0));
    hide IsActive, IsSmoke, IsUpgrade;
    UpgradeText(cfg.schedule);
    UpgradeIsNotSmoke(cfg);
    forall f | f != Shanghai
      ensures IsActive(Some(cfg), f, TWO63) == false
      ensures IsActive(Some(cfg), f, 2) == (f == Cancun)
    {
      ActiveExactlyWhen(cfg, f, TWO63);
      ActiveExactlyWhen(cfg, f, 2);
    }
  }
}
