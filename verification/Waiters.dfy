/** The polling waits of internal/testkit/chain_window.go, as machines over what they observe: the answers
    of the nodes and the readings of the clock are an arbitrary finite sequence; a run that has not ended
    when the sequence does is pending. */
module Waiters {
  import opened Text
  import opened Numerals

  // ---------- WaitForValidatorCanonicalSync ----------

  datatype Head = Head(height: nat, hash: string)

  /** One round: the clock at its start, the target's head and the references' heads, as far as readable. */
  datatype SyncPoll = SyncPoll(now: int, target: Option<Head>, references: seq<Option<Head>>)

  /** Some reference has the target's head. */
  predicate Matched(p: SyncPoll) {
    p.target.Some? && p.target in p.references
  }

  /** The target is readable, unmatched, and some reference is higher: this restarts the window. */
  predicate Reset(p: SyncPoll) {
    p.target.Some? && !Matched(p) && exists r <- p.references :: r.Some? && r.value.height > p.target.value.height
  }

  function Height(p: SyncPoll): nat
    requires Matched(p)
  {
    p.target.value.height
  }

  ghost predicate NoReset(polls: seq<SyncPoll>, i: nat, j: nat)
    requires j <= |polls|
  {
    forall k :: i <= k < j ==> !Reset(polls[k])
  }

  /** A matched poll with no matched poll before it since the last reset: where a window starts. */
  ghost predicate WindowStart(polls: seq<SyncPoll>, i: nat)
    requires i < |polls|
  {
    Matched(polls[i]) && forall k :: 0 <= k < i && Matched(polls[k]) ==> !NoReset(polls, k, i)
  }

  ghost predicate SucceedsFrom(polls: seq<SyncPoll>, i: nat, j: nat, stable: nat)
    requires i <= j < |polls|
  {
    WindowStart(polls, i) && NoReset(polls, i, j) && Matched(polls[j])
    && Height(polls[j]) >= AddU64(Height(polls[i]), stable)
  }

  /** Poll j meets the success test: it is matched and high enough above the start of its window. */
  ghost predicate SucceedsAt(polls: seq<SyncPoll>, j: nat, stable: nat)
    requires j < |polls|
  {
    exists i: nat :: i <= j && SucceedsFrom(polls, i, j, stable)
  }

  datatype SyncOutcome = Synced | SyncTimeout | SyncPending

  /** The comparison with the references in one round. */
  method Compare(p: SyncPoll) returns (matched: bool, highestRef: nat)
    requires p.target.Some?
    ensures matched == Matched(p)
    ensures matched <==> exists r ::
      (r in p.references && r.Some? && r.value.height == p.target.value.height && r.value.hash == p.target.value.hash)
    ensures highestRef > p.target.value.height <==>
      exists r :: r in p.references && r.Some? && r.value.height > p.target.value.height
    ensures !matched ==> (highestRef > p.target.value.height <==> Reset(p))
  {
    matched, highestRef := false, 0;
    for i := 0 to |p.references|
      invariant matched <==> p.target in p.references[..i]
      invariant forall r <- p.references[..i] :: r.Some? ==> r.value.height <= highestRef
      invariant highestRef > 0 ==> exists r <- p.references[..i] :: r.Some? && r.value.height == highestRef
    {
      var r := p.references[i];
      assert p.references[..i + 1] == p.references[..i] + [r];
      if r.None? {
        continue;
      }
      if r.value.height > highestRef {
        highestRef := r.value.height;
        assert r in p.references[..i + 1];
      }
      if r.value.height == p.target.value.height && r.value.hash == p.target.value.hash {
        matched := true;
      }
    }
    assert p.references[..|p.references|] == p.references;
  }

  lemma RoundFacts(p: SyncPoll, matched: bool, highestRef: nat)
    requires p.target.None? ==> !matched
    requires p.target.Some? ==> matched == Matched(p)
    ensures Matched(p) ==> p.target.Some? && !Reset(p)
    ensures Reset(p) ==> p.target.Some?
    ensures matched == Matched(p)
  {
  }

  lemma NotSucceeding(polls: seq<SyncPoll>, j: nat, stable: nat, matched: bool)
    requires j < |polls| && matched == Matched(polls[j])
    ensures !matched ==> !SucceedsAt(polls, j, stable)
  {
  }

  lemma NoResetStep(polls: seq<SyncPoll>, j: nat)
    requires j < |polls|
    ensures forall k :: 0 <= k <= j ==> (NoReset(polls, k, j + 1) <==> NoReset(polls, k, j) && !Reset(polls[j]))
  {
  }

  /** At most one window is open at a poll, so the test may use the start the loop remembers. */
  lemma OneWindow(polls: seq<SyncPoll>, start: nat, j: nat, stable: nat)
    requires start <= j < |polls| && WindowStart(polls, start) && NoReset(polls, start, j) && Matched(polls[j])
    ensures SucceedsAt(polls, j, stable) <==> Height(polls[j]) >= AddU64(Height(polls[start]), stable)
  {
    hide Matched, Reset;
    if SucceedsAt(polls, j, stable) {
      var i: nat :| i <= j && SucceedsFrom(polls, i, j, stable);
    }
    if Height(polls[j]) >= AddU64(Height(polls[start]), stable) {
      assert SucceedsFrom(polls, start, j, stable);
    }
  }

  /** The loop of WaitForValidatorCanonicalSync: it ends at the first poll that meets the success test,
      if the deadline has not passed by then. */
  method WaitForCanonicalSync(polls: seq<SyncPoll>, stableBlocks: nat, deadline: int) returns (out: SyncOutcome, j: nat)
    ensures j <= |polls|
    ensures forall k :: 0 <= k < j ==>
      polls[k].now < deadline && !SucceedsAt(polls, k, if stableBlocks < 1 then 1 else stableBlocks)
    ensures out == Synced ==>
      && j < |polls| && polls[j].now < deadline
      && SucceedsAt(polls, j, if stableBlocks < 1 then 1 else stableBlocks)
    ensures out == SyncTimeout ==> j < |polls| && polls[j].now >= deadline
    ensures out == SyncPending ==> j == |polls|
  {
    hide Matched, Reset;
    var stable := if stableBlocks < 1 then 1 else stableBlocks;
    var matchedStart, haveMatchedStart := 0, false;
    ghost var start := 0;
    j := 0;
    while j < |polls| && polls[j].now < deadline
      invariant j <= |polls|
      invariant forall k :: 0 <= k < j ==> polls[k].now < deadline && !SucceedsAt(polls, k, stable)
      invariant haveMatchedStart ==>
        start < j && WindowStart(polls, start) && NoReset(polls, start, j) && matchedStart == Height(polls[start])
      invariant !haveMatchedStart ==> forall k :: 0 <= k < j && Matched(polls[k]) ==> !NoReset(polls, k, j)
    {
      var p := polls[j];
      var matched, highestRef := false, 0;
      if p.target.Some? {
        matched, highestRef := Compare(p);
        if matched {
          if !haveMatchedStart {
            matchedStart, haveMatchedStart := p.target.value.height, true;
            start := j;
          }
          OneWindow(polls, start, j, stable);
          if p.target.value.height >= AddU64(matchedStart, stable) {
            return Synced, j;
          }
        } else {
          if highestRef > p.target.value.height {
            haveMatchedStart := false;
          }
        }
      }
      RoundFacts(p, matched, highestRef);
      NotSucceeding(polls, j, stable, matched);
      NoResetStep(polls, j);
      j := j + 1;
    }
    out := if j < |polls| then SyncTimeout else SyncPending;
  }

  /** Every matched poll belongs to a window. */
  lemma {:induction false} WindowOf(polls: seq<SyncPoll>, i: nat) returns (s: nat)
    requires i < |polls| && Matched(polls[i])
    ensures s <= i && WindowStart(polls, s) && NoReset(polls, s, i)
    decreases i
  {
    hide Matched, Reset;
    if WindowStart(polls, i) {
      s := i;
    } else {
      var k: nat :| k < i && Matched(polls[k]) && NoReset(polls, k, i);
      s := WindowOf(polls, k);
    }
  }

  /** A matched earlier poll, no reset since, and enough blocks gained. */
  ghost predicate StablePair(polls: seq<SyncPoll>, i: nat, j: nat, stable: nat)
    requires i <= j < |polls|
  {
    Matched(polls[i]) && Matched(polls[j]) && NoReset(polls, i, j) && Height(polls[j]) >= Height(polls[i]) + stable
  }

  ghost predicate HasPair(polls: seq<SyncPoll>, j: nat, stable: nat)
    requires j < |polls|
  {
    exists i: nat :: i <= j && StablePair(polls, i, j, stable)
  }

  /** A window starts so close to 2^64 that its end wraps around. */
  ghost predicate WrapsAt(polls: seq<SyncPoll>, i: nat, stable: nat)
    requires i < |polls|
  {
    WindowStart(polls, i) && Height(polls[i]) + stable >= TWO64
  }

  /** None of the first n polls starts such a window. */
  ghost predicate StartsFit(polls: seq<SyncPoll>, n: nat, stable: nat)
    requires n <= |polls|
  {
    forall i :: 0 <= i < n ==> !WrapsAt(polls, i, stable)
  }

  /** Success at a poll is backed by an earlier matched poll at least stable blocks below, with no readable poll
      in between that was unmatched and behind a reference. */
  lemma SuccessHasStablePair(polls: seq<SyncPoll>, j: nat, stable: nat)
    requires j < |polls| && StartsFit(polls, j + 1, stable) && SucceedsAt(polls, j, stable)
    ensures HasPair(polls, j, stable)
  {
    hide Matched, Reset;
    var i: nat :| i <= j && SucceedsFrom(polls, i, j, stable);
    assert !WrapsAt(polls, i, stable);
    assert StablePair(polls, i, j, stable);
  }

  /** Heights are 64 bits wide. */
  ghost predicate Heights64(polls: seq<SyncPoll>) {
    forall p <- polls :: Matched(p) ==> Height(p) < TWO64
  }

  /** A window start that wraps succeeds on the spot, and nothing can back it. */
  lemma WrappedStart(polls: seq<SyncPoll>, i: nat, stable: nat)
    requires Heights64(polls) && 1 <= stable < TWO64 && i < |polls|
    requires WrapsAt(polls, i, stable)
    ensures SucceedsAt(polls, i, stable) && !HasPair(polls, i, stable)
  {
    hide Matched, Reset;
    assert polls[i] in polls;
    assert SucceedsFrom(polls, i, i, stable);
  }

  /** Every success is backed by such a pair exactly when no window start wraps. */
  lemma BackedExactlyWhen(polls: seq<SyncPoll>, stable: nat)
    requires Heights64(polls) && 1 <= stable < TWO64
    ensures (forall j :: 0 <= j < |polls| && SucceedsAt(polls, j, stable) ==> HasPair(polls, j, stable))
        <==> StartsFit(polls, |polls|, stable)
  {
    hide Matched, Reset, SucceedsAt, HasPair, WrapsAt;
    if StartsFit(polls, |polls|, stable) {
      forall j | 0 <= j < |polls| && SucceedsAt(polls, j, stable)
        ensures HasPair(polls, j, stable)
      {
        SuccessHasStablePair(polls, j, stable);
      }
    }
    forall i | 0 <= i < |polls| && WrapsAt(polls, i, stable)
      ensures SucceedsAt(polls, i, stable) && !HasPair(polls, i, stable)
    {
      WrappedStart(polls, i, stable);
    }
  }

  /** The wait ends at its first success, and that one is backed exactly when the very poll does not start a window
      that wraps. */
  lemma FirstSuccessBackedExactlyWhen(polls: seq<SyncPoll>, j: nat, stable: nat)
    requires Heights64(polls) && 1 <= stable < TWO64 && j < |polls| && SucceedsAt(polls, j, stable)
    requires forall k :: 0 <= k < j ==> !SucceedsAt(polls, k, stable)
    ensures HasPair(polls, j, stable) <==> !WrapsAt(polls, j, stable)
  {
    hide Matched, Reset, HasPair, WrapsAt;
    if WrapsAt(polls, j, stable) {
      WrappedStart(polls, j, stable);
    } else {
      forall i | 0 <= i < j
        ensures !WrapsAt(polls, i, stable)
      {
        if WrapsAt(polls, i, stable) {
          WrappedStart(polls, i, stable);
        }
      }
      SuccessHasStablePair(polls, j, stable);
    }
  }

  /** In the window started at s, matched poll i lies below the start and the later matched poll j above poll i.
      The very last height is apart: no window end is above it. */
  ghost predicate RisesBelowStart(polls: seq<SyncPoll>, s: nat, i: nat, j: nat)
    requires s <= i <= j < |polls|
  {
    && WindowStart(polls, s) && NoReset(polls, s, j) && Matched(polls[i]) && Matched(polls[j])
    && Height(polls[i]) < Height(polls[s]) < TWO64 - 1
    && Height(polls[i]) < Height(polls[j]) < TWO64 - 1
  }

  ghost predicate NoRiseBelowStart(polls: seq<SyncPoll>) {
    forall s, i, j :: 0 <= s <= i <= j < |polls| ==> !RisesBelowStart(polls, s, i, j)
  }

  lemma PairIsEnough(polls: seq<SyncPoll>, j: nat, stable: nat)
    requires Heights64(polls) && NoRiseBelowStart(polls)
    requires j < |polls| && 1 <= stable < TWO64 && HasPair(polls, j, stable)
    ensures SucceedsAt(polls, j, stable)
  {
    hide Matched, Reset;
    var i: nat :| i <= j && StablePair(polls, i, j, stable);
    var s := WindowOf(polls, i);
    assert polls[s] in polls && polls[j] in polls;
    assert !RisesBelowStart(polls, s, i, j);
    assert SucceedsFrom(polls, s, j, stable);
  }

  /** A rise below the start gives a number of blocks for which the pair is there and the test fails. */
  lemma BlockedPair(polls: seq<SyncPoll>, s: nat, i: nat, j: nat) returns (stable: nat)
    requires Heights64(polls) && s <= i <= j < |polls| && RisesBelowStart(polls, s, i, j)
    ensures 1 <= stable < TWO64 && HasPair(polls, j, stable) && !SucceedsAt(polls, j, stable)
  {
    hide Matched, Reset;
    stable := if Height(polls[j]) >= Height(polls[s]) then Height(polls[j]) - Height(polls[s]) + 1 else 1;
    assert StablePair(polls, i, j, stable);
    OneWindow(polls, s, j, stable);
  }

  /** Every such pair, whatever the number of blocks asked for, passes the test at its own poll exactly when no poll
      rises below the start of its window. */
  lemma PairSucceedsExactlyWhen(polls: seq<SyncPoll>)
    requires Heights64(polls)
    ensures (forall j, stable ::
               (0 <= j < |polls| && 1 <= stable < TWO64 && HasPair(polls, j, stable) ==> SucceedsAt(polls, j, stable)))
        <==> NoRiseBelowStart(polls)
  {
    hide Matched, Reset, SucceedsAt, HasPair, RisesBelowStart;
    if NoRiseBelowStart(polls) {
      forall j, stable | 0 <= j < |polls| && 1 <= stable < TWO64 && HasPair(polls, j, stable)
        ensures SucceedsAt(polls, j, stable)
      {
        PairIsEnough(polls, j, stable);
      }
    } else {
      var s, i, j :| 0 <= s <= i <= j < |polls| && RisesBelowStart(polls, s, i, j);
      var stable := BlockedPair(polls, s, i, j);
    }
  }

  /** Matched poll k has gained some blocks, or none, on the start of its window s. */
  ghost predicate Gains(polls: seq<SyncPoll>, s: nat, k: nat, blocks: nat)
    requires s <= k < |polls|
  {
    WindowStart(polls, s) && NoReset(polls, s, k) && Matched(polls[k]) && Height(polls[k]) >= Height(polls[s]) + blocks
  }

  /** Matched poll j is a number of blocks above the earlier matched poll i, with no reset between. */
  ghost predicate Rises(polls: seq<SyncPoll>, i: nat, j: nat, blocks: nat)
    requires i <= j < |polls|
  {
    && Matched(polls[i]) && Matched(polls[j]) && NoReset(polls, i, j)
    && Height(polls[j]) == Height(polls[i]) + blocks
  }

  /** By poll j some poll has gained as many blocks on the start of its window, or at least so many that asking for
      one more wraps at a start. */
  ghost predicate Covered(polls: seq<SyncPoll>, j: nat, blocks: nat)
    requires j < |polls|
  {
    exists s, k, gain: nat :: 0 <= s <= k <= j && Gains(polls, s, k, gain)
      && (gain >= blocks || !StartsFit(polls, j + 1, gain + 1))
  }

  ghost predicate SucceedsBy(polls: seq<SyncPoll>, j: nat, stable: nat)
    requires j < |polls|
  {
    exists k :: 0 <= k <= j && SucceedsAt(polls, k, stable)
  }

  lemma PairRises(polls: seq<SyncPoll>, j: nat, stable: nat) returns (blocks: nat)
    requires j < |polls| && HasPair(polls, j, stable)
    ensures blocks >= stable && exists i :: 0 <= i <= j && Rises(polls, i, j, blocks)
  {
    hide Matched, Reset;
    var i: nat :| i <= j && StablePair(polls, i, j, stable);
    blocks := Height(polls[j]) - Height(polls[i]);
    assert Rises(polls, i, j, blocks);
  }

  lemma RiseHasPairs(polls: seq<SyncPoll>, i: nat, j: nat, blocks: nat, stable: nat)
    requires Heights64(polls) && i <= j < |polls| && Rises(polls, i, j, blocks) && stable <= blocks
    ensures stable < TWO64 && HasPair(polls, j, stable)
  {
    hide Matched, Reset;
    assert polls[j] in polls;
    assert StablePair(polls, i, j, stable);
  }

  lemma StartsSomewhere(polls: seq<SyncPoll>, i: nat, j: nat, blocks: nat) returns (s: nat)
    requires i <= j < |polls| && Rises(polls, i, j, blocks)
    ensures s <= j && Gains(polls, s, s, 0)
  {
    hide Matched, Reset;
    s := WindowOf(polls, i);
  }

  lemma WrapsMore(polls: seq<SyncPoll>, i: nat, a: nat, b: nat)
    requires i < |polls| && WrapsAt(polls, i, a) && a <= b
    ensures WrapsAt(polls, i, b)
  {
    hide Matched, Reset;
  }

  lemma GainSucceeds(polls: seq<SyncPoll>, s: nat, k: nat, gain: nat, stable: nat)
    requires s <= k < |polls| && Gains(polls, s, k, gain) && stable <= gain
    ensures SucceedsAt(polls, k, stable)
  {
    hide Matched, Reset;
    assert SucceedsFrom(polls, s, k, stable);
  }

  lemma CoveredSucceeds(polls: seq<SyncPoll>, j: nat, blocks: nat, stable: nat)
    requires Heights64(polls) && j < |polls| && Covered(polls, j, blocks) && 1 <= stable <= blocks && stable < TWO64
    ensures SucceedsBy(polls, j, stable)
  {
    hide Matched, Reset, NoReset, WindowStart, SucceedsAt, WrapsAt;
    var s, k, gain: nat :| 0 <= s <= k <= j && Gains(polls, s, k, gain)
      && (gain >= blocks || !StartsFit(polls, j + 1, gain + 1));
    if gain >= stable {
      GainSucceeds(polls, s, k, gain, stable);
    } else {
      var i :| 0 <= i < j + 1 && WrapsAt(polls, i, gain + 1);
      WrapsMore(polls, i, gain + 1, stable);
      WrappedStart(polls, i, stable);
    }
  }

  lemma SuccessGains(polls: seq<SyncPoll>, j: nat, n: nat, stable: nat) returns (s: nat)
    requires n <= j < |polls| && StartsFit(polls, j + 1, stable) && SucceedsAt(polls, n, stable)
    ensures s <= n && Gains(polls, s, n, stable)
  {
    hide Matched, Reset;
    s :| 0 <= s <= n && SucceedsFrom(polls, s, n, stable);
    assert !WrapsAt(polls, s, stable);
  }

  /** As long as asking for one block more succeeds without wrapping, more has been gained. */
  lemma {:induction false} Climb(polls: seq<SyncPoll>, j: nat, blocks: nat, s: nat, k: nat, gain: nat)
    requires Heights64(polls) && s <= k <= j < |polls| && Gains(polls, s, k, gain)
    requires forall stable :: 1 <= stable <= blocks ==> SucceedsBy(polls, j, stable)
    ensures Covered(polls, j, blocks)
    decreases blocks - gain
  {
    hide Matched, Reset, NoReset, WindowStart, SucceedsAt, WrapsAt;
    if gain >= blocks || !StartsFit(polls, j + 1, gain + 1) {
      assert Gains(polls, s, k, gain);
    } else {
      assert SucceedsBy(polls, j, gain + 1);
      var n :| 0 <= n <= j && SucceedsAt(polls, n, gain + 1);
      var m := SuccessGains(polls, j, n, gain + 1);
      Climb(polls, j, blocks, m, n, gain + 1);
    }
  }

  /** Every such pair, whatever the number of blocks asked for, makes the wait succeed by its poll exactly when no two
      matched polls rise further than some poll so far has risen above the start of its window - wrapping apart. */
  lemma PairForcesSuccessExactlyWhen(polls: seq<SyncPoll>)
    requires Heights64(polls)
    ensures (forall j, stable ::
               (0 <= j < |polls| && 1 <= stable < TWO64 && HasPair(polls, j, stable) ==> SucceedsBy(polls, j, stable)))
        <==> (forall i, j, blocks: nat ::
               (0 <= i <= j < |polls| && Rises(polls, i, j, blocks) ==> Covered(polls, j, blocks)))
  {
    hide Matched, Reset, HasPair, SucceedsBy, Rises, Covered;
    if forall i, j, blocks: nat ::
         (0 <= i <= j < |polls| && Rises(polls, i, j, blocks) ==> Covered(polls, j, blocks)) {
      forall j, stable | 0 <= j < |polls| && 1 <= stable < TWO64 && HasPair(polls, j, stable)
        ensures SucceedsBy(polls, j, stable)
      {
        var blocks := PairRises(polls, j, stable);
        CoveredSucceeds(polls, j, blocks, stable);
      }
    }
    if forall j, stable ::
         (0 <= j < |polls| && 1 <= stable < TWO64 && HasPair(polls, j, stable) ==> SucceedsBy(polls, j, stable)) {
      forall i, j, blocks: nat | 0 <= i <= j < |polls| && Rises(polls, i, j, blocks)
        ensures Covered(polls, j, blocks)
      {
        forall stable | 1 <= stable <= blocks
          ensures stable < TWO64 && SucceedsBy(polls, j, stable)
        {
          RiseHasPairs(polls, i, j, blocks, stable);
        }
        var s := StartsSomewhere(polls, i, j, blocks);
        Climb(polls, j, blocks, s, s, 0);
      }
    }
  }

  /** Where neither happens, success at a poll is characterised exactly by such a pair. */
  lemma SuccessExactlyWhen(polls: seq<SyncPoll>, j: nat, stable: nat)
    requires Heights64(polls) && j < |polls| && 1 <= stable < TWO64
    requires StartsFit(polls, j + 1, stable) && NoRiseBelowStart(polls)
    ensures SucceedsAt(polls, j, stable) <==> HasPair(polls, j, stable)
  {
    hide Matched, Reset, SucceedsAt, HasPair, StartsFit, NoRiseBelowStart;
    if SucceedsAt(polls, j, stable) {
      SuccessHasStablePair(polls, j, stable);
    }
    if HasPair(polls, j, stable) {
      PairIsEnough(polls, j, stable);
    }
  }

  ghost predicate HeightsNeverFall(polls: seq<SyncPoll>) {
    forall i, j ::
      0 <= i < j < |polls| && Matched(polls[i]) && Matched(polls[j]) ==> Height(polls[i]) <= Height(polls[j])
  }

  /** In particular where the target's height never falls. */
  lemma NeverFallingIsEnough(polls: seq<SyncPoll>)
    requires HeightsNeverFall(polls)
    ensures NoRiseBelowStart(polls)
  {
    hide Matched, Reset;
  }

  function Agreed(height: nat): SyncPoll {
    SyncPoll(0, Some(Head(height, "h")), [Some(Head(height, "h"))])
  }

  /** Both do happen. After a fall of the target a pair need not succeed: the window still counts
      from the higher start. */
  lemma FallDelaysSuccess()
    ensures var polls := [Agreed(10), Agreed(5), Agreed(8)];
      StablePair(polls, 1, 2, 3) && !SucceedsBy(polls, 2, 3)
  {
    var polls := [Agreed(10), Agreed(5), Agreed(8)];
    assert WindowStart(polls, 0);
    forall k | 0 <= k <= 2
      ensures !SucceedsAt(polls, k, 3)
    {
      OneWindow(polls, 0, k, 3);
    }
  }

  /** And near 2^64 the window's end wraps: the first matched poll succeeds at once, with no block gained. */
  lemma WrapSucceedsAtOnce()
    ensures var polls := [Agreed(TWO64 - 1)];
      SucceedsAt(polls, 0, 1) && !HasPair(polls, 0, 1)
  {
    var polls := [Agreed(TWO64 - 1)];
    assert SucceedsFrom(polls, 0, 0, 1);
  }

  // ---------- progress ----------

  /** What the stall watch sees of one round: the height read, if any, and the clock when progress is noted. */
  datatype Tick = Tick(height: Option<nat>, progressAt: int)

  /** The running maximum after the first n rounds. */
  function RunMax(first: nat, ticks: seq<Tick>, n: nat): nat
    requires n <= |ticks|
  {
    if n == 0 then first
    else
      var m, h := RunMax(first, ticks, n - 1), ticks[n - 1].height;
      if h.Some? && h.value > m then h.value else m
  }

  predicate Progress(first: nat, ticks: seq<Tick>, i: nat)
    requires i < |ticks|
  {
    ticks[i].height.Some? && ticks[i].height.value > RunMax(first, ticks, i)
  }

  /** The last progress mark after the first n rounds. */
  function Mark(begun: int, first: nat, ticks: seq<Tick>, n: nat): int
    requires n <= |ticks|
  {
    if n == 0 then begun
    else if Progress(first, ticks, n - 1) then ticks[n - 1].progressAt
    else Mark(begun, first, ticks, n - 1)
  }

  lemma TickStep(begun: int, first: nat, ticks: seq<Tick>, k: nat)
    requires k < |ticks|
    ensures var h, m := ticks[k].height, RunMax(first, ticks, k);
      if h.Some? && h.value > m
      then RunMax(first, ticks, k + 1) == h.value && Mark(begun, first, ticks, k + 1) == ticks[k].progressAt
      else RunMax(first, ticks, k + 1) == m && Mark(begun, first, ticks, k + 1) == Mark(begun, first, ticks, k)
  {
  }

  lemma NoTicks(begun: int, first: nat, ticks: seq<Tick>)
    ensures RunMax(first, ticks, 0) == first && Mark(begun, first, ticks, 0) == begun
  {
  }

  /** The number of rounds up to the one that set the mark. */
  function MarkedRound(first: nat, ticks: seq<Tick>, n: nat): (m: nat)
    requires n <= |ticks|
    ensures m <= n
  {
    if n == 0 then 0 else if Progress(first, ticks, n - 1) then n else MarkedRound(first, ticks, n - 1)
  }

  /** Since the mark, no observation has exceeded the running maximum, and it has not moved. */
  lemma {:induction false} NoProgressSinceMark(begun: int, first: nat, ticks: seq<Tick>, n: nat)
    requires n <= |ticks|
    ensures var m := MarkedRound(first, ticks, n);
      && Mark(begun, first, ticks, n) == (if m == 0 then begun else ticks[m - 1].progressAt)
      && RunMax(first, ticks, n) == RunMax(first, ticks, m)
      && (m > 0 ==> ticks[m - 1].height == Some(RunMax(first, ticks, m)))
      && (m > 0 ==> RunMax(first, ticks, m) > RunMax(first, ticks, m - 1))
      && (m == 0 ==> RunMax(first, ticks, n) == first)
      && (forall i {:trigger ticks[i]} ::
            0 <= i < n && ticks[i].height.Some? ==> ticks[i].height.value <= RunMax(first, ticks, n))
      && first <= RunMax(first, ticks, n)
  {
    if n == 0 {
    } else {
      NoProgressSinceMark(begun, first, ticks, n - 1);
    }
  }

  // ---------- WaitUntilHeightOrStall ----------

  datatype HeightSample = HeightSample(height: nat, error: bool)

  /** ObserveHeights' maximum over the samples without error; 0 when there is none. */
  function MaxHeight(samples: seq<HeightSample>): nat {
    if samples == [] then 0
    else
      var m, last := MaxHeight(samples[..|samples| - 1]), samples[|samples| - 1];
      if !last.error && last.height > m then last.height else m
  }

  lemma {:induction false} MaxHeightMeans(samples: seq<HeightSample>)
    ensures forall s <- samples :: !s.error ==> s.height <= MaxHeight(samples)
    ensures MaxHeight(samples) > 0 ==> HeightSample(MaxHeight(samples), false) in samples
  {
    if samples == [] {
    } else {
      var init, last := samples[..|samples| - 1], samples[|samples| - 1];
      MaxHeightMeans(init);
      assert samples == init + [last];
    }
  }

  method ObservedMax(samples: seq<HeightSample>) returns (maxHeight: nat)
    ensures maxHeight == MaxHeight(samples)
    ensures forall s <- samples :: !s.error ==> s.height <= maxHeight
    ensures maxHeight > 0 ==> HeightSample(maxHeight, false) in samples
  {
    maxHeight := 0;
    for i := 0 to |samples|
      invariant maxHeight == MaxHeight(samples[..i])
      invariant forall s <- samples[..i] :: !s.error ==> s.height <= maxHeight
      invariant maxHeight > 0 ==> HeightSample(maxHeight, false) in samples[..i]
    {
      assert samples[..i + 1][..i] == samples[..i] && samples[..i + 1] == samples[..i] + [samples[i]];
      if !samples[i].error && samples[i].height > maxHeight {
        maxHeight := samples[i].height;
      }
    }
    assert samples[..|samples|] == samples;
  }

  /** One round: the clock at the loop test, the samples, and the clock when progress is noted
      and when the stall is tested. */
  datatype Round = Round(checkedAt: int, samples: seq<HeightSample>, progressAt: int, stallAt: int)

  function Ticks(rounds: seq<Round>): (t: seq<Tick>)
    ensures |t| == |rounds|
    ensures forall i :: 0 <= i < |rounds| ==> t[i] == Tick(Some(MaxHeight(rounds[i].samples)), rounds[i].progressAt)
  {
    seq(|rounds|, i requires 0 <= i < |rounds| => Tick(Some(MaxHeight(rounds[i].samples)), rounds[i].progressAt))
  }

  datatype StallOutcome = Reached(height: nat) | NoSamples | ReadFailed | Stalled | TimedOut | Pending

  /** The arguments, the clock at the start, and the first look at the chain. */
  datatype StallWait = StallWait(
    target: nat, stallTimeout: int, overallTimeout: int, start: int, begun: int, initial: seq<HeightSample>)

  const SECOND: int := 1_000_000_000

  function StallTimeout(w: StallWait): int {
    if w.stallTimeout <= 0 then 15 * SECOND else w.stallTimeout
  }

  function OverallTimeout(w: StallWait): int {
    if w.overallTimeout <= 0 then 120 * SECOND else w.overallTimeout
  }

  function First(w: StallWait): nat {
    MaxHeight(w.initial)
  }

  predicate Open(w: StallWait, r: Round) {
    r.checkedAt - w.start < OverallTimeout(w)
  }

  predicate Hit(w: StallWait, r: Round) {
    MaxHeight(r.samples) >= w.target
  }

  predicate StallsAt(w: StallWait, rounds: seq<Round>, i: nat)
    requires i < |rounds|
  {
    rounds[i].stallAt - Mark(w.begun, First(w), Ticks(rounds), i + 1) >= StallTimeout(w)
  }

  /** Round i neither ends the loop nor is kept from starting. */
  predicate Continues(w: StallWait, rounds: seq<Round>, i: nat)
    requires i < |rounds|
  {
    Open(w, rounds[i]) && !Hit(w, rounds[i]) && !StallsAt(w, rounds, i)
  }

  /** WaitUntilHeightOrStall. The outcome is fixed by the first look, or else by the first round that does
      not continue: its clock has run out, or it reaches the target, or it finds the chain stalled. */
  method WaitUntilHeightOrStall(w: StallWait, rounds: seq<Round>) returns (out: StallOutcome, k: nat)
    ensures w.initial == [] <==> out == NoSamples
    ensures out == ReadFailed <==> w.initial != [] && First(w) == 0 && exists s <- w.initial :: s.error
    ensures out.Reached? ==> out.height >= w.target
    ensures out.NoSamples? || out.ReadFailed? || First(w) >= w.target ==> k == 0
    ensures out.Reached? && First(w) >= w.target ==> out.height == First(w)
    ensures k <= |rounds| && forall i :: 0 <= i < k ==> Continues(w, rounds, i)
    ensures !out.NoSamples? && !out.ReadFailed? && First(w) >= w.target ==> out.Reached?
    ensures !out.NoSamples? && !out.ReadFailed? && First(w) < w.target ==>
      if k == |rounds| then out == Pending
      else if !Open(w, rounds[k]) then out == TimedOut
      else if Hit(w, rounds[k]) then out == Reached(MaxHeight(rounds[k].samples))
      else StallsAt(w, rounds, k) && out == Stalled
  {
    hide MaxHeight;
    k := 0;
    if |w.initial| == 0 {
      return NoSamples, 0;
    }
    var lastHeight := ObservedMax(w.initial);
    var lastProgress := w.begun;
    if lastHeight == 0 {
      var failed := false;
      for i := 0 to |w.initial|
        invariant failed <==> exists s <- w.initial[..i] :: s.error
      {
        assert w.initial[..i + 1] == w.initial[..i] + [w.initial[i]];
        if w.initial[i].error {
          failed := true;
        }
      }
      assert w.initial[..|w.initial|] == w.initial;
      if failed {
        return ReadFailed, 0;
      }
    }
    if lastHeight >= w.target {
      return Reached(lastHeight), 0;
    }
    hide RunMax, Mark;
    NoTicks(w.begun, First(w), Ticks(rounds));
    while k < |rounds| && rounds[k].checkedAt - w.start < OverallTimeout(w)
      invariant k <= |rounds| && forall i :: 0 <= i < k ==> Continues(w, rounds, i)
      invariant lastHeight == RunMax(First(w), Ticks(rounds), k)
      invariant lastProgress == Mark(w.begun, First(w), Ticks(rounds), k)
    {
      TickStep(w.begun, First(w), Ticks(rounds), k);
      var current := ObservedMax(rounds[k].samples);
      if current >= w.target {
        return Reached(current), k;
      }
      if current > lastHeight {
        lastHeight, lastProgress := current, rounds[k].progressAt;
      }
      if rounds[k].stallAt - lastProgress >= StallTimeout(w) {
        return Stalled, k;
      }
      k := k + 1;
    }
    out := if k < |rounds| then TimedOut else Pending;
  }

  lemma {:induction false} BelowTarget(w: StallWait, rounds: seq<Round>, n: nat)
    requires n <= |rounds| && First(w) < w.target && forall i :: 0 <= i < n ==> !Hit(w, rounds[i])
    ensures RunMax(First(w), Ticks(rounds), n) < w.target
  {
    hide MaxHeight;
    if n == 0 {
    } else {
      BelowTarget(w, rounds, n - 1);
    }
  }

  /** What a round's clock and samples mean: two minutes are allowed if no limit is given, and one sample without error
      at or above the target is enough. */
  lemma RoundMeans(w: StallWait, r: Round)
    ensures Open(w, r) <==> r.checkedAt - w.start < if w.overallTimeout <= 0 then 120_000_000_000 else w.overallTimeout
    ensures Hit(w, r) <==> w.target == 0 || exists s :: s in r.samples && !s.error && s.height >= w.target
  {
    hide MaxHeight;
    MaxHeightMeans(r.samples);
  }

  /** A round stalls exactly when the mark - the start, or the last round that raised the maximum - is at least the
      stall timeout old, fifteen seconds if none is given. */
  lemma StallsExactlyWhen(w: StallWait, rounds: seq<Round>, k: nat)
    requires k < |rounds|
    ensures var m := MarkedRound(First(w), Ticks(rounds), k + 1);
      StallsAt(w, rounds, k) <==>
        rounds[k].stallAt - (if m == 0 then w.begun else rounds[m - 1].progressAt)
        >= if w.stallTimeout <= 0 then 15_000_000_000 else w.stallTimeout
  {
    hide RunMax, Mark, MaxHeight;
    NoProgressSinceMark(w.begun, First(w), Ticks(rounds), k + 1);
  }

  /** A stall report is faithful: no observation since the last progress mark exceeded the running maximum,
      the mark is at least the stall timeout old, and the maximum - every observation so far - is below the target. */
  lemma StallIsFaithful(w: StallWait, rounds: seq<Round>, k: nat)
    requires k < |rounds| && First(w) < w.target && StallsAt(w, rounds, k) && !Hit(w, rounds[k])
    requires forall i :: 0 <= i < k ==> Continues(w, rounds, i)
    ensures var top, m := RunMax(First(w), Ticks(rounds), k + 1), MarkedRound(First(w), Ticks(rounds), k + 1);
      && top < w.target
      && (forall i :: 0 <= i <= k ==> MaxHeight(rounds[i].samples) <= top)
      && top == RunMax(First(w), Ticks(rounds), m)
      && rounds[k].stallAt - (if m == 0 then w.begun else rounds[m - 1].progressAt) >= StallTimeout(w)
  {
    hide MaxHeight, RunMax, Mark;
    NoProgressSinceMark(w.begun, First(w), Ticks(rounds), k + 1);
    forall i | 0 <= i < k + 1
      ensures !Hit(w, rounds[i])
    {
      assert i < k ==> Continues(w, rounds, i);
    }
    BelowTarget(w, rounds, k + 1);
    forall i | 0 <= i <= k
      ensures MaxHeight(rounds[i].samples) <= RunMax(First(w), Ticks(rounds), k + 1)
    {
      assert Ticks(rounds)[i].height.Some?;
    }
  }

  /** The clock advances by at least one poll interval from round to round. */
  ghost predicate ClockAdvances(w: StallWait, rounds: seq<Round>, poll: int) {
    (rounds != [] ==> rounds[0].checkedAt >= w.start)
    && forall i {:trigger rounds[i]} :: 0 < i < |rounds| ==> rounds[i].checkedAt >= rounds[i - 1].checkedAt + poll
  }

  lemma {:induction false} ClockAt(w: StallWait, rounds: seq<Round>, poll: int, i: nat)
    requires ClockAdvances(w, rounds, poll) && poll > 0 && i < |rounds|
    ensures rounds[i].checkedAt - w.start >= i * poll
  {
    if i == 0 {
    } else {
      ClockAt(w, rounds, poll, i - 1);
      assert i * poll == (i - 1) * poll + poll;
    }
  }

  lemma PositiveFactor(a: int, b: int)
    requires b > 0 && a * b > 0
    ensures a > 0
  {
  }

  lemma QuotientBound(n: nat, x: int, poll: int)
    requires poll > 0 && n * poll < x
    ensures n <= x / poll
  {
    var q := x / poll;
    assert x == q * poll + x % poll;
    assert (q + 1 - n) * poll == q * poll + poll - n * poll;
    PositiveFactor(q + 1 - n, poll);
  }

  /** With such a clock the loop goes through at most overallTimeout / poll + 1 rounds, whatever it observes. */
  lemma WaitIsBounded(w: StallWait, rounds: seq<Round>, poll: int, k: nat)
    requires ClockAdvances(w, rounds, poll) && poll > 0
    requires k <= |rounds| && forall i :: 0 <= i < k ==> Continues(w, rounds, i)
    ensures k <= (if w.overallTimeout <= 0 then 120_000_000_000 else w.overallTimeout) / poll + 1
  {
    if k > 0 {
      ClockAt(w, rounds, poll, k - 1);
      assert Continues(w, rounds, k - 1);
      QuotientBound(k - 1, OverallTimeout(w), poll);
    }
  }

  // ---------- WaitForJailTransitionOrStall ----------

  /** One round: the clocks, the block number if readable, and the punish record and jail flag read at it. */
  datatype JailPoll = JailPoll(
    checkedAt: int, height: Option<nat>, record: Option<int>, jailed: Option<bool>, progressAt: int, stallAt: int)

  function JailTicks(polls: seq<JailPoll>): (t: seq<Tick>)
    ensures |t| == |polls| && forall i :: 0 <= i < |polls| ==> t[i] == Tick(polls[i].height, polls[i].progressAt)
  {
    seq(|polls|, i requires 0 <= i < |polls| => Tick(polls[i].height, polls[i].progressAt))
  }

  datatype JailWait = JailWait(
    startHeight: nat, deadline: nat, stallTimeout: int, start: int, begun: int, first: Option<nat>)

  function JailStart(w: JailWait): nat {
    if w.startHeight == 0 then 1 else w.startHeight
  }

  function JailDeadline(w: JailWait): nat {
    if w.deadline < JailStart(w) then JailStart(w) else w.deadline
  }

  /** LongWindowTimeout, in 64-bit nanoseconds. */
  function LongWindowTimeout(blocks: nat): int {
    var b := if blocks < 1 then 1 else blocks;
    Wrap64(Wrap64(Wrap64(Wrap64(b) * 6) * SECOND) + 120 * SECOND)
  }

  function JailOverallTimeout(w: JailWait): int {
    LongWindowTimeout(AddU64(JailDeadline(w) - JailStart(w), 1))
  }

  predicate JailOpen(w: JailWait, p: JailPoll) {
    p.checkedAt - w.start < JailOverallTimeout(w)
  }

  predicate InWindow(w: JailWait, p: JailPoll) {
    p.height.Some? && p.height.value >= JailStart(w)
  }

  /** Jailed, and the record reset to zero: both read, at the same height. */
  predicate Transitioned(w: JailWait, p: JailPoll) {
    InWindow(w, p) && p.record == Some(0) && p.jailed == Some(true)
  }

  predicate Missed(w: JailWait, p: JailPoll) {
    InWindow(w, p) && !Transitioned(w, p) && p.height.value >= JailDeadline(w)
  }

  predicate JailStalls(w: JailWait, polls: seq<JailPoll>, i: nat)
    requires i < |polls| && w.first.Some?
  {
    polls[i].stallAt - Mark(w.begun, w.first.value, JailTicks(polls), i + 1)
      >= if w.stallTimeout <= 0 then 15 * SECOND else w.stallTimeout
  }

  predicate JailContinues(w: JailWait, polls: seq<JailPoll>, i: nat)
    requires i < |polls| && w.first.Some?
  {
    JailOpen(w, polls[i]) && !Transitioned(w, polls[i]) && !Missed(w, polls[i]) && !JailStalls(w, polls, i)
  }

  datatype JailOutcome = Jailed(height: nat) | JailReadFailed | DeadlineMissed | JailStalled | JailTimeout | JailPending

  /** WaitForJailTransitionOrStall: the first poll that does not continue decides. */
  method WaitForJailTransitionOrStall(w: JailWait, polls: seq<JailPoll>) returns (out: JailOutcome, k: nat)
    ensures w.first.None? <==> out == JailReadFailed
    ensures k <= |polls| && (w.first.None? ==> k == 0)
    ensures w.first.Some? ==> forall i :: 0 <= i < k ==> JailContinues(w, polls, i)
    ensures out.Jailed? ==> out.height >= JailStart(w)
    ensures w.first.Some? ==>
      if k == |polls| then out == JailPending
      else if !JailOpen(w, polls[k]) then out == JailTimeout
      else if Transitioned(w, polls[k]) then out == Jailed(polls[k].height.value)
      else if Missed(w, polls[k]) then out == DeadlineMissed
      else JailStalls(w, polls, k) && out == JailStalled
  {
    k := 0;
    if w.first.None? {
      return JailReadFailed, 0;
    }
    var startHeight := if w.startHeight == 0 then 1 else w.startHeight;
    var deadline := if w.deadline < startHeight then startHeight else w.deadline;
    var stallTimeout := if w.stallTimeout <= 0 then 15 * SECOND else w.stallTimeout;
    var overallTimeout := LongWindowTimeout(AddU64(deadline - startHeight, 1));
    var lastHeight, lastProgress := w.first.value, w.begun;
    hide LongWindowTimeout, AddU64, Wrap64, RunMax, Mark, JailTicks;
    NoTicks(w.begun, w.first.value, JailTicks(polls));
    while k < |polls| && polls[k].checkedAt - w.start < overallTimeout
      invariant k <= |polls| && forall i :: 0 <= i < k ==> JailContinues(w, polls, i)
      invariant lastHeight == RunMax(w.first.value, JailTicks(polls), k)
      invariant lastProgress == Mark(w.begun, w.first.value, JailTicks(polls), k)
    {
      var p := polls[k];
      TickStep(w.begun, w.first.value, JailTicks(polls), k);
      if p.height.Some? {
        var current := p.height.value;
        if current > lastHeight {
          lastHeight, lastProgress := current, p.progressAt;
        }
        if current >= startHeight {
          if p.record.Some? && p.jailed.Some? && p.jailed.value && p.record.value == 0 {
            return Jailed(current), k;
          }
          if current >= deadline {
            return DeadlineMissed, k;
          }
        }
      }
      if p.stallAt - lastProgress >= stallTimeout {
        return JailStalled, k;
      }
      k := k + 1;
    }
    out := if k < |polls| then JailTimeout else JailPending;
  }

  const MAX_NANOS: int := 0x7fff_ffff_ffff_ffff

  /** Without overflow the wait of a window of blocks is six seconds a block and two minutes. */
  lemma WindowTimeout(blocks: nat)
    requires 1 <= blocks && 6_000_000_000 * blocks + 120_000_000_000 <= MAX_NANOS
    ensures LongWindowTimeout(blocks) == 6_000_000_000 * blocks + 120_000_000_000
    ensures LongWindowTimeout(0) == LongWindowTimeout(1)
  {
  }

  /** What one poll of the jail wait can be: a success, a missed deadline, or on time. */
  lemma PollMeans(w: JailWait, p: JailPoll)
    ensures Transitioned(w, p) <==>
      && p.height.Some? && p.height.value >= 1 && p.height.value >= w.startHeight
      && p.record == Some(0) && p.jailed == Some(true)
    ensures Missed(w, p) <==>
      && p.height.Some? && p.height.value >= 1 && p.height.value >= w.startHeight && p.height.value >= w.deadline
      && !(p.record == Some(0) && p.jailed == Some(true))
    ensures JailOpen(w, p) <==>
      var start := if w.startHeight == 0 then 1 else w.startHeight;
      p.checkedAt - w.start < LongWindowTimeout(AddU64((if w.deadline < start then start else w.deadline) - start, 1))
  {
    hide LongWindowTimeout, AddU64;
  }

  /** And it stalls exactly when the mark is at least the stall timeout old, fifteen seconds if none is given. */
  lemma JailStallsExactlyWhen(w: JailWait, polls: seq<JailPoll>, k: nat)
    requires w.first.Some? && k < |polls|
    ensures var m := MarkedRound(w.first.value, JailTicks(polls), k + 1);
      JailStalls(w, polls, k) <==>
        polls[k].stallAt - (if m == 0 then w.begun else polls[m - 1].progressAt)
        >= if w.stallTimeout <= 0 then 15_000_000_000 else w.stallTimeout
  {
    hide RunMax, Mark;
    NoProgressSinceMark(w.begun, w.first.value, JailTicks(polls), k + 1);
  }

  /** What an ending at poll k says about the polls before it: every readable one at or above the start was below
      the deadline and not in the jailed-and-reset state. So a success is the first poll that shows the state. */
  lemma EarlierPolls(w: JailWait, polls: seq<JailPoll>, k: nat, i: nat)
    requires w.first.Some? && i < k <= |polls| && forall j :: 0 <= j < k ==> JailContinues(w, polls, j)
    ensures InWindow(w, polls[i]) ==>
      && JailStart(w) <= polls[i].height.value < JailDeadline(w)
      && !(polls[i].record == Some(0) && polls[i].jailed == Some(true))
  {
    hide LongWindowTimeout;
    assert JailContinues(w, polls, i);
  }

  /** No run goes through two polls that read a height at or past the deadline: the first of them ends it. */
  lemma AtMostOneDeadlinePoll(w: JailWait, polls: seq<JailPoll>, k: nat, i: nat, j: nat)
    requires w.first.Some? && k < |polls| && forall n :: 0 <= n < k ==> JailContinues(w, polls, n)
    requires i <= k && polls[i].height.Some? && polls[i].height.value >= JailDeadline(w)
    requires j <= k && polls[j].height.Some? && polls[j].height.value >= JailDeadline(w)
    ensures i == j == k
  {
    hide LongWindowTimeout;
    if i < k {
      EarlierPolls(w, polls, k, i);
    }
    if j < k {
      EarlierPolls(w, polls, k, j);
    }
  }

  /** A stalled jail wait is as faithful as the height wait: nothing read since the mark exceeded the maximum. */
  lemma JailStallIsFaithful(w: JailWait, polls: seq<JailPoll>, k: nat)
    requires w.first.Some? && k < |polls| && JailStalls(w, polls, k)
    ensures var ticks := JailTicks(polls);
      var top, m := RunMax(w.first.value, ticks, k + 1), MarkedRound(w.first.value, ticks, k + 1);
      && (forall i :: 0 <= i <= k && polls[i].height.Some? ==> polls[i].height.value <= top)
      && top == RunMax(w.first.value, JailTicks(polls), m)
      && polls[k].stallAt - (if m == 0 then w.begun else polls[m - 1].progressAt)
         >= if w.stallTimeout <= 0 then 15 * SECOND else w.stallTimeout
  {
    var ticks := JailTicks(polls);
    NoProgressSinceMark(w.begun, w.first.value, ticks, k + 1);
    forall i | 0 <= i <= k && polls[i].height.Some?
      ensures polls[i].height.value <= RunMax(w.first.value, ticks, k + 1)
    {
      assert ticks[i].height.Some?;
    }
  }
}
