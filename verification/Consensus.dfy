/** The consensus observers of internal/testkit/consensus_liveness.go: fork conflicts among head samples,
    in-turn signers, the competing-block window, and the backwards log scan. */
module Consensus {
  import opened Text
  import opened Numerals
  import opened Sorting

  // ---------- SameHeightHashConflicts ----------

  /** A block hash as its hexadecimal text, which Hash.Hex renders in lower case. */
  type Hash = h: string | IsLower(h) witness ""

  datatype HeadSample = HeadSample(name: string, url: string, height: nat, hash: Hash, error: string)

  datatype Conflict = Conflict(height: nat, hashes: seq<Hash>, participants: seq<string>)

  predicate Usable(s: HeadSample) {
    s.error == "" && s.height != 0
  }

  function LabelOf(s: HeadSample): string {
    if s.name == "" then s.url else s.name
  }

  predicate HashLe(a: Hash, b: Hash) {
    TextLe(Lower(a), Lower(b))
  }

  predicate UsableAt(s: HeadSample, height: nat) {
    Usable(s) && s.height == height
  }

  /** The distinct hashes seen at a height. */
  function HashesAt(samples: seq<HeadSample>, height: nat): set<Hash> {
    set s | s in samples && UsableAt(s, height) :: s.hash
  }

  /** The labels of the samples at a height, in the order sampled. */
  function LabelsAt(samples: seq<HeadSample>, height: nat): seq<string> {
    if samples == [] then []
    else
      var last := samples[|samples| - 1];
      LabelsAt(samples[..|samples| - 1], height) + if UsableAt(last, height) then [LabelOf(last)] else []
  }

  /** Two error-free samples at one non-zero height disagree on the hash. */
  ghost predicate Disagree(samples: seq<HeadSample>, height: nat) {
    exists s, t :: s in samples && t in samples && UsableAt(s, height) && UsableAt(t, height) && s.hash != t.hash
  }

  ghost predicate Describes(c: Conflict, samples: seq<HeadSample>) {
    && SortedBy(c.hashes, HashLe) && Distinct(c.hashes)
    && (forall x: Hash :: x in c.hashes <==> x in HashesAt(samples, c.height))
    && SortedBy(c.participants, TextLe) && multiset(c.participants) == multiset(LabelsAt(samples, c.height))
  }

  /** What a conflict list must say about the samples: soundness and completeness in the heights, and per height
      exactly the distinct hashes and exactly the labels, both sorted. */
  ghost predicate Reports(out: seq<Conflict>, samples: seq<HeadSample>) {
    && (forall i, j :: 0 <= i < j < |out| ==> out[i].height < out[j].height)
    && (forall c <- out :: Disagree(samples, c.height))
    && (forall h: nat :: Disagree(samples, h) ==> exists c :: c in out && c.height == h)
    && (forall c <- out :: Describes(c, samples))
  }

  lemma HashOrder()
    ensures TotalPreorder<Hash>(HashLe) && Antisymmetric<Hash>(HashLe)
  {
    hide TextLe;
    TextOrder();
    forall a: Hash
      ensures Lower(a) == a
    {
      LowerLower(a);
    }
  }

  datatype Bucket = Bucket(hashes: set<Hash>, participants: seq<string>)

  lemma SubsetSize(a: set<Hash>, b: set<Hash>)
    requires a <= b
    ensures |a| <= |b|
  {
    assert |b - a| + |a| == |b|;
  }

  lemma ManyHashes(samples: seq<HeadSample>, height: nat)
    ensures |HashesAt(samples, height)| > 1 <==> Disagree(samples, height)
  {
    var hashes := HashesAt(samples, height);
    if Disagree(samples, height) {
      var s, t :| s in samples && t in samples && UsableAt(s, height) && UsableAt(t, height) && s.hash != t.hash;
      assert {s.hash, t.hash} <= hashes;
      SubsetSize({s.hash, t.hash}, hashes);
    }
    if |hashes| > 1 {
      var x: Hash :| x in hashes;
      assert hashes != {x};
      var y: Hash :| y in hashes && y != x;
      var s :| s in samples && UsableAt(s, height) && s.hash == x;
      var t :| t in samples && UsableAt(t, height) && t.hash == y;
    }
  }

  ghost predicate SeenAt(samples: seq<HeadSample>, height: nat) {
    exists s :: s in samples && UsableAt(s, height)
  }

  lemma NothingSeen()
    ensures forall h: nat :: !SeenAt([], h)
  {
  }

  lemma AddSample(before: seq<HeadSample>, s: HeadSample)
    ensures forall h: nat :: HashesAt(before + [s], h) == HashesAt(before, h) + if UsableAt(s, h) then {s.hash} else {}
    ensures forall h: nat ::
      LabelsAt(before + [s], h) == LabelsAt(before, h) + if UsableAt(s, h) then [LabelOf(s)] else []
    ensures forall h: nat :: SeenAt(before + [s], h) <==> SeenAt(before, h) || UsableAt(s, h)
  {
    var after := before + [s];
    assert after[..|before|] == before;
    assert forall x :: x in after <==> x in before || x == s;
  }

  lemma {:induction false} NewBucket(samples: seq<HeadSample>, height: nat)
    ensures !SeenAt(samples, height) ==> HashesAt(samples, height) == {} && LabelsAt(samples, height) == []
  {
    if samples == [] {
    } else {
      var n := |samples| - 1;
      NewBucket(samples[..n], height);
      assert samples[n] in samples && forall s <- samples[..n] :: s in samples;
    }
  }

  /** Filling the buckets, one per height with a usable sample. */
  method FillBuckets(samples: seq<HeadSample>) returns (byHeight: map<nat, Bucket>)
    ensures forall h: nat :: h in byHeight <==> SeenAt(samples, h)
    ensures forall h: nat :: h in byHeight ==> byHeight[h] == Bucket(HashesAt(samples, h), LabelsAt(samples, h))
  {
    hide SeenAt, HashesAt, LabelsAt, LabelOf;
    byHeight := map[];
    NothingSeen();
    for i := 0 to |samples|
      invariant forall h: nat :: h in byHeight <==> SeenAt(samples[..i], h)
      invariant forall h: nat ::
        h in byHeight ==> byHeight[h] == Bucket(HashesAt(samples[..i], h), LabelsAt(samples[..i], h))
    {
      var sample := samples[i];
      AddSample(samples[..i], sample);
      assert samples[..i + 1] == samples[..i] + [sample];
      if !Usable(sample) {
        continue;
      }
      var entry := if sample.height in byHeight then byHeight[sample.height] else Bucket({}, []);
      NewBucket(samples[..i], sample.height);
      byHeight :=
        byHeight[sample.height := Bucket(entry.hashes + {sample.hash}, entry.participants + [LabelOf(sample)])];
    }
    assert samples[..|samples|] == samples;
  }

  /** The sorted hashes of a bucket: ranged over in any order, then sorted. */
  method SortedHashes(hashes: set<Hash>) returns (sorted: seq<Hash>)
    ensures SortedBy(sorted, HashLe) && Distinct(sorted) && forall x: Hash :: x in sorted <==> x in hashes
  {
    hide HashLe, Sort;
    var listed: seq<Hash> := [];
    var todo := hashes;
    while todo != {}
      invariant todo <= hashes && Distinct(listed)
      invariant forall x: Hash :: x in listed <==> x in hashes && x !in todo
      decreases |todo|
    {
      var x: Hash :| x in todo;
      todo := todo - {x};
      listed := listed + [x];
    }
    sorted := Sort(listed, HashLe);
    HashOrder();
    SortSorted<Hash>(listed, HashLe);
    DistinctPermuted<Hash>(listed, sorted);
    forall x: Hash
      ensures x in sorted <==> x in listed
    {
      InMultiset(sorted, listed, x);
    }
  }

  predicate HeightLe(a: Conflict, b: Conflict) {
    a.height <= b.height
  }

  lemma DisagreeingAreSeen(samples: seq<HeadSample>, h: nat)
    requires Disagree(samples, h)
    ensures SeenAt(samples, h)
  {
  }

  lemma DescribesBucket(c: Conflict, samples: seq<HeadSample>, entry: Bucket)
    requires entry == Bucket(HashesAt(samples, c.height), LabelsAt(samples, c.height))
    requires SortedBy(c.hashes, HashLe) && Distinct(c.hashes) && forall x: Hash :: x in c.hashes <==> x in entry.hashes
    requires c.participants == Sort(entry.participants, TextLe)
    ensures Describes(c, samples)
  {
    hide HashesAt, LabelsAt, TextLe, HashLe;
    TextOrder();
    SortSorted(entry.participants, TextLe);
  }

  lemma {:induction false} LabelsMean(samples: seq<HeadSample>, height: nat, p: string)
    requires height != 0
    ensures p in LabelsAt(samples, height) <==>
      exists s :: s in samples && s.error == "" && s.height == height && p == if s.name != "" then s.name else s.url
  {
    if samples == [] {
    } else {
      var init, last := samples[..|samples| - 1], samples[|samples| - 1];
      LabelsMean(init, height, p);
      assert samples == init + [last];
    }
  }

  /** What a report says, in terms of the samples alone. */
  lemma ReportMeans(out: seq<Conflict>, samples: seq<HeadSample>, h: nat)
    requires Reports(out, samples)
    ensures (exists c :: c in out && c.height == h) <==>
      h != 0 && exists s, t :: s in samples && t in samples && s.error == "" && t.error == ""
                               && s.height == h && t.height == h && s.hash != t.hash
    ensures forall c, x: Hash :: c in out ==>
      (x in c.hashes <==> exists s :: s in samples && s.error == "" && s.height == c.height && s.hash == x)
    ensures forall c, p :: c in out ==>
      (p in c.participants <==>
        exists s :: s in samples && s.error == "" && s.height == c.height
                    && p == if s.name != "" then s.name else s.url)
    ensures forall c <- out :: |c.participants| == |LabelsAt(samples, c.height)|
    ensures forall c <- out, i, j :: 0 <= i < j < |c.participants| ==> TextLe(c.participants[i], c.participants[j])
    ensures forall c <- out, i, j :: 0 <= i < j < |c.hashes| ==>
      c.hashes[i] != c.hashes[j] && TextLe(Lower(c.hashes[i]), Lower(c.hashes[j]))
  {
    hide TextLe, LabelsAt;
    assert (exists c :: c in out && c.height == h) <==> Disagree(samples, h);
    forall c, p | c in out
      ensures p in c.participants <==>
        exists s :: s in samples && s.error == "" && s.height == c.height && p == if s.name != "" then s.name else s.url
    {
      InMultiset(c.participants, LabelsAt(samples, c.height), p);
      assert c.height != 0;
      LabelsMean(samples, c.height, p);
    }
    forall c | c in out
      ensures |c.participants| == |LabelsAt(samples, c.height)|
    {
      assert |multiset(c.participants)| == |multiset(LabelsAt(samples, c.height))|;
    }
  }

  lemma StillApart(a: seq<Conflict>, b: seq<Conflict>, i: nat, j: nat)
    requires forall i, j :: 0 <= i < j < |a| ==> a[i].height != a[j].height
    requires multiset(a) == multiset(b) && i < j < |b|
    ensures b[i].height != b[j].height
  {
    assert Distinct(a);
    DistinctPermuted(a, b);
    InMultiset(b, a, b[i]);
    InMultiset(b, a, b[j]);
    assert b[i] in b && b[j] in b;
    var p :| 0 <= p < |a| && a[p] == b[i];
    var q :| 0 <= q < |a| && a[q] == b[j];
    assert p < q || q < p;
  }

  method SortByHeight(found: seq<Conflict>) returns (out: seq<Conflict>)
    requires forall i, j :: 0 <= i < j < |found| ==> found[i].height != found[j].height
    ensures forall i, j :: 0 <= i < j < |out| ==> out[i].height < out[j].height
    ensures forall c :: c in out <==> c in found
  {
    hide Sort;
    out := Sort(found, HeightLe);
    SortSorted(found, HeightLe);
    assert Distinct(found);
    forall c
      ensures c in out <==> c in found
    {
      InMultiset(out, found, c);
    }
    forall i, j | 0 <= i < j < |out|
      ensures out[i].height < out[j].height
    {
      StillApart(found, out, i, j);
      assert HeightLe(out[i], out[j]);
    }
  }

  /** SameHeightHashConflicts. */
  method SameHeightHashConflicts(samples: seq<HeadSample>) returns (out: seq<Conflict>)
    ensures Reports(out, samples)
  {
    hide HashesAt, LabelsAt, Disagree, Sort, Describes, TextLe, SeenAt;
    var byHeight := FillBuckets(samples);
    var found: seq<Conflict> := [];
    var todo := byHeight.Keys;
    while todo != {}
      invariant todo <= byHeight.Keys
      invariant forall c <- found :: c.height !in todo && Disagree(samples, c.height) && Describes(c, samples)
      invariant forall h: nat ::
        h in byHeight && h !in todo && Disagree(samples, h) ==> exists c :: c in found && c.height == h
      invariant forall i, j :: 0 <= i < j < |found| ==> found[i].height != found[j].height
      invariant forall c <- found :: c.height in byHeight
      decreases |todo|
    {
      var height :| height in todo;
      todo := todo - {height};
      var entry := byHeight[height];
      ManyHashes(samples, height);
      if |entry.hashes| <= 1 {
        continue;
      }
      var hashes := SortedHashes(entry.hashes);
      var conflict := Conflict(height, hashes, Sort(entry.participants, TextLe));
      DescribesBucket(conflict, samples, entry);
      assert conflict in found + [conflict];
      assert forall c <- found :: c in found + [conflict];
      found := found + [conflict];
    }
    forall h: nat | Disagree(samples, h)
      ensures h in byHeight
    {
      DisagreeingAreSeen(samples, h);
    }
    out := SortByHeight(found);
  }

  lemma SameDisagreement(samples: seq<HeadSample>, permuted: seq<HeadSample>, h: nat)
    requires multiset(samples) == multiset(permuted)
    ensures Disagree(samples, h) <==> Disagree(permuted, h)
    ensures HashesAt(samples, h) == HashesAt(permuted, h)
  {
    forall s
      ensures s in samples <==> s in permuted
    {
      InMultiset(samples, permuted, s);
    }
  }

  lemma {:induction false} LabelsAppend(a: seq<HeadSample>, b: seq<HeadSample>, h: nat)
    ensures LabelsAt(a + b, h) == LabelsAt(a, h) + LabelsAt(b, h)
  {
    if b == [] {
      assert a + b == a;
    } else {
      LabelsAppend(a, b[..|b| - 1], h);
      assert (a + b)[..|a + b| - 1] == a + b[..|b| - 1];
    }
  }

  lemma OneLabel(x: HeadSample, h: nat)
    ensures LabelsAt([x], h) == if UsableAt(x, h) then [LabelOf(x)] else []
  {
    assert [x][..0] == [];
  }

  lemma LabelsWithout(samples: seq<HeadSample>, p: nat, h: nat)
    requires p < |samples|
    ensures multiset(LabelsAt(samples, h))
         == multiset(LabelsAt(Without(samples, p), h))
            + multiset(if UsableAt(samples[p], h) then [LabelOf(samples[p])] else [])
  {
    hide LabelOf, LabelsAt, UsableAt;
    var before, after, x := samples[..p], samples[p + 1..], samples[p];
    assert samples == before + ([x] + after);
    LabelsAppend(before, after, h);
    LabelsAppend(before, [x] + after, h);
    LabelsAppend([x], after, h);
    OneLabel(x, h);
  }

  /** Permuting samples permutes the labels at a height. */
  lemma {:induction false} SameLabels(samples: seq<HeadSample>, permuted: seq<HeadSample>, h: nat)
    requires multiset(samples) == multiset(permuted)
    ensures multiset(LabelsAt(samples, h)) == multiset(LabelsAt(permuted, h))
    decreases |samples|
  {
    hide LabelsAt, Without;
    if samples == [] {
      assert |multiset(permuted)| == 0;
    } else {
      InMultiset(samples, permuted, samples[0]);
      var p :| 0 <= p < |permuted| && permuted[p] == samples[0];
      SameLabels(Without(samples, 0), Without(permuted, p), h);
      LabelsWithout(samples, 0, h);
      LabelsWithout(permuted, p, h);
    }
  }

  lemma SameConflict(samples: seq<HeadSample>, permuted: seq<HeadSample>, c: Conflict, d: Conflict)
    requires multiset(samples) == multiset(permuted) && c.height == d.height
    requires Describes(c, samples) && Describes(d, permuted)
    ensures c == d
  {
    hide Disagree, HashesAt, LabelsAt, HashLe, TextLe;
    SameDisagreement(samples, permuted, c.height);
    SameLabels(samples, permuted, c.height);
    HashOrder();
    TextOrder();
    DistinctSame<Hash>(c.hashes, d.hashes);
    SortedUnique<Hash>(c.hashes, d.hashes, HashLe);
    SortedUnique(c.participants, d.participants, TextLe);
  }

  lemma {:induction false} IncreasingSame(a: seq<Conflict>, b: seq<Conflict>)
    requires forall i, j :: 0 <= i < j < |a| ==> a[i].height < a[j].height
    requires forall i, j :: 0 <= i < j < |b| ==> b[i].height < b[j].height
    requires forall c :: c in a <==> c in b
    ensures a == b
    decreases |a|
  {
    assert Distinct(a) && Distinct(b);
    DistinctSame(a, b);
    if a == [] {
      assert |multiset(b)| == 0;
    } else {
      assert a[0] in b && b != [] && b[0] in a;
      var i :| 0 <= i < |a| && a[i] == b[0];
      var j :| 0 <= j < |b| && b[j] == a[0];
      assert a[0] == b[0];
      assert a == [a[0]] + a[1..] && b == [b[0]] + b[1..];
      assert a[0] !in a[1..] && b[0] !in b[1..];
      forall c
        ensures c in a[1..] <==> c in b[1..]
      {
        assert c in a <==> c == a[0] || c in a[1..];
        assert c in b <==> c == b[0] || c in b[1..];
      }
      IncreasingSame(a[1..], b[1..]);
    }
  }

  /** The report is a function of the samples as a collection: permuting them does not change it. */
  lemma ConflictsIgnoreOrder(samples: seq<HeadSample>, permuted: seq<HeadSample>, a: seq<Conflict>, b: seq<Conflict>)
    requires multiset(samples) == multiset(permuted) && Reports(a, samples) && Reports(b, permuted)
    ensures a == b
  {
    hide Disagree, Describes, HashesAt, LabelsAt;
    forall h: nat
      ensures Disagree(samples, h) <==> Disagree(permuted, h)
    {
      SameDisagreement(samples, permuted, h);
    }
    forall c
      ensures c in a <==> c in b
    {
      if c in a {
        assert Disagree(samples, c.height);
        var d :| d in b && d.height == c.height;
        SameConflict(samples, permuted, c, d);
      }
      if c in b {
        assert Disagree(permuted, c.height);
        var d :| d in a && d.height == c.height;
        SameConflict(samples, permuted, d, c);
      }
    }
    IncreasingSame(a, b);
  }

  // ---------- in-turn signers and the competing window ----------

  /** SelectInTurnSignerAtHeight; no signers give the zero address, here None. */
  function SelectInTurnSigner(signers: seq<string>, height: nat): Option<string> {
    if signers == [] then None else Some(signers[height % |signers|])
  }

  lemma MulMono(a: int, b: int, n: nat)
    requires a <= b
    ensures a * n <= b * n
  {
    assert (b - a) * n >= 0;
  }

  lemma QuotientIs(x: nat, p: nat, s: nat, q: nat, r: nat, n: nat)
    requires x == p * n + s == q * n + r && s < n && r < n
    ensures p == q && s == r
  {
    if p < q {
      MulMono(p + 1, q, n);
    } else if q < p {
      MulMono(q + 1, p, n);
    }
  }

  lemma ModIs(x: nat, q: nat, n: nat, r: nat)
    requires n > 0 && x == q * n + r && r < n
    ensures x % n == r && x / n == q
  {
    QuotientIs(x, x / n, x % n, q, r, n);
  }

  lemma Offset(from: nat, h: nat, n: nat)
    requires n > 0 && from <= h < from + n
    ensures h % n == if from % n + (h - from) < n then from % n + (h - from) else from % n + (h - from) - n
  {
    var q, r, d := from / n, from % n, h - from;
    assert from == q * n + r;
    if r + d < n {
      ModIs(h, q, n, r + d);
    } else {
      assert (q + 1) * n == q * n + n;
      ModIs(h, q + 1, n, r + d - n);
    }
  }

  /** Each of n distinct signers has exactly one turn in any n consecutive heights: the one whose remainder by n
      is the signer's index (EIP-225, Specification). */
  lemma OneTurnEach(signers: seq<string>, from: nat, signer: string) returns (h: nat)
    requires Distinct(signers) && signer in signers
    ensures from <= h < from + |signers| && SelectInTurnSigner(signers, h) == Some(signer)
    ensures forall g: nat :: from <= g < from + |signers| && SelectInTurnSigner(signers, g) == Some(signer) ==> g == h
    ensures forall i :: 0 <= i < |signers| && signers[i] == signer ==> h % |signers| == i
  {
    var n := |signers|;
    var j :| 0 <= j < n && signers[j] == signer;
    var r := from % n;
    h := from + if j >= r then j - r else j - r + n;
    Offset(from, h, n);
    forall g: nat | from <= g < from + n && SelectInTurnSigner(signers, g) == Some(signer)
      ensures g == h
    {
      assert g % n == j;
      Offset(from, g, n);
    }
  }

  /** ChooseCompetingWindowHeight in 64-bit arithmetic. */
  function ChooseCompetingWindowHeight(current: nat, epoch: nat): nat {
    var next := if epoch > 0 then AddU64(current / epoch, 1) * epoch % TWO64 else 0;
    if epoch > 0 && next > current && next - current <= 6 && next >= 1 then next - 1 else AddU64(current, 4)
  }

  lemma EpochBounds(current: nat, q: nat, r: nat, epoch: nat)
    requires epoch > 0 && current == q * epoch + r
    ensures (q + 1) * epoch == current - r + epoch && q <= current
  {
    assert (q + 1) * epoch == q * epoch + epoch;
    MulMono(1, epoch, q);
    assert epoch * q == q * epoch;
  }

  /** The next checkpoint as 64 bits compute it: the first one above the height, or, when that does not fit,
      nothing above the height. */
  lemma NextCheckpoint(current: nat, epoch: nat)
    requires epoch > 0 && current < TWO64 && epoch < TWO64
    ensures var next, checkpoint := AddU64(current / epoch, 1) * epoch % TWO64, current - current % epoch + epoch;
      if checkpoint < TWO64 then next == checkpoint else next <= current
  {
    var q, r := current / epoch, current % epoch;
    DivMod(current, epoch);
    EpochBounds(current, q, r, epoch);
    var checkpoint := current - r + epoch;
    if q + 1 < TWO64 {
      assert AddU64(q, 1) == q + 1;
      if checkpoint < TWO64 {
      } else {
        ModIs(checkpoint, 1, TWO64, checkpoint - TWO64);
      }
    } else {
      assert AddU64(q, 1) == 0;
      MulMono(TWO64, q + 1, epoch);
      MulMono(1, epoch, TWO64);
    }
  }

  ghost predicate CheckpointWithin(current: nat, bound: nat, epoch: nat)
    requires epoch > 0
  {
    exists c: nat :: current < c < bound && c % epoch == 0
  }

  /** The first checkpoint above a height decides whether there is one below a bound. */
  lemma FirstCheckpoint(current: nat, bound: nat, epoch: nat)
    requires epoch > 0
    ensures CheckpointWithin(current, bound, epoch) <==> current - current % epoch + epoch < bound
  {
    var q, r := current / epoch, current % epoch;
    DivMod(current, epoch);
    EpochBounds(current, q, r, epoch);
    var next := current - r + epoch;
    ModIs(next, q + 1, epoch, 0);
    forall c: nat | current < c < next
      ensures c % epoch != 0
    {
      ModIs(c, q, epoch, c - (current - r));
    }
  }

  /** The chosen height lies in the current epoch, at or above the current height, and is no checkpoint unless
      every height is one. */
  predicate GoodWindow(h: nat, current: nat, epoch: nat)
    requires epoch > 0
  {
    current <= h && h / epoch == current / epoch && (epoch >= 2 ==> h % epoch != 0)
  }

  /** A bound within 64 bits. */
  function Bounded(n: nat): nat {
    if n < TWO64 then n else TWO64
  }

  /** Four ahead in 64 bits. */
  lemma Ahead(current: nat)
    requires current < TWO64
    ensures if current + 4 < TWO64 then AddU64(current, 4) == current + 4 else AddU64(current, 4) < current
  {
  }

  /** The choice is good exactly when four heights ahead, or some checkpoint ahead, fits 64 bits. It is then the
      last height before the next checkpoint when that is at most six away, and else four ahead. */
  lemma WindowStaysInEpoch(current: nat, epoch: nat)
    requires epoch > 0 && current < TWO64 && epoch < TWO64
    ensures var h := ChooseCompetingWindowHeight(current, epoch);
      && (GoodWindow(h, current, epoch) <==> current + 4 < TWO64 || CheckpointWithin(current, TWO64, epoch))
      && (GoodWindow(h, current, epoch) ==>
            if CheckpointWithin(current, Bounded(current + 7), epoch) then (h + 1) % epoch == 0 else h == current + 4)
  {
    hide CheckpointWithin;
    var q, r := current / epoch, current % epoch;
    var next := current - r + epoch;
    var h := ChooseCompetingWindowHeight(current, epoch);
    NextCheckpoint(current, epoch);
    FirstCheckpoint(current, TWO64, epoch);
    FirstCheckpoint(current, Bounded(current + 7), epoch);
    DivMod(current, epoch);
    EpochBounds(current, q, r, epoch);
    if current <= h < next {
      ModIs(h, q, epoch, h - (current - r));
    }
    ModIs(next, q + 1, epoch, 0);
    Ahead(current);
  }

  /** It does fail: at the last height of all the window is behind the chain. */
  lemma WindowBehindTheChain()
    ensures var h := ChooseCompetingWindowHeight(TWO64 - 1, 200); h == 3 && !GoodWindow(h, TWO64 - 1, 200)
  {
    NextCheckpoint(TWO64 - 1, 200);
    Ahead(TWO64 - 1);
  }

  // ---------- tailMatchingLogLines ----------

  predicate HasAll(lower: string, patterns: seq<string>) {
    forall p <- patterns :: Contains(lower, Lower(p))
  }

  /** A trimmed line, if it is not empty and contains all patterns whatever their case. */
  function Match(line: string, patterns: seq<string>): seq<string> {
    var t := Trim(line, GoSpace);
    if t != "" && HasAll(Lower(t), patterns) then [t] else []
  }

  /** All matching lines in their order. */
  function Matches(lines: seq<string>, patterns: seq<string>): seq<string> {
    if lines == [] then [] else Match(lines[0], patterns) + Matches(lines[1..], patterns)
  }

  function LastOf(s: seq<string>, n: nat): seq<string> {
    if |s| <= n then s else s[|s| - n..]
  }

  lemma {:induction false} MatchesSuffix(lines: seq<string>, i: nat, patterns: seq<string>)
    requires i <= |lines|
    ensures var m, n := Matches(lines[i..], patterns), Matches(lines, patterns);
      |m| <= |n| && m == n[|n| - |m|..]
    decreases i
  {
    hide Match;
    if i > 0 {
      MatchesSuffix(lines[1..], i - 1, patterns);
      assert lines[1..][i - 1..] == lines[i..];
    } else {
      assert lines[0..] == lines;
    }
  }

  /** The inner loop over the patterns. */
  method ContainsAll(lower: string, patterns: seq<string>) returns (ok: bool)
    ensures ok == HasAll(lower, patterns)
  {
    hide Contains, Lower;
    for j := 0 to |patterns|
      invariant forall p <- patterns[..j] :: Contains(lower, Lower(p))
    {
      assert patterns[..j + 1] == patterns[..j] + [patterns[j]];
      if !Contains(lower, Lower(patterns[j])) {
        assert patterns[j] in patterns;
        return false;
      }
    }
    assert patterns[..|patterns|] == patterns;
    return true;
  }

  lemma MatchStep(lines: seq<string>, i: nat, patterns: seq<string>)
    requires i < |lines|
    ensures var t := Trim(lines[i], GoSpace);
      Matches(lines[i..], patterns)
      == (if t != "" && HasAll(Lower(t), patterns) then [t] else []) + Matches(lines[i + 1..], patterns)
  {
    hide Trim, Lower, HasAll;
    assert lines[i..][1..] == lines[i + 1..] && lines[i..][0] == lines[i];
  }

  lemma NoMatches(lines: seq<string>, patterns: seq<string>)
    ensures Matches(lines[|lines|..], patterns) == []
  {
    assert lines[|lines|..] == [];
  }

  /** Matches found down to line i are the wanted ones once they are enough or the text is used up. */
  lemma LastMatches(lines: seq<string>, i: nat, patterns: seq<string>, maxLines: nat)
    requires i <= |lines| && |Matches(lines[i..], patterns)| <= maxLines
    requires i == 0 || |Matches(lines[i..], patterns)| == maxLines
    ensures LastOf(Matches(lines, patterns), maxLines) == Matches(lines[i..], patterns)
  {
    hide Matches;
    MatchesSuffix(lines, i, patterns);
    assert i == 0 ==> lines[i..] == lines;
  }

  /** The backwards scan of tailMatchingLogLines: the last matches, latest first. */
  method ScanBackwards(lines: seq<string>, patterns: seq<string>, maxLines: nat) returns (matched: seq<string>)
    requires maxLines > 0
    ensures var wanted := LastOf(Matches(lines, patterns), maxLines);
      |matched| == |wanted| && forall k :: 0 <= k < |wanted| ==> matched[k] == wanted[|wanted| - 1 - k]
  {
    hide Trim, Lower, HasAll, Matches, Match, LastOf;
    matched := [];
    var i := |lines|;
    ghost var found: seq<string> := [];
    NoMatches(lines, patterns);
    while i > 0
      invariant 0 <= i <= |lines| && found == Matches(lines[i..], patterns)
      invariant |matched| == |found| < maxLines
      invariant forall k :: 0 <= k < |found| ==> matched[k] == found[|found| - 1 - k]
    {
      i := i - 1;
      MatchStep(lines, i, patterns);
      var line := Trim(lines[i], GoSpace);
      if line == "" {
        continue;
      }
      var ok := ContainsAll(Lower(line), patterns);
      if !ok {
        continue;
      }
      matched := matched + [line];
      found := [line] + found;
      if |matched| >= maxLines {
        break;
      }
    }
    LastMatches(lines, i, patterns, maxLines);
  }

  /** The two-pointer reversal, in place. */
  method Reverse(items: seq<string>) returns (r: seq<string>)
    ensures |r| == |items| && forall k :: 0 <= k < |r| ==> r[k] == items[|items| - 1 - k]
  {
    r := items;
    var i, j := 0, |r| - 1;
    while i < j
      invariant |r| == |items| && 0 <= i <= j + 1 && j == |r| - 1 - i
      invariant forall k :: 0 <= k < i || j < k < |r| ==> r[k] == items[|items| - 1 - k]
      invariant forall k :: i <= k <= j ==> r[k] == items[k]
    {
      r := r[i := r[j]][j := r[i]];
      i, j := i + 1, j - 1;
    }
  }

  /** tailMatchingLogLines, the file having been read (None when it cannot be): exactly the last
      min(maxLines, number of matches) matching lines, in their original order. */
  method TailMatchingLogLines(data: Option<string>, patterns: seq<string>, maxLines: int) returns (matched: seq<string>)
    ensures matched == if data.None? || maxLines <= 0 then []
                       else LastOf(Matches(Split(data.value, '\n'), patterns), maxLines)
  {
    if data.None? || maxLines <= 0 {
      return [];
    }
    hide Matches, Split;
    var latestFirst := ScanBackwards(Split(data.value, '\n'), patterns, maxLines);
    matched := Reverse(latestFirst);
  }

  /** What the scan gives is a part of the log's own matches: none is invented, the latest are kept. */
  lemma {:induction false} MatchesAreLines(lines: seq<string>, patterns: seq<string>)
    ensures forall m <- Matches(lines, patterns) ::
      && (exists line :: line in lines && m == Trim(line, GoSpace)) && m != ""
      && forall p <- patterns :: Contains(Lower(m), Lower(p))
    ensures forall line <- lines ::
      var t := Trim(line, GoSpace);
      (t != "" && (forall p <- patterns :: Contains(Lower(t), Lower(p))) ==> t in Matches(lines, patterns))
  {
    hide Trim, Lower, Contains;
    if lines == [] {
    } else {
      MatchesAreLines(lines[1..], patterns);
      assert lines[0] in lines && forall l <- lines[1..] :: l in lines;
      assert forall l <- lines :: l == lines[0] || l in lines[1..];
    }
  }
}
