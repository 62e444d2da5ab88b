/** The sample stream of the ASIX Sigma. The device records clusters of samples, each cluster with the time
of its first event; between clusters nothing has changed. A cluster is seven events long, and an event holds
the same number of samples everywhere. */
module SigmaStream {
  import opened Products
  import opened Streams

  /** A cluster: a time stamp of 16 bits, and the samples of seven events. */
  datatype Cluster = Cluster(ts: nat, samples: seq<nat>)

  predicate IsCluster(s: nat, c: Cluster) {
    |c.samples| == 7 * s && c.ts < 0x1_0000
  }

  predicate AreClusters(s: nat, clusters: seq<Cluster>) {
    clusters == [] || (AreClusters(s, clusters[..|clusters| - 1]) && IsCluster(s, clusters[|clusters| - 1]))
  }

  lemma {:induction false} EachIsCluster(s: nat, clusters: seq<Cluster>, i: nat)
    requires AreClusters(s, clusters) && i < |clusters|
    ensures IsCluster(s, clusters[i])
    decreases |clusters|
  {
    if i < |clusters| - 1 {
      EachIsCluster(s, clusters[..|clusters| - 1], i);
    }
  }

  lemma {:induction false} PrefixAreClusters(s: nat, clusters: seq<Cluster>, n: nat)
    requires AreClusters(s, clusters) && n <= |clusters|
    ensures AreClusters(s, clusters[..n])
    decreases |clusters|
  {
    if n == |clusters| {
      assert clusters[..n] == clusters;
    } else {
      var init := clusters[..|clusters| - 1];
      assert clusters[..n] == init[..n];
      PrefixAreClusters(s, init, n);
    }
  }

  /** The time from one stamp to a later one: the stamps wrap around. */
  function Diff(later: nat, earlier: nat): (diff: nat)
    requires later < 0x1_0000 && earlier < 0x1_0000
    ensures diff < 0x1_0000
  {
    if earlier <= later then later - earlier else later - earlier + 0x1_0000
  }

  /** Of two stamps it is the time between, as far as 16 bits tell. */
  lemma DiffIsTime(later: nat, earlier: nat)
    requires earlier <= later < earlier + 0x1_0000
    ensures Diff(later % 0x1_0000, earlier % 0x1_0000) == later - earlier
  {
  }

  function Copies(sample: nat, n: nat): (samples: seq<nat>)
    ensures |samples| == n
  {
    if n == 0 then [] else Copies(sample, n - 1) + [sample]
  }

  /** The time stamp and the sample that the decoder goes on from. */
  datatype Position = Position(lastts: nat, lastsample: nat) {
    predicate Valid() {
      lastts < 0x1_0000
    }
  }

  function After(s: nat, p: Position, clusters: seq<Cluster>): (after: Position)
    requires s >= 1 && p.Valid() && AreClusters(s, clusters)
    ensures after.Valid()
  {
    if clusters == [] then p
    else
      var last := clusters[|clusters| - 1];
      var samples := last.samples;
      Position(last.ts, samples[|samples| - 1])
  }

  /** The time a cluster fills up to the next one, in events of which the cluster itself has seven. */
  function Gap(diff: nat): nat {
    if diff > 7 then diff - 7 else 0
  }

  /** The last sample, for as long as nothing was recorded. */
  function Padding(s: nat, gap: nat, lastsample: nat): seq<nat> {
    if gap == 0 then [] else Padding(s, gap - 1, lastsample) + Copies(lastsample, s)
  }

  lemma {:induction false} PaddingIsCopies(s: nat, gap: nat, lastsample: nat)
    ensures Padding(s, gap, lastsample) == Copies(lastsample, gap * s)
  {
    if gap > 0 {
      PaddingIsCopies(s, gap - 1, lastsample);
      CopiesOfSum(lastsample, (gap - 1) * s, s);
    }
  }

  lemma {:induction false} CopiesOfSum(sample: nat, m: nat, n: nat)
    ensures Copies(sample, m + n) == Copies(sample, m) + Copies(sample, n)
  {
    if n > 0 {
      CopiesOfSum(sample, m, n - 1);
    }
  }

  // What the clusters mean.

  /** A cluster, with what comes before it. */
  function Filled(s: nat, at: Position, c: Cluster): seq<nat>
    requires at.Valid() && IsCluster(s, c)
  {
    Padding(s, Gap(Diff(c.ts, at.lastts)), at.lastsample) + c.samples
  }

  /** The samples of a recording: those of the clusters, and in between the last one of the cluster before. */
  function Timeline(s: nat, p: Position, clusters: seq<Cluster>): seq<nat>
    requires s >= 1 && p.Valid() && AreClusters(s, clusters)
  {
    if clusters == [] then []
    else
      var init, last := clusters[..|clusters| - 1], clusters[|clusters| - 1];
      Timeline(s, p, init) + Filled(s, After(s, p, init), last)
  }

  // What the decoder sends of them.

  /** Before the samples of a cluster: the padding; if there is none to be sent, and the cluster is not the
      first of its chunk, what is still in the buffer, which is the cluster before. */
  function Between(s: nat, p: Position, clusters: seq<Cluster>, next: Cluster): seq<nat>
    requires s >= 1 && p.Valid() && AreClusters(s, clusters) && IsCluster(s, next)
  {
    var at := After(s, p, clusters);
    var diff := Diff(next.ts, at.lastts);
    if diff > 7 then Padding(s, Gap(diff), at.lastsample)
    else if clusters == [] then []
    else clusters[|clusters| - 1].samples
  }

  function Sent(s: nat, p: Position, clusters: seq<Cluster>): seq<nat>
    requires s >= 1 && p.Valid() && AreClusters(s, clusters)
  {
    if clusters == [] then []
    else
      var init, last := clusters[..|clusters| - 1], clusters[|clusters| - 1];
      Sent(s, p, init) + (Between(s, p, init, last) + last.samples)
  }

  /** Every cluster of the chunk but the first comes more than seven events after the one before. */
  predicate Spread(s: nat, p: Position, clusters: seq<Cluster>)
    requires s >= 1 && p.Valid() && AreClusters(s, clusters)
  {
    clusters == []
    || (var init, last := clusters[..|clusters| - 1], clusters[|clusters| - 1];
        Spread(s, p, init) && (init == [] || Diff(last.ts, After(s, p, init).lastts) > 7))
  }

  /** How many clusters of the chunk come too early for that. */
  function Early(s: nat, p: Position, clusters: seq<Cluster>): (n: nat)
    requires s >= 1 && p.Valid() && AreClusters(s, clusters)
    ensures n == 0 <==> Spread(s, p, clusters)
  {
    if clusters == [] then 0
    else
      var init, last := clusters[..|clusters| - 1], clusters[|clusters| - 1];
      Early(s, p, init) + if init == [] || Diff(last.ts, After(s, p, init).lastts) > 7 then 0 else 1
  }

  /** The decoder sends the recording if the clusters of a chunk are spread; otherwise it sends one cluster more
      for each that comes early. */
  lemma {:induction false} SentIsTimeline(s: nat, p: Position, clusters: seq<Cluster>)
    requires s >= 1 && p.Valid() && AreClusters(s, clusters)
    ensures Spread(s, p, clusters) ==> Sent(s, p, clusters) == Timeline(s, p, clusters)
    ensures |Sent(s, p, clusters)| == |Timeline(s, p, clusters)| + Early(s, p, clusters) * (7 * s)
  {
    if clusters != [] {
      var init, last := clusters[..|clusters| - 1], clusters[|clusters| - 1];
      SentIsTimeline(s, p, init);
      assert (Early(s, p, init) + 1) * (7 * s) == Early(s, p, init) * (7 * s) + 7 * s by {
        Distribute(Early(s, p, init), 1, Early(s, p, init) + 1, 7 * s);
      }
      var at := After(s, p, init);
      var diff := Diff(last.ts, at.lastts);
      if diff <= 7 {
        assert Padding(s, Gap(diff), at.lastsample) == [];
      }
    }
  }

  // Recordings of many chunks.

  predicate AreChunks(s: nat, chunks: seq<seq<Cluster>>) {
    chunks == [] || (AreChunks(s, chunks[..|chunks| - 1]) && AreClusters(s, chunks[|chunks| - 1]))
  }

  lemma {:induction false} ClustersOfJoin(s: nat, a: seq<Cluster>, b: seq<Cluster>)
    requires AreClusters(s, a) && AreClusters(s, b)
    ensures AreClusters(s, a + b)
    decreases |b|
  {
    if b == [] {
      assert a + b == a;
    } else {
      ClustersOfJoin(s, a, b[..|b| - 1]);
      SliceOfSecond(a, b, |b| - 1);
    }
  }

  lemma {:induction false} ClustersOfAll(s: nat, chunks: seq<seq<Cluster>>)
    requires AreChunks(s, chunks)
    ensures AreClusters(s, Flatten(chunks))
  {
    if chunks != [] {
      ClustersOfAll(s, chunks[..|chunks| - 1]);
      ClustersOfJoin(s, Flatten(chunks[..|chunks| - 1]), chunks[|chunks| - 1]);
    }
  }

  lemma {:induction false} AfterOfJoin(s: nat, p: Position, a: seq<Cluster>, b: seq<Cluster>)
    requires s >= 1 && p.Valid() && AreClusters(s, a) && AreClusters(s, b)
    ensures AreClusters(s, a + b)
    ensures After(s, p, a + b) == After(s, After(s, p, a), b)
  {
    ClustersOfJoin(s, a, b);
    if b == [] {
      assert a + b == a;
    }
  }

  lemma TimelineSnoc(s: nat, p: Position, clusters: seq<Cluster>, c: Cluster)
    requires s >= 1 && p.Valid() && AreClusters(s, clusters) && IsCluster(s, c)
    ensures AreClusters(s, clusters + [c])
    ensures Timeline(s, p, clusters + [c]) == Timeline(s, p, clusters) + Filled(s, After(s, p, clusters), c)
  {
    assert (clusters + [c])[..|clusters|] == clusters;
  }

  /** A recording can be decoded in parts. */
  lemma {:induction false} TimelineOfJoin(s: nat, p: Position, a: seq<Cluster>, b: seq<Cluster>)
    requires s >= 1 && p.Valid() && AreClusters(s, a) && AreClusters(s, b)
    ensures AreClusters(s, a + b)
    ensures Timeline(s, p, a + b) == Timeline(s, p, a) + Timeline(s, After(s, p, a), b)
    decreases |b|
  {
    ClustersOfJoin(s, a, b);
    if b == [] {
      assert a + b == a;
    } else {
      var init, last, at := b[..|b| - 1], b[|b| - 1], After(s, p, a);
      AfterOfJoin(s, p, a, init);
      calc {
        Timeline(s, p, a + b);
        { LastLast(a, b); TimelineSnoc(s, p, a + init, last); }
        Timeline(s, p, a + init) + Filled(s, After(s, p, a + init), last);
        { TimelineOfJoin(s, p, a, init); }
        (Timeline(s, p, a) + Timeline(s, at, init)) + Filled(s, After(s, at, init), last);
        { Associate(Timeline(s, p, a), Timeline(s, at, init), Filled(s, After(s, at, init), last)); }
        Timeline(s, p, a) + Timeline(s, at, b);
      }
    }
  }

  /** What is sent of all the chunks of a recording. */
  function SentOfAll(s: nat, p: Position, chunks: seq<seq<Cluster>>): seq<nat>
    requires s >= 1 && p.Valid() && AreChunks(s, chunks)
  {
    if chunks == [] then []
    else
      var init := chunks[..|chunks| - 1];
      ClustersOfAll(s, init);
      SentOfAll(s, p, init) + Sent(s, After(s, p, Flatten(init)), chunks[|chunks| - 1])
  }

  predicate AllSpread(s: nat, p: Position, chunks: seq<seq<Cluster>>)
    requires s >= 1 && p.Valid() && AreChunks(s, chunks)
  {
    chunks == []
    || (var init := chunks[..|chunks| - 1];
        ClustersOfAll(s, init);
        AllSpread(s, p, init) && Spread(s, After(s, p, Flatten(init)), chunks[|chunks| - 1]))
  }

  function AllEarly(s: nat, p: Position, chunks: seq<seq<Cluster>>): (n: nat)
    requires s >= 1 && p.Valid() && AreChunks(s, chunks)
    ensures n == 0 <==> AllSpread(s, p, chunks)
  {
    if chunks == [] then 0
    else
      var init := chunks[..|chunks| - 1];
      ClustersOfAll(s, init);
      AllEarly(s, p, init) + Early(s, After(s, p, Flatten(init)), chunks[|chunks| - 1])
  }

  /** The whole recording is sent as it was made if and only if all its chunks are spread; otherwise it is longer
      by one cluster for each that comes early in its chunk. */
  lemma {:induction false} AllSentIsTimeline(s: nat, p: Position, chunks: seq<seq<Cluster>>)
    requires s >= 1 && p.Valid() && AreChunks(s, chunks)
    ensures AreClusters(s, Flatten(chunks))
    ensures SentOfAll(s, p, chunks) == Timeline(s, p, Flatten(chunks)) <==> AllSpread(s, p, chunks)
    ensures |SentOfAll(s, p, chunks)| == |Timeline(s, p, Flatten(chunks))| + AllEarly(s, p, chunks) * (7 * s)
  {
    ClustersOfAll(s, chunks);
    if chunks != [] {
      var init, last := chunks[..|chunks| - 1], chunks[|chunks| - 1];
      AllSentIsTimeline(s, p, init);
      var at := After(s, p, Flatten(init));
      AfterOfJoin(s, p, Flatten(init), last);
      TimelineOfJoin(s, p, Flatten(init), last);
      SentIsTimeline(s, at, last);
      Distribute(AllEarly(s, p, init), Early(s, at, last), AllEarly(s, p, chunks), 7 * s);
    }
    MoreThanNothing(AllEarly(s, p, chunks), 7 * s);
  }

  lemma MoreThanNothing(n: nat, u: nat)
    requires u > 0
    ensures n * u == 0 <==> n == 0
  {
  }

  // Where a cluster is found.

  /** Clusters do not overlap. */
  predicate InOrder(s: nat, p: Position, clusters: seq<Cluster>)
    requires s >= 1 && p.Valid() && AreClusters(s, clusters)
  {
    clusters == []
    || (var init, last := clusters[..|clusters| - 1], clusters[|clusters| - 1];
        InOrder(s, p, init) && (init == [] || Diff(last.ts, After(s, p, init).lastts) >= 7))
  }

  /** The time from the first cluster to the last one, over any number of turns of the stamps. */
  function Elapsed(s: nat, p: Position, clusters: seq<Cluster>): nat
    requires s >= 1 && p.Valid() && AreClusters(s, clusters)
  {
    if |clusters| <= 1 then 0
    else
      var init, last := clusters[..|clusters| - 1], clusters[|clusters| - 1];
      Elapsed(s, p, init) + Diff(last.ts, After(s, p, init).lastts)
  }

  /** The clusters were recorded at these times, of which the stamps have the low 16 bits; no two in a row are a
      whole turn of the stamps apart. */
  predicate RecordedAt(clusters: seq<Cluster>, times: seq<nat>) {
    && |times| == |clusters|
    && (forall k :: 0 <= k < |clusters| ==> clusters[k].ts == times[k] % 0x1_0000)
    && (forall k :: 0 < k < |clusters| ==> times[k - 1] <= times[k] < times[k - 1] + 0x1_0000)
  }

  /** What has elapsed is the time from the first cluster to the last one. */
  lemma {:induction false} ElapsedIsTime(s: nat, p: Position, clusters: seq<Cluster>, times: seq<nat>)
    requires s >= 1 && p.Valid() && AreClusters(s, clusters) && clusters != [] && RecordedAt(clusters, times)
    ensures times[0] <= times[|times| - 1] && Elapsed(s, p, clusters) == times[|times| - 1] - times[0]
    decreases |clusters|
  {
    if |clusters| > 1 {
      var n := |clusters| - 1;
      ElapsedIsTime(s, p, clusters[..n], times[..n]);
      DiffIsTime(times[n], times[n - 1]);
    }
  }

  /** The decoder starts with a stamp one before that of the first cluster. */
  predicate StartsAt(s: nat, p: Position, clusters: seq<Cluster>)
    requires p.Valid() && AreClusters(s, clusters)
  {
    clusters == [] || Diff(FirstStamp(s, clusters), p.lastts) == 1
  }

  function FirstStamp(s: nat, clusters: seq<Cluster>): (ts: nat)
    requires AreClusters(s, clusters) && clusters != []
    ensures ts < 0x1_0000
  {
    if |clusters| == 1 then clusters[0].ts else FirstStamp(s, clusters[..|clusters| - 1])
  }

  lemma {:induction false} FirstStampIs(s: nat, clusters: seq<Cluster>)
    requires AreClusters(s, clusters) && clusters != []
    ensures FirstStamp(s, clusters) == clusters[0].ts
  {
    if |clusters| > 1 {
      FirstStampIs(s, clusters[..|clusters| - 1]);
    }
  }

  /** The recording ends with the last cluster, whose samples are where its time says. */
  lemma {:induction false} LastClusterIsInTime(s: nat, p: Position, clusters: seq<Cluster>)
    requires s >= 1 && p.Valid() && AreClusters(s, clusters) && clusters != []
    requires StartsAt(s, p, clusters) && InOrder(s, p, clusters)
    ensures |Timeline(s, p, clusters)| == s * Elapsed(s, p, clusters) + 7 * s
    ensures Timeline(s, p, clusters)[|Timeline(s, p, clusters)| - 7 * s..] ==
            clusters[|clusters| - 1].samples
  {
    var init, last := clusters[..|clusters| - 1], clusters[|clusters| - 1];
    if init == [] {
      assert Timeline(s, p, init) == [];
      assert Padding(s, Gap(1), p.lastsample) == [];
    } else {
      LastClusterIsInTime(s, p, init);
      var diff := Diff(last.ts, After(s, p, init).lastts);
      PaddingIsCopies(s, Gap(diff), After(s, p, init).lastsample);
      AddTimes(s, Elapsed(s, p, init), diff);
    }
  }

  lemma AddTimes(s: nat, e: nat, d: nat)
    requires d >= 7
    ensures s * e + 7 * s + (d - 7) * s == s * (e + d)
  {
  }

  lemma {:induction false} PrefixIsInOrder(s: nat, p: Position, clusters: seq<Cluster>, n: nat)
    requires s >= 1 && p.Valid() && AreClusters(s, clusters) && n <= |clusters|
    ensures AreClusters(s, clusters[..n])
    ensures InOrder(s, p, clusters) ==> InOrder(s, p, clusters[..n])
    decreases |clusters|
  {
    if n == |clusters| {
      assert clusters[..n] == clusters;
    } else {
      var init := clusters[..|clusters| - 1];
      assert clusters[..n] == init[..n];
      PrefixIsInOrder(s, p, init, n);
    }
  }

  lemma {:induction false} TimelineOfPrefix(s: nat, p: Position, clusters: seq<Cluster>, n: nat)
    requires s >= 1 && p.Valid() && AreClusters(s, clusters) && n <= |clusters|
    ensures AreClusters(s, clusters[..n])
    ensures Timeline(s, p, clusters[..n]) <= Timeline(s, p, clusters)
    decreases |clusters|
  {
    if n == |clusters| {
      assert clusters[..n] == clusters;
    } else {
      var init := clusters[..|clusters| - 1];
      assert clusters[..n] == init[..n];
      TimelineOfPrefix(s, p, init, n);
    }
  }

  /** Every cluster of a recording is where its time says: cluster `k` starts at the time elapsed since
      the first one. */
  lemma EveryClusterIsInTime(s: nat, p: Position, clusters: seq<Cluster>, k: nat) returns (at: nat)
    requires s >= 1 && p.Valid() && AreClusters(s, clusters) && k < |clusters|
    requires StartsAt(s, p, clusters) && InOrder(s, p, clusters)
    ensures AreClusters(s, clusters[..k + 1]) && at == s * Elapsed(s, p, clusters[..k + 1])
    ensures at + 7 * s <= |Timeline(s, p, clusters)|
    ensures Timeline(s, p, clusters)[at..at + 7 * s] == clusters[k].samples
  {
    var upto := clusters[..k + 1];
    TimelineOfPrefix(s, p, clusters, k + 1);
    at := PrefixEndsInTime(s, p, clusters, k);
    SliceAtEnd(Timeline(s, p, upto), Timeline(s, p, clusters), at, 7 * s);
  }

  /** Between the end of a cluster and the start of the next one, the recording holds the last sample. With
      `EveryClusterIsInTime` this says what every sample of a recording is. */
  lemma BetweenIsHeld(s: nat, p: Position, clusters: seq<Cluster>, k: nat) returns (at: nat, next: nat)
    requires s >= 1 && p.Valid() && AreClusters(s, clusters) && k + 1 < |clusters|
    requires StartsAt(s, p, clusters) && InOrder(s, p, clusters)
    ensures AreClusters(s, clusters[..k + 1]) && at == s * Elapsed(s, p, clusters[..k + 1])
    ensures AreClusters(s, clusters[..k + 2]) && next == s * Elapsed(s, p, clusters[..k + 2])
    ensures |clusters[k].samples| == 7 * s && at + 7 * s <= next <= |Timeline(s, p, clusters)|
    ensures forall x :: at + 7 * s <= x < next ==> Timeline(s, p, clusters)[x] == clusters[k].samples[7 * s - 1]
  {
    at := PrefixEndsInTime(s, p, clusters, k);
    next := PrefixEndsInTime(s, p, clusters, k + 1);
    TimelineOfPrefix(s, p, clusters, k + 2);
    EachIsCluster(s, clusters, k);
    EachIsCluster(s, clusters, k + 1);
    PrefixAreClusters(s, clusters, k + 1);
    assert clusters[..k + 2][..k + 1] == clusters[..k + 1];
    NextIsPadded(s, p, clusters[..k + 1], clusters[..k + 2], at + 7 * s, next);
  }

  /** One more cluster: the samples up to its start are copies of the last one. */
  lemma NextIsPadded(s: nat, p: Position, init: seq<Cluster>, upto: seq<Cluster>, from: nat, next: nat)
    requires s >= 1 && p.Valid() && AreClusters(s, init) && AreClusters(s, upto)
    requires init != [] && |upto| == |init| + 1 && upto[..|init|] == init
    requires |Timeline(s, p, init)| == from && |Timeline(s, p, upto)| == next + 7 * s
    ensures from <= next
    ensures var last := init[|init| - 1].samples;
            |last| == 7 * s && forall x :: from <= x < next ==> Timeline(s, p, upto)[x] == last[7 * s - 1]
  {
    var c, at := upto[|init|], After(s, p, init);
    EachIsCluster(s, init, |init| - 1);
    EachIsCluster(s, upto, |init|);
    var padding := Padding(s, Gap(Diff(c.ts, at.lastts)), at.lastsample);
    assert Timeline(s, p, upto) == Timeline(s, p, init) + (padding + c.samples);
    assert forall i :: 0 <= i < |padding| ==> padding[i] == at.lastsample by {
      PaddingIsCopies(s, Gap(Diff(c.ts, at.lastts)), at.lastsample);
      CopiesAreCopies(at.lastsample, Gap(Diff(c.ts, at.lastts)) * s);
    }
  }

  lemma {:induction false} CopiesAreCopies(sample: nat, n: nat)
    ensures forall i :: 0 <= i < n ==> Copies(sample, n)[i] == sample
  {
    if n > 0 {
      CopiesAreCopies(sample, n - 1);
    }
  }

  lemma PrefixEndsInTime(s: nat, p: Position, clusters: seq<Cluster>, k: nat) returns (at: nat)
    requires s >= 1 && p.Valid() && AreClusters(s, clusters) && k < |clusters|
    requires StartsAt(s, p, clusters) && InOrder(s, p, clusters)
    ensures AreClusters(s, clusters[..k + 1]) && at == s * Elapsed(s, p, clusters[..k + 1])
    ensures |Timeline(s, p, clusters[..k + 1])| == at + 7 * s
    ensures Timeline(s, p, clusters[..k + 1])[at..] == clusters[k].samples
  {
    var upto := clusters[..k + 1];
    PrefixIsInOrder(s, p, clusters, k + 1);
    FirstStampIs(s, clusters);
    FirstStampIs(s, upto);
    LastClusterIsInTime(s, p, upto);
    at := s * Elapsed(s, p, upto);
  }

  lemma SliceAtEnd<T>(a: seq<T>, b: seq<T>, at: nat, n: nat)
    requires a <= b && |a| == at + n
    ensures b[at..at + n] == a[at..]
  {
  }

  /** The same holds for what is sent of all chunks, if they are spread. */
  lemma EveryClusterIsSentInTime(s: nat, p: Position, chunks: seq<seq<Cluster>>, k: nat) returns (at: nat)
    requires s >= 1 && p.Valid() && AreChunks(s, chunks) && AreClusters(s, Flatten(chunks)) && k < |Flatten(chunks)|
    requires StartsAt(s, p, Flatten(chunks)) && InOrder(s, p, Flatten(chunks)) && AllSpread(s, p, chunks)
    ensures AreClusters(s, Flatten(chunks)[..k + 1]) && at == s * Elapsed(s, p, Flatten(chunks)[..k + 1])
    ensures at + 7 * s <= |SentOfAll(s, p, chunks)|
    ensures SentOfAll(s, p, chunks)[at..at + 7 * s] == Flatten(chunks)[k].samples
  {
    AllSentIsTimeline(s, p, chunks);
    at := EveryClusterIsInTime(s, p, Flatten(chunks), k);
  }

  /** The time all clusters fill, each at least for its seven events. */
  function Stretch(s: nat, p: Position, clusters: seq<Cluster>): nat
    requires s >= 1 && p.Valid() && AreClusters(s, clusters)
  {
    if clusters == [] then 0
    else
      var init, last := clusters[..|clusters| - 1], clusters[|clusters| - 1];
      var diff := Diff(last.ts, After(s, p, init).lastts);
      Stretch(s, p, init) + (if diff > 7 then diff else 7)
  }

  lemma {:induction false} LengthOfTimeline(s: nat, p: Position, clusters: seq<Cluster>)
    requires s >= 1 && p.Valid() && AreClusters(s, clusters)
    ensures |Timeline(s, p, clusters)| == s * Stretch(s, p, clusters)
  {
    if clusters != [] {
      var init, last := clusters[..|clusters| - 1], clusters[|clusters| - 1];
      LengthOfTimeline(s, p, init);
      var diff := Diff(last.ts, After(s, p, init).lastts);
      PaddingIsCopies(s, Gap(diff), After(s, p, init).lastsample);
      AddStretch(s, Stretch(s, p, init), diff);
    }
  }

  lemma AddStretch(s: nat, e: nat, d: nat)
    ensures s * e + Gap(d) * s + 7 * s == s * (e + if d > 7 then d else 7)
  {
  }

  /** Two clusters without a gap between them, in one chunk: the first one is sent twice. */
  lemma AdjacentClusterIsRepeated(s: nat, p: Position, a: Cluster, b: Cluster)
    requires s >= 1 && p.Valid() && IsCluster(s, a) && IsCluster(s, b)
    requires Diff(a.ts, p.lastts) == 1 && Diff(b.ts, a.ts) == 7
    ensures AreClusters(s, [a]) && AreClusters(s, [a, b])
    ensures Timeline(s, p, [a, b]) == a.samples + b.samples
    ensures Sent(s, p, [a, b]) == (a.samples + a.samples) + b.samples
  {
    assert [a][..0] == [] && [a, b][..1] == [a];
    assert AreClusters(s, []);
    assert AreClusters(s, [a]);
    assert Padding(s, Gap(1), p.lastsample) == [];
    assert Timeline(s, p, [a]) == a.samples;
    assert Sent(s, p, [a]) == a.samples;
    assert Padding(s, Gap(7), After(s, p, [a]).lastsample) == [];
  }
}
