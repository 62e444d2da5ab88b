/** The download of a recording from the ASIX Sigma: it is read in portions of up to 32 chunks. The chunk
that is searched for the trigger is found by its place in the portion, which is counted twice: so it is the
right one only sometimes. */
module SigmaDownload {
  import opened Options
  import opened SigmaStream
  import opened SigmaTimeline
  import opened SigmaUnpack
  import T = SigmaTrigger
  import opened Streams

  // Which chunks are searched.

  /** The test for chunk `c`: its number, and its place in the portion once more. */
  predicate Searched(c: nat, triggerchunk: int) {
    c + c % 32 == triggerchunk
  }

  /** The trigger's own chunk is searched if and only if it comes first in its portion. */
  lemma OwnChunkIff(t: nat)
    ensures Searched(t, t) <==> t % 32 == 0
  {
  }

  /** For an odd chunk none is searched; for an even one, one in its portion, and one in the portion before. */
  lemma SearchedIff(c: nat, t: nat)
    ensures Searched(c, t) <==> t % 2 == 0 && (c == InPortion(t) || (t >= 32 && c == InPortion(t) - 16))
  {
    var b, i, q, r := c / 32, c % 32, t / 32, t % 32;
    PortionOf(c);
    PortionOf(t);
    if Searched(c, t) {
      assert 32 * (q - b) == 2 * i - r;
      assert q == b || q == b + 1;
    }
    Within(q, r / 2);
    if q > 0 {
      Within(q - 1, r / 2 + 16);
    }
  }

  lemma PortionOf(c: nat)
    ensures c == 32 * (c / 32) + c % 32 && c % 2 == c % 32 % 2
  {
  }

  lemma Within(q: nat, i: nat)
    requires i < 32
    ensures (32 * q + i) % 32 == i
  {
  }

  function InPortion(t: nat): nat {
    t / 32 * 32 + t % 32 / 2
  }

  /** One in chunk 32 is searched for in chunk 16, and once more in its own. */
  lemma SearchedTwice()
    ensures Searched(16, 32) && Searched(32, 32)
  {
  }

  ghost predicate OnlyOwnChunk(n: nat, t: nat) {
    forall c: nat :: c < n ==> (Searched(c, t) <==> c == t)
  }

  /** The trigger's own chunk, and no other, is searched if and only if it is the first of all. */
  lemma OnlyOwnChunkIff(n: nat, t: nat)
    requires t < n
    ensures OnlyOwnChunk(n, t) <==> t == 0
  {
    if t == 0 {
      forall c: nat | c < n ensures Searched(c, t) <==> c == t {
        SearchedIff(c, t);
      }
    } else if t >= 32 && t % 32 == 0 {
      PortionOf(t);
      Within(t / 32 - 1, 16);
      assert Searched(t - 16, t) && t - 16 < n;
    } else {
      OwnChunkIff(t);
    }
  }

  // What is sent of a recording, chunk by chunk.

  /** The samples of a chunk, and where among them a trigger is put, if there is one. What was left in the
      buffer where the search may look may be anything. */
  datatype Piece = Piece(samples: seq<nat>, mark: Option<nat>, stale: nat) {
    function After(before: Report): Report {
      if mark.Some? && mark.value <= |samples| then before.Around(samples, mark.value) else before.More(samples)
    }

    predicate Fits() {
      mark.Some? ==> mark.value <= |samples|
    }
  }

  /** What the bus says after these pieces. */
  function Heard(said: Report, pieces: seq<Piece>): Report {
    if pieces == [] then said
    else pieces[|pieces| - 1].After(Heard(said, pieces[..|pieces| - 1]))
  }

  function AllSamples(pieces: seq<Piece>): seq<nat> {
    if pieces == [] then [] else AllSamples(pieces[..|pieces| - 1]) + pieces[|pieces| - 1].samples
  }

  /** The pieces that have a trigger in them. */
  function Marked(pieces: seq<Piece>): (marked: seq<nat>)
    ensures forall i :: 0 <= i < |marked| ==> marked[i] < |pieces| && pieces[marked[i]].mark.Some?
  {
    if pieces == [] then []
    else Marked(pieces[..|pieces| - 1]) + (if pieces[|pieces| - 1].mark.Some? then [|pieces| - 1] else [])
  }

  predicate AllFit(pieces: seq<Piece>) {
    pieces == [] || (AllFit(pieces[..|pieces| - 1]) && pieces[|pieces| - 1].Fits())
  }

  /** The bus says all samples, and as many triggers as there are pieces with one. */
  lemma {:induction false} HeardAll(said: Report, pieces: seq<Piece>)
    requires AllFit(pieces)
    ensures Heard(said, pieces).payload == said.payload + AllSamples(pieces)
    ensures Heard(said, pieces).triggers == said.triggers + |Marked(pieces)|
  {
    if pieces != [] {
      var init, last := pieces[..|pieces| - 1], pieces[|pieces| - 1];
      HeardAll(said, init);
      Associate(said.payload, AllSamples(init), last.samples);
    }
  }

  /** The first trigger comes after all pieces before its own, and the samples of that one before it. */
  lemma {:induction false} FirstTrigger(said: Report, pieces: seq<Piece>)
    requires AllFit(pieces) && said.beforeTrigger == None
    ensures Marked(pieces) == [] ==> Heard(said, pieces).beforeTrigger == None
    ensures Marked(pieces) != [] ==> FirstIn(said, pieces, Marked(pieces)[0], Heard(said, pieces))
  {
    if pieces != [] {
      var init, last := pieces[..|pieces| - 1], pieces[|pieces| - 1];
      FirstTrigger(said, init);
      if Marked(init) != [] {
        var c := Marked(init)[0];
        assert pieces[..c] == init[..c] && pieces[c] == init[c];
      } else if last.mark.Some? {
        HeardAll(said, init);
      }
    }
  }

  ghost predicate FirstIn(said: Report, pieces: seq<Piece>, c: nat, now: Report)
    requires c < |pieces|
  {
    && pieces[c].mark.Some? && pieces[c].Fits()
    && now.beforeTrigger ==
       Some((said.payload + AllSamples(pieces[..c])) + pieces[c].samples[..pieces[c].mark.value])
  }

  // The last chunk.

  /** The last valid time stamp of the last chunk, passed as 16 bits. */
  function LimitOf(stoppos: nat, lastts: nat): (limit: nat)
    ensures limit < 0x1_0000
  {
    (stoppos % 512 + lastts) % 0x1_0000
  }

  /** How many clusters of the last chunk have been recorded: a cluster takes eight words of memory, and the
      chunk is full if the recording stops at its end. */
  function Recorded(stoppos: nat): (count: nat)
    ensures 1 <= count <= 64
    ensures forall i: nat :: i < count <==> i < 64 && (stoppos % 512 == 0 || 8 * i < stoppos % 512)
  {
    if stoppos % 512 == 0 then 64 else (stoppos % 512 + 7) / 8
  }

  /** A stamp past the limit, in terms of the time since the chunk before. The time is compared with a number
      of words; and a stamp that wraps around is taken for an early one, unless the limit does so as well. */
  predicate TooLate(stoppos: nat, lastts: nat, ts: nat)
    requires lastts < 0x1_0000 && ts < 0x1_0000
  {
    var words, time, wrap := stoppos % 512, Diff(ts, lastts), 0x1_0000 - lastts;
    if words + lastts == 0 || words == wrap then false
    else if words < wrap then words < time < wrap
    else time < wrap || words < time
  }

  lemma CutIff(stoppos: nat, lastts: nat, ts: nat)
    requires lastts < 0x1_0000 && ts < 0x1_0000
    ensures IsCut(LimitOf(stoppos, lastts), ts) <==> TooLate(stoppos, lastts, ts)
  {
    var sum := stoppos % 512 + lastts;
    assert LimitOf(stoppos, lastts) == if sum < 0x1_0000 then sum else sum - 0x1_0000;
  }

  /** The clusters sent of the last chunk are those recorded. */
  predicate KeepsRecorded(stoppos: nat, lastts: nat, clusters: seq<Cluster>) {
    CountOf(LimitOf(stoppos, lastts), clusters) == Recorded(stoppos)
  }

  predicate Stamped(clusters: seq<Cluster>) {
    |clusters| == 64 && forall i :: 0 <= i < 64 ==> clusters[i].ts < 0x1_0000
  }

  /** They are if and only if no recorded cluster comes too late, and the first one that was not recorded
      does, if there is one. */
  lemma KeepsRecordedIff(stoppos: nat, lastts: nat, clusters: seq<Cluster>)
    requires lastts < 0x1_0000 && Stamped(clusters)
    ensures
      var n := Recorded(stoppos);
      KeepsRecorded(stoppos, lastts, clusters) <==>
        && (forall i :: 0 <= i < n ==> !TooLate(stoppos, lastts, clusters[i].ts))
        && (n < 64 ==> TooLate(stoppos, lastts, clusters[n].ts))
  {
    var limit, n := LimitOf(stoppos, lastts), Recorded(stoppos);
    CountIs(limit, clusters, n);
    NoneCutIff(limit, clusters, n);
    forall i | 0 <= i < 64 ensures IsCut(limit, clusters[i].ts) <==> TooLate(stoppos, lastts, clusters[i].ts) {
      CutIff(stoppos, lastts, clusters[i].ts);
    }
  }

  lemma {:induction false} NoneCutIff(limitChunk: nat, clusters: seq<Cluster>, n: nat)
    requires n <= |clusters|
    ensures NoneCut(limitChunk, clusters, n) <==> forall i :: 0 <= i < n ==> !IsCut(limitChunk, clusters[i].ts)
  {
    if n > 0 {
      NoneCutIff(limitChunk, clusters, n - 1);
    }
  }

  predicate Later(lastts: nat, clusters: seq<Cluster>)
    requires lastts < 0x1_0000 && Stamped(clusters)
  {
    forall i, j :: 0 <= i < j < 64 ==> Diff(clusters[i].ts, lastts) <= Diff(clusters[j].ts, lastts)
  }

  /** In a chunk of which only a part was recorded, with clusters in the order of their times and no wrap of
      the limit, they are if and only if the last recorded one comes within as many units of time as words
      were recorded, and the next one later than that, but without a wrap of its stamp. */
  lemma PartIsKeptIff(stoppos: nat, lastts: nat, clusters: seq<Cluster>)
    requires Stamped(clusters) && 0 < stoppos % 512 && stoppos % 512 + lastts < 0x1_0000
    requires Recorded(stoppos) < 64 && Later(lastts, clusters)
    ensures
      var n := Recorded(stoppos);
      KeepsRecorded(stoppos, lastts, clusters) <==>
        Diff(clusters[n - 1].ts, lastts) <= stoppos % 512 < Diff(clusters[n].ts, lastts) < 0x1_0000 - lastts
  {
    KeepsRecordedIff(stoppos, lastts, clusters);
  }

  /** A full chunk is sent completely if and only if the chunk before ended at 0, or every stamp of this one is
      at most the last one before, and so has wrapped around. If its first stamp has not, nothing is sent. */
  lemma FullIsKeptIff(stoppos: nat, lastts: nat, clusters: seq<Cluster>)
    requires stoppos % 512 == 0 && lastts < 0x1_0000 && Stamped(clusters)
    ensures KeepsRecorded(stoppos, lastts, clusters) <==>
              lastts == 0 || forall i :: 0 <= i < 64 ==> clusters[i].ts <= lastts
    ensures lastts != 0 && lastts < clusters[0].ts ==> CountOf(LimitOf(stoppos, lastts), clusters) == 0
  {
    KeepsRecordedIff(stoppos, lastts, clusters);
    forall i | 0 <= i < 64
      ensures TooLate(stoppos, lastts, clusters[i].ts) <==> lastts != 0 && lastts < clusters[i].ts
    {
    }
    CutIff(stoppos, lastts, clusters[0].ts);
  }

  /** One full chunk after stamp 100, or 100 words after stamp 65500: the cluster ten units later has been
      recorded, and nothing is sent of it and of those after it. */
  lemma RecordedIsCut(clusters: seq<Cluster>)
    requires Stamped(clusters)
    ensures clusters[0].ts == 110 ==> CountOf(LimitOf(512, 100), clusters) == 0 < Recorded(512) == 64
    ensures clusters[0].ts == 65510 ==> CountOf(LimitOf(100, 65500), clusters) == 0 < Recorded(100) == 13
  {
  }

  // A recording.

  predicate IsChunk(s: nat, chunk: seq<Cluster>) {
    |chunk| == 64 && AreClusters(s, chunk)
  }

  predicate AreWhole(s: nat, chunks: seq<seq<Cluster>>) {
    chunks == [] || (AreWhole(s, chunks[..|chunks| - 1]) && IsChunk(s, chunks[|chunks| - 1]))
  }

  lemma {:induction false} EachIsWhole(s: nat, chunks: seq<seq<Cluster>>, c: nat)
    requires AreWhole(s, chunks) && c < |chunks|
    ensures IsChunk(s, chunks[c])
    decreases |chunks|
  {
    if c < |chunks| - 1 {
      EachIsWhole(s, chunks[..|chunks| - 1], c);
    }
  }

  /** A recording, where it stops, and the cluster of each chunk that is searched for the trigger, if there
      is one. */
  datatype Recording = Recording(s: nat, trigger: T.Trigger, useTriggers: bool, p: Position,
                                 chunks: seq<seq<Cluster>>, stoppos: nat, triggerts: seq<int>)
  {
    ghost predicate Valid() {
      s >= 1 && p.Valid() && |triggerts| == |chunks| && AreWhole(s, chunks)
    }

    /** The position before chunk `c`. */
    ghost function Start(c: nat): (at: Position)
      requires Valid() && c <= |chunks|
      ensures at.Valid()
      decreases c, 0
    {
      if c == 0 then p else Decode(c - 1).End()
    }

    /** The decoding of chunk `c`. */
    ghost function Decode(c: nat): (d: Decoding)
      requires Valid() && c < |chunks|
      ensures d.Valid()
      decreases c, 1
    {
      EachIsWhole(s, chunks, c);
      Decoding(s, trigger, useTriggers, Start(c), chunks[c], triggerts[c])
    }

    /** The last chunk may be valid only in part. */
    ghost function Limit(c: nat): nat
      requires Valid() && c < |chunks|
    {
      if c == |chunks| - 1 then LimitOf(stoppos, Start(c).lastts) else 0
    }

    ghost function Count(c: nat): (count: nat)
      requires Valid() && c < |chunks|
      ensures count <= 64
      ensures c < |chunks| - 1 ==> count == 64
    {
      NothingCut(chunks[c]);
      Decode(c).Count(Limit(c))
    }

    /** The valid clusters of the first `n` chunks. */
    ghost function Kept(n: nat): (kept: seq<seq<Cluster>>)
      requires Valid() && n <= |chunks|
      ensures |kept| == n
    {
      if n == 0 then [] else Kept(n - 1) + [Decode(n - 1).clusters[..Count(n - 1)]]
    }

    /** A trigger is put into this chunk. */
    ghost predicate Puts(c: nat)
      requires Valid() && c < |chunks|
    {
      useTriggers && 0 <= triggerts[c] < Count(c)
    }

    /** The samples of the chunk's valid clusters are sent; and if a trigger is put among them, it is where
        the search says. */
    ghost predicate IsPiece(c: nat, piece: Piece)
      requires Valid() && c < |chunks|
    {
      && piece.Fits()
      && piece.samples == Decode(c).SentBy(Count(c))
      && (piece.mark.Some? <==> Puts(c))
      && (piece.mark.Some? ==> piece.mark.value == Decode(c).Mark(Decode(c).Search(piece.stale)))
    }

    ghost predicate ArePieces(pieces: seq<Piece>)
      requires Valid() && |pieces| <= |chunks|
    {
      forall c :: 0 <= c < |pieces| ==> IsPiece(c, pieces[c])
    }

    lemma {:induction false} PiecesFit(pieces: seq<Piece>)
      requires Valid() && |pieces| <= |chunks| && ArePieces(pieces)
      ensures AllFit(pieces)
    {
      if pieces != [] {
        PiecesFit(pieces[..|pieces| - 1]);
      }
    }

    lemma {:induction false} KeptAreChunks(n: nat)
      requires Valid() && n <= |chunks|
      ensures AreChunks(s, Kept(n)) && AreClusters(s, Flatten(Kept(n)))
      ensures n < |chunks| ==> Start(n) == After(s, p, Flatten(Kept(n)))
    {
      if n > 0 {
        KeptAreChunks(n - 1);
        var d, count := Decode(n - 1), Count(n - 1);
        PrefixAreClusters(s, d.clusters, count);
        ClustersOfAll(s, Kept(n));
        if n < |chunks| {
          assert d.clusters[..count] == d.clusters;
          d.ReachedIsAfter(count);
          AfterOfJoin(s, p, Flatten(Kept(n - 1)), d.clusters);
        }
      }
    }

    lemma PieceIsSent(c: nat, piece: Piece)
      requires Valid() && c < |chunks| && IsPiece(c, piece)
      ensures AreClusters(s, Decode(c).clusters[..Count(c)])
      ensures piece.samples == Sent(s, Start(c), Decode(c).clusters[..Count(c)])
    {
      Decode(c).SentIsSent(Count(c));
    }

    /** Together the samples of the pieces are what is sent of the valid clusters. */
    lemma {:induction false} PiecesAreSent(pieces: seq<Piece>)
      requires Valid() && |pieces| <= |chunks| && ArePieces(pieces)
      ensures AreChunks(s, Kept(|pieces|))
      ensures AllSamples(pieces) == SentOfAll(s, p, Kept(|pieces|))
    {
      if pieces == [] {
        assert Kept(0) == [];
      } else {
        var c := |pieces| - 1;
        PiecesAreSent(pieces[..c]);
        PieceIsSent(c, pieces[c]);
        SentOfKept(c);
      }
    }

    lemma SentOfKept(c: nat)
      requires Valid() && c < |chunks|
      ensures AreChunks(s, Kept(c)) && AreChunks(s, Kept(c + 1)) && AreClusters(s, Decode(c).clusters[..Count(c)])
      ensures SentOfAll(s, p, Kept(c + 1)) ==
              SentOfAll(s, p, Kept(c)) + Sent(s, Start(c), Decode(c).clusters[..Count(c)])
    {
      KeptAreChunks(c);
      KeptAreChunks(c + 1);
      assert Kept(c + 1)[..c] == Kept(c);
    }
  }

  // The download.

  /** Where the device has stopped, and where its trigger was. */
  datatype Positions = Positions(stoppos: nat, triggerchunk: int, triggerpos: nat)

  function ChunksIn(y: Layout, bufs: seq<Chunk>): (chunks: seq<seq<Cluster>>)
    ensures |chunks| == |bufs|
  {
    seq(|bufs|, c requires 0 <= c < |bufs| => ClustersIn(y, bufs[c]))
  }

  /** Decoding starts one unit of time before the first cluster. */
  function FirstPosition(bufs: seq<Chunk>): (p: Position)
    ensures p.Valid()
  {
    if bufs == [] then Position(0, 0)
    else Position(if WordAt(bufs[0], 0) == 0 then 0xffff else WordAt(bufs[0], 0) - 1, 0)
  }

  /** The trigger position that chunk `c` is decoded with. */
  function Asked(c: nat, triggerchunk: int, triggerpos: nat): int {
    if Searched(c, triggerchunk) then triggerpos % 512 else -1
  }

  /** The cluster to search in each chunk. */
  function TriggersIn(n: nat, slow: bool, triggerchunk: int, triggerpos: nat): (triggerts: seq<int>)
    ensures |triggerts| == n
  {
    seq(n, c requires 0 <= c < n => TriggerCluster(slow, Asked(c, triggerchunk, triggerpos)))
  }

  ghost function RecordingOf(decoder: Decoder, bufs: seq<Chunk>, at: Positions): (r: Recording)
    requires decoder.layout.Valid()
    ensures r.Valid() && |r.chunks| == |bufs|
  {
    ChunksInAreChunks(decoder.layout, bufs);
    Recording(decoder.layout.samplesPerEvent, decoder.trigger, decoder.useTriggers, FirstPosition(bufs),
              ChunksIn(decoder.layout, bufs), at.stoppos, TriggersIn(|bufs|, decoder.slow, at.triggerchunk, at.triggerpos))
  }

  lemma {:induction false} ChunksInAreChunks(y: Layout, bufs: seq<Chunk>)
    ensures AreWhole(y.samplesPerEvent, ChunksIn(y, bufs))
  {
    if bufs != [] {
      var init, last := bufs[..|bufs| - 1], bufs[|bufs| - 1];
      ChunksInAreChunks(y, init);
      ClustersInAreClusters(y, last);
      assert ChunksIn(y, bufs)[..|bufs| - 1] == ChunksIn(y, init);
    }
  }

  /** The decoder is the one for the recording. */
  ghost predicate IsFor(decoder: Decoder, r: Recording) {
    && r.Valid() && decoder.layout.Valid() && r.s == decoder.layout.samplesPerEvent
    && r.trigger == decoder.trigger && r.useTriggers == decoder.useTriggers
  }

  /** Chunk by chunk, the recording is what is in the buffers. */
  ghost predicate IsIn(decoder: Decoder, r: Recording, bufs: seq<Chunk>, at: Positions) {
    && IsFor(decoder, r) && |r.chunks| == |bufs| && r.p == FirstPosition(bufs) && r.stoppos == at.stoppos
    && (forall c :: 0 <= c < |bufs| ==>
          && r.chunks[c] == ClustersIn(decoder.layout, bufs[c])
          && r.triggerts[c] == TriggerCluster(decoder.slow, Asked(c, at.triggerchunk, at.triggerpos)))
  }

  /** How far the download is: these pieces have been sent. */
  datatype Sending = Sending(r: Recording, said: Report, pieces: seq<Piece>) {
    function With(piece: Piece): Sending {
      this.(pieces := pieces + [piece])
    }

    /** The decoder has sent these pieces. */
    ghost predicate Reached(decoder: Decoder)
      requires r.Valid()
      reads decoder
    {
      && |pieces| <= |r.chunks| && r.ArePieces(pieces)
      && decoder.Said() == Heard(said, pieces)
    }

    /** It stands before the next chunk, if there is one. */
    ghost predicate Stands(decoder: Decoder)
      requires r.Valid()
      reads decoder
    {
      |pieces| < |r.chunks| ==> decoder.At() == r.Start(|pieces|)
    }
  }

  /** Read all chunks, in portions, and decode them; then send END. */
  method Download(decoder: Decoder, bufs: seq<Chunk>, at: Positions) returns (ghost pieces: seq<Piece>)
    requires decoder.layout.Valid()
    modifies decoder`lastts, decoder`lastsample, decoder`bus
    ensures |pieces| == |bufs| && RecordingOf(decoder, bufs, at).ArePieces(pieces)
    ensures decoder.Said() == Heard(old(decoder.Said()), pieces)
    ensures decoder.bus != [] && decoder.bus[|decoder.bus| - 1].End?
  {
    ghost var g := Sending(RecordingOf(decoder, bufs, at), decoder.Said(), []);
    var chunksDownloaded := 0;
    ghost var portions := 0;
    while chunksDownloaded < |bufs|
      invariant chunksDownloaded <= |bufs| && |g.pieces| == chunksDownloaded
      invariant g.r == RecordingOf(decoder, bufs, at) && g.said == old(decoder.Said())
      invariant chunksDownloaded < |bufs| ==> chunksDownloaded == 32 * portions
      invariant g.Reached(decoder) && (g.pieces != [] ==> g.Stands(decoder))
    {
      var newchunks := if |bufs| - chunksDownloaded < 32 then |bufs| - chunksDownloaded else 32;
      g := ReadPortion(decoder, bufs, chunksDownloaded, newchunks, at, portions, g);
      chunksDownloaded := chunksDownloaded + newchunks;
      portions := portions + 1;
    }
    pieces := g.pieces;
    decoder.SendEnd();
  }

  /** One portion. */
  method ReadPortion(decoder: Decoder, bufs: seq<Chunk>, chunksDownloaded: nat, newchunks: nat, at: Positions,
                     ghost portion: nat, ghost before: Sending)
    returns (ghost after: Sending)
    requires chunksDownloaded == 32 * portion && 1 <= newchunks <= 32 && chunksDownloaded + newchunks <= |bufs|
    requires IsIn(decoder, before.r, bufs, at)
    requires |before.pieces| == chunksDownloaded && before.Reached(decoder)
    requires before.pieces != [] ==> before.Stands(decoder)
    modifies decoder`lastts, decoder`lastsample, decoder`bus
    ensures after == before.(pieces := after.pieces) && |after.pieces| == chunksDownloaded + newchunks
    ensures after.Reached(decoder) && after.Stands(decoder)
  {
    StartDownload(decoder, bufs, chunksDownloaded, before);
    after := ReadChunks(decoder, bufs, chunksDownloaded, newchunks, at, portion, before);
  }

  /** The loop over its chunks. `chunksDownloaded` counts up while `i` does. */
  method ReadChunks(decoder: Decoder, bufs: seq<Chunk>, downloaded0: nat, newchunks: nat, at: Positions,
                    ghost portion: nat, ghost before: Sending)
    returns (ghost after: Sending)
    requires downloaded0 == 32 * portion && newchunks <= 32 && downloaded0 + newchunks <= |bufs|
    requires IsIn(decoder, before.r, bufs, at)
    requires |before.pieces| == downloaded0 && before.Reached(decoder) && before.Stands(decoder)
    modifies decoder`lastts, decoder`lastsample, decoder`bus
    ensures after == before.(pieces := after.pieces) && |after.pieces| == downloaded0 + newchunks
    ensures after.Reached(decoder) && after.Stands(decoder)
  {
    var chunksDownloaded := downloaded0;
    after := before;
    for i := 0 to newchunks
      invariant chunksDownloaded == downloaded0 + i == |after.pieces|
      invariant after == before.(pieces := after.pieces) && after.Reached(decoder) && after.Stands(decoder)
    {
      after := ReadChunk(decoder, bufs, chunksDownloaded, i, at, portion, after);
      chunksDownloaded := chunksDownloaded + 1;
    }
  }

  /** The first portion sets where decoding starts. */
  method StartDownload(decoder: Decoder, bufs: seq<Chunk>, chunksDownloaded: nat, ghost g: Sending)
    requires bufs != [] && decoder.layout.Valid() && g.r.Valid() && g.r.p == FirstPosition(bufs)
    requires |g.pieces| == chunksDownloaded <= |bufs| && (chunksDownloaded > 0 ==> g.Stands(decoder))
    modifies decoder`lastts, decoder`lastsample
    ensures g.Stands(decoder)
  {
    if chunksDownloaded == 0 {
      decoder.StartBefore(WordAt(bufs[0], 0));
    }
  }

  /** One chunk. The test for the trigger counts its place in the portion twice. */
  method ReadChunk(decoder: Decoder, bufs: seq<Chunk>, chunksDownloaded: nat, i: nat, at: Positions,
                   ghost portion: nat, ghost before: Sending)
    returns (ghost after: Sending)
    requires chunksDownloaded == 32 * portion + i && i < 32 && |before.pieces| == chunksDownloaded < |bufs|
    requires IsIn(decoder, before.r, bufs, at) && before.Reached(decoder) && before.Stands(decoder)
    modifies decoder`lastts, decoder`lastsample, decoder`bus
    ensures |after.pieces| == chunksDownloaded + 1 && after == before.(pieces := after.pieces)
    ensures after.Reached(decoder) && after.Stands(decoder)
  {
    AskedIs(at.triggerchunk, at.triggerpos, portion, i);
    var limitChunk := 0;
    if chunksDownloaded == |bufs| - 1 {
      limitChunk := LimitOf(at.stoppos, decoder.lastts);
    }
    if chunksDownloaded + i == at.triggerchunk {
      after := DecodeNext(decoder, bufs[chunksDownloaded], at.triggerpos % 512, limitChunk, before);
    } else {
      after := DecodeNext(decoder, bufs[chunksDownloaded], -1, limitChunk, before);
    }
  }

  lemma AskedIs(triggerchunk: int, triggerpos: nat, portion: nat, i: nat)
    requires i < 32
    ensures Asked(32 * portion + i, triggerchunk, triggerpos) ==
            if 32 * portion + i + i == triggerchunk then triggerpos % 512 else -1
  {
    Within(portion, i);
  }

  method DecodeNext(decoder: Decoder, buf: Chunk, triggerpos: int, limitChunk: nat, ghost before: Sending)
    returns (ghost after: Sending)
    requires IsFor(decoder, before.r) && before.Reached(decoder) && -1 <= triggerpos
    requires |before.pieces| < |before.r.chunks| && before.r.chunks[|before.pieces|] == ClustersIn(decoder.layout, buf)
    requires decoder.At() == before.r.Start(|before.pieces|)
    requires before.r.triggerts[|before.pieces|] == TriggerCluster(decoder.slow, triggerpos)
    requires limitChunk == before.r.Limit(|before.pieces|)
    modifies decoder`lastts, decoder`lastsample, decoder`bus
    ensures |after.pieces| == |before.pieces| + 1 && after == before.(pieces := after.pieces)
    ensures after.Reached(decoder) && after.Stands(decoder)
  {
    ghost var stale := DecodeFrom(decoder, buf, triggerpos, limitChunk, before.r.Decode(|before.pieces|));
    after := Extended(before, stale);
  }

  method DecodeFrom(decoder: Decoder, buf: Chunk, triggerpos: int, limitChunk: nat, ghost d: Decoding)
    returns (ghost stale: nat)
    requires decoder.Valid() && -1 <= triggerpos && limitChunk < 0x1_0000
    requires d == decoder.Start(buf, TriggerCluster(decoder.slow, triggerpos))
    modifies decoder`lastts, decoder`lastsample, decoder`bus
    ensures decoder.Said() == d.Outcome(old(decoder.Said()), d.Count(limitChunk), stale)
    ensures d.Count(limitChunk) == 64 ==> decoder.At() == d.End()
  {
    stale := decoder.DecodeChunk(buf, triggerpos, limitChunk);
  }

  lemma Extended(before: Sending, stale: nat) returns (after: Sending)
    requires before.r.Valid() && |before.pieces| < |before.r.chunks| && before.r.ArePieces(before.pieces)
    ensures |after.pieces| == |before.pieces| + 1 && after == before.(pieces := after.pieces)
    ensures before.r.ArePieces(after.pieces)
    ensures Heard(before.said, after.pieces) ==
            before.r.Decode(|before.pieces|).Outcome(
              Heard(before.said, before.pieces), before.r.Count(|before.pieces|), stale)
  {
    var piece := NextPiece(before.r, before.said, before.pieces, stale);
    after := before.With(piece);
  }

  lemma NextPiece(r: Recording, said: Report, pieces: seq<Piece>, stale: nat) returns (piece: Piece)
    requires r.Valid() && |pieces| < |r.chunks| && r.ArePieces(pieces)
    ensures r.ArePieces(pieces + [piece])
    ensures Heard(said, pieces + [piece]) ==
            r.Decode(|pieces|).Outcome(Heard(said, pieces), r.Count(|pieces|), stale)
  {
    piece := PieceOf(r, |pieces|, Heard(said, pieces), stale);
    assert (pieces + [piece])[..|pieces|] == pieces;
  }

  lemma PieceOf(r: Recording, c: nat, before: Report, stale: nat) returns (piece: Piece)
    requires r.Valid() && c < |r.chunks|
    ensures r.IsPiece(c, piece)
    ensures piece.After(before) == r.Decode(c).Outcome(before, r.Count(c), stale)
  {
    var d, count := r.Decode(c), r.Count(c);
    piece := Piece(d.SentBy(count), None, stale);
    if r.Puts(c) {
      d.MarkIsSent(count, d.Search(stale));
      piece := Piece(d.SentBy(count), Some(d.Mark(d.Search(stale))), stale);
    }
  }

  // What the download promises.

  /** The chunks that get a trigger are those that are searched, if triggers are used, and if the trigger's
      cluster is a valid one of that chunk. */
  lemma MarkedAreSearched(r: Recording, slow: bool, triggerchunk: int, triggerpos: nat, pieces: seq<Piece>, c: nat)
    requires r.Valid() && |pieces| <= |r.chunks| && r.ArePieces(pieces) && c < |r.chunks|
    requires r.triggerts == TriggersIn(|r.triggerts|, slow, triggerchunk, triggerpos)
    ensures c in Marked(pieces) <==>
            && c < |pieces| && Searched(c, triggerchunk)
            && r.useTriggers && TriggerCluster(slow, triggerpos % 512) < r.Count(c)
  {
    MarkedIff(r, pieces, c);
    PutsIff(r, slow, triggerchunk, triggerpos, c);
  }

  lemma {:induction false} MarkedIff(r: Recording, pieces: seq<Piece>, c: nat)
    requires r.Valid() && |pieces| <= |r.chunks| && r.ArePieces(pieces) && c < |r.chunks|
    ensures c in Marked(pieces) <==> c < |pieces| && r.Puts(c)
  {
    if pieces != [] {
      var n := |pieces| - 1;
      MarkedIff(r, pieces[..n], c);
      assert c == n ==> (pieces[n].mark.Some? <==> r.Puts(c)) by {
        PieceMark(r, n, pieces[n]);
      }
      assert n !in Marked(pieces[..n]);
    }
  }

  lemma PieceMark(r: Recording, c: nat, piece: Piece)
    requires r.Valid() && c < |r.chunks| && r.IsPiece(c, piece)
    ensures piece.mark.Some? <==> r.Puts(c)
  {
  }

  lemma PutsIff(r: Recording, slow: bool, triggerchunk: int, triggerpos: nat, c: nat)
    requires r.Valid() && c < |r.chunks| && r.triggerts == TriggersIn(|r.triggerts|, slow, triggerchunk, triggerpos)
    ensures r.Puts(c) <==>
            Searched(c, triggerchunk) && r.useTriggers && TriggerCluster(slow, triggerpos % 512) < r.Count(c)
  {
    SearchedForIff(r.triggerts[c], slow, triggerpos % 512, Searched(c, triggerchunk));
  }

  lemma SearchedForIff(triggerts: int, slow: bool, pos: nat, searched: bool)
    requires triggerts == TriggerCluster(slow, if searched then pos else -1)
    ensures 0 <= triggerts <==> searched
  {
  }

  /** A trigger in an odd chunk is not sent at all. */
  lemma {:induction false} OddIsNeverSent(r: Recording, slow: bool, triggerchunk: nat, triggerpos: nat,
                                          pieces: seq<Piece>, said: Report)
    requires r.Valid() && |pieces| <= |r.chunks| && r.ArePieces(pieces)
    requires r.triggerts == TriggersIn(|r.triggerts|, slow, triggerchunk, triggerpos)
    requires triggerchunk % 2 == 1
    ensures Heard(said, pieces) == said.More(AllSamples(pieces))
  {
    if pieces == [] {
      MoreNothing(said);
    } else {
      var init, last := pieces[..|pieces| - 1], pieces[|pieces| - 1];
      OddIsNeverSent(r, slow, triggerchunk, triggerpos, init, said);
      SearchedIff(|init|, triggerchunk);
      MoreMore(said, AllSamples(init), last.samples);
    }
  }

  /** The samples sent are the recording, at the times of its stamps, if and only if the valid clusters of
      every chunk are spread. */
  lemma DownloadIsTimeline(r: Recording, pieces: seq<Piece>, said: Report)
    requires r.Valid() && |pieces| == |r.chunks| && r.ArePieces(pieces)
    ensures var kept := r.Kept(|r.chunks|);
            && AreChunks(r.s, kept) && AreClusters(r.s, Flatten(kept))
            && (Heard(said, pieces).payload == said.payload + Timeline(r.s, r.p, Flatten(kept)) <==>
                  AllSpread(r.s, r.p, kept))
  {
    var kept := r.Kept(|r.chunks|);
    r.KeptAreChunks(|r.chunks|);
    assert Heard(said, pieces).payload == said.payload + SentOfAll(r.s, r.p, kept) by {
      r.PiecesAreSent(pieces);
      r.PiecesFit(pieces);
      HeardAll(said, pieces);
    }
    SameAfter(said.payload, SentOfAll(r.s, r.p, kept), Timeline(r.s, r.p, Flatten(kept)));
    assert SentOfAll(r.s, r.p, kept) == Timeline(r.s, r.p, Flatten(kept)) <==> AllSpread(r.s, r.p, kept) by {
      AllSentIsTimeline(r.s, r.p, kept);
    }
  }

  lemma SameAfter<T>(a: seq<T>, b: seq<T>, c: seq<T>)
    ensures a + b == a + c <==> b == c
  {
    if a + b == a + c {
      assert (a + b)[|a|..] == b && (a + c)[|a|..] == c;
    }
  }

  /** The last chunk of a download is sent as far as it was recorded if and only if none of its recorded clusters
      comes too late and the next one does; the chunks before it are always sent completely. */
  lemma LastIsSentIff(r: Recording)
    requires r.Valid() && r.chunks != []
    ensures var c, n := |r.chunks| - 1, Recorded(r.stoppos);
            var lastts, clusters := r.Start(c).lastts, r.Decode(c).clusters;
            && Stamped(clusters)
            && (r.Count(c) == n <==>
                  && (forall i :: 0 <= i < n ==> !TooLate(r.stoppos, lastts, clusters[i].ts))
                  && (n < 64 ==> TooLate(r.stoppos, lastts, clusters[n].ts)))
    ensures forall c :: 0 <= c < |r.chunks| - 1 ==> r.Count(c) == 64
  {
    var d := r.Decode(|r.chunks| - 1);
    ClustersAreStamped(r.s, d.clusters);
    KeepsRecordedIff(r.stoppos, d.p.lastts, d.clusters);
  }

  /** A recording of a single full chunk is sent if and only if its first stamp is 0 or 1; otherwise nothing of
      it is. */
  lemma OneFullChunkIsSentIff(decoder: Decoder, buf: Chunk, at: Positions, piece: Piece)
    requires decoder.layout.Valid() && at.stoppos % 512 == 0
    requires RecordingOf(decoder, [buf], at).ArePieces([piece])
    ensures RecordingOf(decoder, [buf], at).Count(0) ==
            if WordAt(buf, 0) <= 1 then 64 else 0
    ensures WordAt(buf, 0) > 1 ==> piece.samples == []
  {
    var r := RecordingOf(decoder, [buf], at);
    var clusters := r.Decode(0).clusters;
    assert clusters == ClustersIn(decoder.layout, buf);
    ClusterInIs(decoder.layout, buf, 0);
    ClustersAreStamped(r.s, clusters);
    FullIsKeptIff(at.stoppos, r.p.lastts, clusters);
    assert r.IsPiece(0, [piece][0]);
  }

  lemma ClustersAreStamped(s: nat, clusters: seq<Cluster>)
    requires AreClusters(s, clusters) && |clusters| == 64
    ensures Stamped(clusters)
  {
    forall i | 0 <= i < 64 ensures clusters[i].ts < 0x1_0000 {
      EachIsCluster(s, clusters, i);
    }
  }

  lemma {:induction false} FirstOfKept(r: Recording, n: nat)
    requires r.Valid() && 0 < n <= |r.chunks|
    ensures Flatten(r.Kept(n)) != [] ==> Flatten(r.Kept(n))[0] == r.Decode(0).clusters[0]
  {
    if n > 1 {
      FirstOfKept(r, n - 1);
      assert Flatten(r.Kept(n - 1)) != [];
    }
  }

  /** The recording starts one unit of time after the position that decoding starts from. */
  lemma RecordingStarts(decoder: Decoder, bufs: seq<Chunk>, at: Positions)
    requires decoder.layout.Valid()
    ensures var r := RecordingOf(decoder, bufs, at);
            && AreClusters(r.s, Flatten(r.Kept(|bufs|)))
            && StartsAt(r.s, r.p, Flatten(r.Kept(|bufs|)))
  {
    var r := RecordingOf(decoder, bufs, at);
    r.KeptAreChunks(|bufs|);
    if bufs != [] && Flatten(r.Kept(|bufs|)) != [] {
      FirstOfKept(r, |bufs|);
      ClusterInIs(decoder.layout, bufs[0], 0);
      FirstStampIs(r.s, Flatten(r.Kept(|bufs|)));
    }
  }
}
