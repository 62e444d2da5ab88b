/** The memory of the ASIX Sigma as the device fills it: what the decoder must make of the bytes, stated from
the other side. */
module SigmaMemory {
  import opened Bits
  import opened Bytes
  import opened Streams
  import opened SigmaDownload
  import opened SigmaStream
  import opened SigmaTimeline
  import opened SigmaUnpack

  /** What the device records of a cluster: a time stamp, and seven words of events, the earliest first. */
  datatype Record = Record(ts: nat, events: seq<nat>) {
    predicate Valid() {
      ts < 0x1_0000 && |events| == 7 && forall j :: 0 <= j < 7 ==> events[j] < 0x1_0000
    }

    /** Eight words: the stamp, then the events. */
    function WordAt(k: nat): (word: nat)
      requires Valid() && k < 8
      ensures word < 0x1_0000
    {
      if k == 0 then ts else events[k - 1]
    }
  }

  predicate IsRecorded(records: seq<Record>) {
    |records| == 64 && forall i :: 0 <= i < 64 ==> records[i].Valid()
  }

  /** A chunk of 64 records, 16 bytes each; the low byte of a word comes first. */
  function ChunkOf(records: seq<Record>): (chunk: Chunk)
    requires IsRecorded(records)
  {
    seq(1024, at requires 0 <= at < 1024 =>
      ByteOfWord(records[at / 16].WordAt(at % 16 / 2), at % 2))
  }

  function ByteOfWord(word: nat, high: nat): Byte
    requires word < 0x1_0000
  {
    if high == 0 then word % 0x100 else word / 0x100
  }

  /** The cluster that a record means. */
  function ClusterOf(y: Layout, record: Record): Cluster
  {
    Cluster(record.ts, SamplesOf(y, record.events))
  }

  lemma WordIsRead(records: seq<Record>, i: nat, k: nat)
    requires IsRecorded(records) && i < 64 && k < 8
    ensures SigmaTimeline.WordAt(ChunkOf(records), i * 16 + 2 * k) == records[i].WordAt(k)
  {
    var at := i * 16 + 2 * k;
    assert at / 16 == i && (at + 1) / 16 == i && at % 16 / 2 == k && (at + 1) % 16 / 2 == k;
    assert at % 2 == 0 && (at + 1) % 2 == 1;
  }

  /** The decoder reads the stamp and the events of every record, each in its place. */
  lemma RecordIsRead(y: Layout, records: seq<Record>, i: nat)
    requires IsRecorded(records) && i < 64
    ensures ClustersIn(y, ChunkOf(records))[i] == ClusterOf(y, records[i])
  {
    WordIsRead(records, i, 0);
    forall j | 0 <= j < 7 ensures EventsAt(ChunkOf(records), i)[j] == records[i].events[j] {
      WordIsRead(records, i, j + 1);
    }
    assert EventsAt(ChunkOf(records), i) == records[i].events;
  }

  /** Sample `k` of event `j`, among the samples of all events. */
  lemma {:induction false} SampleOfEvent(y: Layout, events: seq<nat>, j: nat, k: nat)
    requires j < |events| && k < y.samplesPerEvent
    ensures j * y.samplesPerEvent + k < |SamplesOf(y, events)|
    ensures SamplesOf(y, events)[j * y.samplesPerEvent + k] == SampleOf(y, events[j], k, y.numProbes)
    decreases |events|
  {
    var init, last, s := events[..|events| - 1], events[|events| - 1], y.samplesPerEvent;
    LengthOfSamples(y, init);
    if j < |init| {
      SampleOfEvent(y, init, j, k);
    } else {
      SampleInEvent(y, last, s, k);
    }
  }

  lemma {:induction false} SampleInEvent(y: Layout, event: nat, n: nat, k: nat)
    requires k < n
    ensures EventSamples(y, event, n)[k] == SampleOf(y, event, k, y.numProbes)
  {
    if k < n - 1 {
      SampleInEvent(y, event, n - 1, k);
    }
  }

  /** Probe `l` in sample `k` of event `j` of a cluster is one bit of one word the device has recorded. */
  lemma ProbeIsBit(y: Layout, records: seq<Record>, i: nat, j: nat, k: nat, l: nat)
    requires IsRecorded(records) && i < 64 && j < 7 && k < y.samplesPerEvent && l < y.numProbes
    ensures var samples := ClustersIn(y, ChunkOf(records))[i].samples;
            && j * y.samplesPerEvent + k < |samples|
            && (Bit(samples[j * y.samplesPerEvent + k], l) <==> Bit(records[i].events[j], l * y.samplesPerEvent + k))
  {
    RecordIsRead(y, records, i);
    SampleOfEvent(y, records[i].events, j, k);
    BitOfSample(y, records[i].events[j], k, y.numProbes, l);
  }

  // A whole recording.

  predicate AreRecorded(memory: seq<seq<Record>>) {
    forall c :: 0 <= c < |memory| ==> IsRecorded(memory[c])
  }

  function ChunksOf(memory: seq<seq<Record>>): (bufs: seq<Chunk>)
    requires AreRecorded(memory)
    ensures |bufs| == |memory|
  {
    seq(|memory|, c requires 0 <= c < |memory| => ChunkOf(memory[c]))
  }

  /** A download of what the device has recorded: the clusters kept are those of its records, in order, and what
      is sent is the recording they make, at the times of their stamps, if and only if they are spread. */
  lemma DownloadIsRecording(decoder: Decoder, memory: seq<seq<Record>>, at: Positions, pieces: seq<Piece>, said: Report)
    requires decoder.layout.Valid() && AreRecorded(memory)
    requires |pieces| == |memory| && RecordingOf(decoder, ChunksOf(memory), at).ArePieces(pieces)
    ensures var r := RecordingOf(decoder, ChunksOf(memory), at);
            var kept := r.Kept(|memory|);
            && AreKept(decoder.layout, memory, kept)
            && AreChunks(r.s, kept) && AreClusters(r.s, Flatten(kept))
            && (Heard(said, pieces).payload == said.payload + Timeline(r.s, r.p, Flatten(kept)) <==>
                  AllSpread(r.s, r.p, kept))
  {
    var r := RecordingOf(decoder, ChunksOf(memory), at);
    forall c | 0 <= c < |memory|
      ensures IsKept(decoder.layout, memory[c], r.Kept(|memory|)[c])
      ensures c < |memory| - 1 ==> |r.Kept(|memory|)[c]| == 64
    {
      KeptAt(r, |memory|, c);
      ChunkIsKept(decoder.layout, memory, r, c);
    }
    DownloadIsTimeline(r, pieces, said);
  }

  /** Of every chunk the first clusters are kept, all of them but in the last one. */
  predicate AreKept(y: Layout, memory: seq<seq<Record>>, kept: seq<seq<Cluster>>) {
    && |kept| == |memory|
    && forall c :: 0 <= c < |kept| ==> IsKept(y, memory[c], kept[c]) && (c < |kept| - 1 ==> |kept[c]| == 64)
  }

  predicate IsKept(y: Layout, records: seq<Record>, clusters: seq<Cluster>) {
    |clusters| <= |records| && forall i :: 0 <= i < |clusters| ==> clusters[i] == ClusterOf(y, records[i])
  }

  lemma {:induction false} KeptAt(r: Recording, n: nat, c: nat)
    requires r.Valid() && c < n <= |r.chunks|
    ensures r.Kept(n)[c] == r.Decode(c).clusters[..r.Count(c)]
  {
    if c < n - 1 {
      KeptAt(r, n - 1, c);
    }
  }

  lemma ChunkIsKept(y: Layout, memory: seq<seq<Record>>, r: Recording, c: nat)
    requires AreRecorded(memory) && r.Valid() && r.chunks == ChunksIn(y, ChunksOf(memory)) && c < |memory|
    ensures IsKept(y, memory[c], r.Decode(c).clusters[..r.Count(c)])
  {
    forall i | 0 <= i < r.Count(c) ensures r.Decode(c).clusters[i] == ClusterOf(y, memory[c][i]) {
      RecordIsRead(y, memory[c], i);
    }
  }
}
