/** The decoder of the ASIX Sigma: it unpacks the clusters of a chunk, pads the gaps between them, and puts
a trigger packet where the search says. */
module SigmaTimeline {
  import opened Bits
  import opened Bytes
  import opened Options
  import opened Products
  import opened SessionFeed
  import opened SigmaPinpoint
  import opened SigmaStream
  import opened SigmaUnpack
  import T = SigmaTrigger
  import opened Streams

  type WordPacket = Packet<nat>

  /** What a bus says: the samples, those of them that came before the first trigger, if there was one, and
      how many triggers there were. */
  datatype Report = Report(payload: seq<nat>, beforeTrigger: Option<seq<nat>>, triggers: nat) {
    function Triggered(): Report {
      Report(payload, if beforeTrigger.Some? then beforeTrigger else Some(payload), triggers + 1)
    }

    function More(samples: seq<nat>): Report {
      this.(payload := payload + samples)
    }

    /** More samples, with a trigger before sample `m` of them. */
    function Around(samples: seq<nat>, m: nat): Report
      requires m <= |samples|
    {
      Report(payload + samples, if beforeTrigger.Some? then beforeTrigger else Some(payload + samples[..m]), triggers + 1)
    }
  }

  function ReportOf(bus: seq<WordPacket>): Report {
    if bus == [] then Report([], None, 0)
    else
      var before, last := ReportOf(bus[..|bus| - 1]), bus[|bus| - 1];
      if last.Trigger? then before.Triggered() else before.More(Data(last))
  }

  lemma ReportOfSnoc(bus: seq<WordPacket>, p: WordPacket)
    ensures ReportOf(bus + [p]) ==
            if p.Trigger? then ReportOf(bus).Triggered() else ReportOf(bus).More(Data(p))
  {
    assert (bus + [p])[..|bus|] == bus;
  }

  /** The report is the payload of the bus, and the number of its triggers. */
  lemma {:induction false} ReportIs(bus: seq<WordPacket>)
    ensures ReportOf(bus).payload == Payload(bus) && ReportOf(bus).triggers == Triggers(bus)
  {
    if bus != [] {
      ReportIs(bus[..|bus| - 1]);
    }
  }

  /** What came before the first trigger is the payload of the packets before it. */
  lemma {:induction false} BeforeFirstTrigger(before: seq<WordPacket>, after: seq<WordPacket>)
    requires Triggers(before) == 0
    ensures ReportOf((before + [Packet.Trigger]) + after).beforeTrigger == Some(Payload(before))
    decreases |after|
  {
    var upto := before + [Packet.Trigger];
    if after == [] {
      assert upto + after == upto;
      ReportOfSnoc(before, Packet.Trigger);
      ReportIs(before);
      NoTriggerBefore(before);
    } else {
      var n := |after| - 1;
      BeforeFirstTrigger(before, after[..n]);
      LastLast(upto, after);
      ReportOfSnoc(upto + after[..n], after[n]);
    }
  }

  lemma {:induction false} NoTriggerBefore(bus: seq<WordPacket>)
    requires Triggers(bus) == 0
    ensures ReportOf(bus).beforeTrigger == None
  {
    if bus != [] {
      NoTriggerBefore(bus[..|bus| - 1]);
    }
  }

  lemma MoreMore(r: Report, a: seq<nat>, b: seq<nat>)
    ensures r.More(a).More(b) == r.More(a + b)
  {
    Associate(r.payload, a, b);
  }

  lemma AroundMore(r: Report, a: seq<nat>, m: nat, b: seq<nat>)
    requires m <= |a|
    ensures r.Around(a, m).More(b) == r.Around(a + b, m)
  {
    SliceOfFirst(a, b, m);
    Associate(r.payload, a, b);
  }

  lemma MoreAround(r: Report, a: seq<nat>, b: seq<nat>, m: nat)
    requires m <= |b|
    ensures r.More(a).Around(b, m) == r.Around(a + b, |a| + m)
  {
    SliceOfSecond(a, b, m);
    Associate(r.payload, a, b[..m]);
    Associate(r.payload, a, b);
  }

  lemma TriggeredBetween(r: Report, a: seq<nat>, m: nat)
    requires m <= |a|
    ensures r.More(a[..m]).Triggered().More(a[m..]) == r.Around(a, m)
  {
    SplitJoined(a, m);
    Associate(r.payload, a[..m], a[m..]);
  }

  /** The search looks at eight samples of the buffer; if there are only seven, the last one is what was
      in the buffer before. */
  function FirstEight(samples: seq<nat>, stale: nat): (eight: seq<nat>)
    requires |samples| >= 7
    ensures |eight| == 8
  {
    if |samples| == 7 then samples + [stale] else samples[..8]
  }

  function OffsetIn(t: T.Trigger, last: nat, samples: seq<nat>, stale: nat): (offset: nat)
    ensures offset <= |samples|
  {
    if |samples| < 7 then 0 else Search(t, last, FirstEight(samples, stale))
  }

  // The chunk as it comes from the device.

  type Chunk = b: seq<Byte> | |b| == 1024 witness seq(1024, _ => 0)

  function WordAt(buf: Chunk, at: nat): (word: nat)
    requires at < 1023
    ensures word < 0x1_0000
  {
    var low: nat, high: nat := buf[at], buf[at + 1];
    low + 0x100 * high
  }

  /** The seven words after a time stamp. */
  function EventsAt(buf: Chunk, i: nat): (events: seq<nat>)
    requires i < 64
    ensures |events| == 7
  {
    seq(7, j requires 0 <= j < 7 => WordAt(buf, i * 16 + 2 + 2 * j))
  }

  function ClusterAt(y: Layout, buf: Chunk, i: nat): Cluster
    requires i < 64
  {
    Cluster(WordAt(buf, i * 16), SamplesOf(y, EventsAt(buf, i)))
  }

  function ClustersIn(y: Layout, buf: Chunk): (clusters: seq<Cluster>)
    ensures |clusters| == 64
  {
    seq(64, i requires 0 <= i < 64 => ClusterAt(y, buf, i))
  }

  lemma ClusterInIs(y: Layout, buf: Chunk, i: nat)
    requires i < 64
    ensures ClustersIn(y, buf)[i] == ClusterAt(y, buf, i)
    ensures IsCluster(y.samplesPerEvent, ClusterAt(y, buf, i))
  {
    LengthOfSamples(y, EventsAt(buf, i));
  }

  lemma {:induction false} PrefixInAreClusters(y: Layout, buf: Chunk, n: nat)
    requires n <= 64
    ensures AreClusters(y.samplesPerEvent, ClustersIn(y, buf)[..n])
  {
    if n > 0 {
      PrefixInAreClusters(y, buf, n - 1);
      ClusterInIs(y, buf, n - 1);
      assert ClustersIn(y, buf)[..n][..n - 1] == ClustersIn(y, buf)[..n - 1];
    }
  }

  lemma ClustersInAreClusters(y: Layout, buf: Chunk)
    ensures AreClusters(y.samplesPerEvent, ClustersIn(y, buf))
  {
    var clusters := ClustersIn(y, buf);
    PrefixInAreClusters(y, buf, |clusters|);
    assert clusters[..|clusters|] == clusters;
  }

  /** The cluster the trigger is in, or -1. At low rates it has been noticed some events later. */
  function TriggerCluster(slow: bool, triggerpos: int): int {
    if triggerpos == -1 then -1
    else
      var pos := if slow then triggerpos - 6 else triggerpos;
      if pos < 0 then 0 else pos / 7
  }

  /** Rates of up to 50 MHz are low. */
  predicate IsSlow(rate: nat) {
    rate <= 50_000_000
  }

  /** A cluster is the trigger's if the position, moved back by six events at low rates but not before the start,
      is one of its seven. */
  lemma TriggerClusterIs(rate: nat, triggerpos: nat, i: nat)
    ensures var early := if rate <= 50_000_000 then 6 else 0;
            TriggerCluster(IsSlow(rate), triggerpos) == i <==>
              7 * i <= (if triggerpos < early then 0 else triggerpos - early) < 7 * i + 7
  {
  }

  /** Faster rates leave room for fewer probes, and put more samples into an event. */
  function LayoutOf(rate: nat): (y: Layout)
    ensures y.Valid()
  {
    if rate == 200_000_000 then Layout(4, 4) else if rate == 100_000_000 then Layout(2, 8) else Layout(1, 16)
  }

  /** Where the chunk is not valid any more. */
  predicate IsCut(limitChunk: nat, ts: nat) {
    limitChunk != 0 && ts > limitChunk
  }

  class Decoder {
    const layout: Layout
    const trigger: T.Trigger
    const useTriggers: bool
    const slow: bool
    var lastts: nat
    var lastsample: nat
    var bus: seq<WordPacket>

    predicate Valid()
      reads this
    {
      layout.Valid() && At().Valid()
    }

    /** The settings for a supported rate: up to 50 MHz, 100 MHz, or 200 MHz. */
    constructor (rate: nat, trigger: T.Trigger, useTriggers: bool)
      requires rate <= 50_000_000 || rate == 100_000_000 || rate == 200_000_000
      ensures layout == LayoutOf(rate) && layout.samplesPerEvent * layout.numProbes == 16 && (slow <==> IsSlow(rate))
      ensures this.trigger == trigger && this.useTriggers == useTriggers && bus == [] && Valid()
    {
      var numProbes := 16;
      if rate == 100_000_000 {
        numProbes := 8;
      } else if rate == 200_000_000 {
        numProbes := 4;
      }
      layout := Layout(16 / numProbes, numProbes);
      slow := rate <= 50_000_000;
      this.trigger, this.useTriggers := trigger, useTriggers;
      lastts, lastsample, bus := 0, 0, [];
    }

    function At(): Position
      reads this
    {
      Position(lastts, lastsample)
    }

    function Said(): Report
      reads this
    {
      ReportOf(bus)
    }

    method SendLogic(samples: seq<nat>)
      modifies this`bus
      ensures Said() == old(Said()).More(samples)
    {
      ReportOfSnoc(bus, Logic(samples));
      bus := bus + [Logic(samples)];
    }

    method SendTrigger()
      modifies this`bus
      ensures Said() == old(Said()).Triggered()
    {
      ReportOfSnoc(bus, Packet.Trigger);
      bus := bus + [Packet.Trigger];
    }

    /** END carries no samples. */
    method SendEnd()
      modifies this`bus
      ensures Said() == old(Said()) && bus == old(bus) + [End]
    {
      ReportOfSnoc(bus, End);
      MoreNothing(Said());
      bus := bus + [End];
    }

    /** Start one unit of time before a stamp, with all probes low. */
    method StartBefore(ts: nat)
      requires layout.Valid() && ts < 0x1_0000
      modifies this`lastts, this`lastsample
      ensures Valid() && At() == Position(if ts == 0 then 0xffff else ts - 1, 0)
    {
      lastts := if ts == 0 then 0xffff else ts - 1;
      lastsample := 0;
    }

    /** The buffer is as large as the longest gap. */
    ghost predicate Roomy(samples: array<nat>)
    {
      layout.Valid() && samples.Length == 0x1_0000 * layout.samplesPerEvent
    }

    /** Fill the buffer with the last sample up to the present time, if that is ahead. */
    method Pad(samples: array<nat>, tsdiff: nat, n: nat) returns (m: nat)
      requires Roomy(samples) && tsdiff < 0x1_0000 && n <= samples.Length
      modifies samples
      ensures m <= samples.Length
      ensures tsdiff > 7 ==> samples[..m] == Padding(layout.samplesPerEvent, Gap(tsdiff), lastsample)
      ensures tsdiff <= 7 ==> m == n && samples[..] == old(samples[..])
    {
      var numpad := tsdiff * layout.samplesPerEvent - 7 * layout.samplesPerEvent;
      PadLength(tsdiff, layout.samplesPerEvent);
      m := n;
      if numpad > 0 {
        for j := 0 to numpad
          invariant samples[..j] == Copies(lastsample, j)
        {
          samples[j] := lastsample;
          assert samples[..j + 1] == samples[..j] + [lastsample];
        }
        m := numpad;
        PaddingIsCopies(layout.samplesPerEvent, Gap(tsdiff), lastsample);
      }
    }

    /** Send the first samples of the buffer in packets of at most 2048. */
    method SendInParts(samples: array<nat>, n: nat)
      requires n <= samples.Length
      modifies this`bus
      ensures Said() == old(Said()).More(samples[..n])
    {
      var sent := 0;
      while sent < n
        invariant sent <= n && Said() == old(Said()).More(samples[..sent])
      {
        var tosend := if n - sent < 2048 then n - sent else 2048;
        MoreMore(old(Said()), samples[..sent], samples[sent..sent + tosend]);
        assert samples[..sent] + samples[sent..sent + tosend] == samples[..sent + tosend];
        SendLogic(samples[sent..sent + tosend]);
        sent := sent + tosend;
      }
    }

    method MakeSample(event: nat, k: nat) returns (curSample: nat)
      ensures curSample == SampleOf(layout, event, k, layout.numProbes)
    {
      curSample := 0;
      for l := 0 to layout.numProbes
        invariant curSample == SampleOf(layout, event, k, l)
      {
        PlaceIs(layout, k, l);
        if Bit(event, l * layout.samplesPerEvent + k) {
          curSample := SetBit(curSample, l);
        }
      }
    }

    method UnpackEvent(samples: array<nat>, event: nat, n0: nat) returns (n: nat)
      requires n0 + layout.samplesPerEvent <= samples.Length
      modifies samples
      ensures n == n0 + layout.samplesPerEvent
      ensures samples[..n] == old(samples[..n0]) + EventSamples(layout, event, layout.samplesPerEvent)
    {
      n := n0;
      for k := 0 to layout.samplesPerEvent
        invariant n == n0 + k
        invariant samples[..n] == old(samples[..n0]) + EventSamples(layout, event, k)
      {
        var sample := MakeSample(event, k);
        samples[n] := sample;
        n := n + 1;
        assert samples[..n] == samples[..n - 1] + [sample];
      }
    }

    method UnpackCluster(samples: array<nat>, events: seq<nat>) returns (n: nat)
      requires Roomy(samples) && |events| == 7
      modifies samples
      ensures n == 7 * layout.samplesPerEvent <= samples.Length
      ensures samples[..n] == SamplesOf(layout, events)
    {
      n := 0;
      for j := 0 to 7
        invariant n == j * layout.samplesPerEvent
        invariant samples[..n] == SamplesOf(layout, events[..j])
      {
        EventFits(j, layout.samplesPerEvent);
        assert events[..j + 1][..j] == events[..j];
        n := UnpackEvent(samples, events[j], n);
      }
      assert events[..7] == events;
    }

    /** Send the samples of a cluster, with the trigger among them if it is in this one. */
    method SendCluster(samples: array<nat>, n: nat, here: bool)
      requires Roomy(samples) && 7 <= n <= samples.Length
      modifies this`bus
      ensures
        var data := samples[..n];
        var offset := OffsetIn(trigger, lastsample, data, samples[7]);
        Said() == if here && useTriggers then old(Said()).Around(data, offset) else old(Said()).More(data)
    {
      var sent := 0;
      ghost var data, said := samples[..n], Said();
      MoreNothing(said);
      assert FirstEight(data, samples[7]) == samples[..8];
      if here {
        var tosend := GetTriggerOffset(samples, lastsample, trigger);
        if tosend > 0 {
          SendLogic(samples[..tosend]);
          sent := sent + tosend;
        }
        assert samples[..tosend] == data[..tosend];
        assert Said() == said.More(data[..tosend]);
        if useTriggers {
          SendTrigger();
        }
      }
      assert samples[sent..n] == data[sent..];
      MoreNothing(Said());
      MoreMore(said, data[..sent], data[sent..]);
      SplitJoined(data, sent);
      TriggeredBetween(said, data, sent);
      var tosend := n - sent;
      if tosend > 0 {
        SendLogic(samples[sent..n]);
      }
    }

    /** Pad up to the time of a cluster, and send the padding and the cluster. `n` is how much is in the
        buffer already. */
    method DecodeCluster(samples: array<nat>, events: seq<nat>, tsdiff: nat, n: nat, here: bool, ghost d: Decoding, ghost i: nat)
      returns (m: nat, ghost offset: nat, ghost stale: nat)
      requires IsFor(d) && Roomy(samples) && i < 64 && n <= samples.Length && (here <==> i == d.triggerts)
      requires |events| == 7 && d.Own(i) == SamplesOf(layout, events)
      requires tsdiff < 0x1_0000 && lastsample == d.Reached(i).lastsample
      requires d.GapBefore(i) ==
               if tsdiff > 7 then Padding(layout.samplesPerEvent, Gap(tsdiff), lastsample) else samples[..n]
      modifies this`bus, this`lastsample, samples
      ensures m <= samples.Length && samples[..m] == d.Own(i) && lastsample == d.Reached(i + 1).lastsample
      ensures offset == OffsetIn(trigger, old(lastsample), d.Own(i), stale)
      ensures Said() == d.SaysAfter(old(Said()), i, offset)
    {
      ghost var said, gap, own := Said(), d.GapBefore(i), d.Own(i);
      m, offset, stale := PadAndSend(samples, events, tsdiff, n, here, gap, own);
      d.SaysAfterIs(said, i, offset, gap, own);
    }

    method PadAndSend(samples: array<nat>, events: seq<nat>, tsdiff: nat, n: nat, here: bool,
                      ghost gap: seq<nat>, ghost own: seq<nat>)
      returns (m: nat, ghost offset: nat, ghost stale: nat)
      requires Roomy(samples) && |events| == 7 && tsdiff < 0x1_0000 && n <= samples.Length
      requires gap == if tsdiff > 7 then Padding(layout.samplesPerEvent, Gap(tsdiff), lastsample) else samples[..n]
      requires own == SamplesOf(layout, events)
      modifies this`bus, this`lastsample, samples
      ensures |own| > 0 && m <= samples.Length && samples[..m] == own && lastsample == own[|own| - 1]
      ensures offset == OffsetIn(trigger, old(lastsample), own, stale)
      ensures Said() == if here && useTriggers then old(Said()).Around(gap + own, |gap| + offset)
                        else old(Said()).More(gap + own)
    {
      ghost var said := Said();
      m := Pad(samples, tsdiff, n);
      assert samples[..m] == gap;
      SendInParts(samples, m);
      m := UnpackCluster(samples, events);
      stale := samples[7];
      offset := OffsetIn(trigger, lastsample, own, stale);
      SendCluster(samples, m, here);
      MoreMore(said, gap, own);
      MoreAround(said, gap, own, offset);
      lastsample := samples[m - 1];
    }

    method FindTriggerCluster(triggerpos: int) returns (triggerts: int)
      requires -1 <= triggerpos
      ensures triggerts == TriggerCluster(slow, triggerpos)
    {
      triggerts := -1;
      if triggerpos != -1 {
        var pos := triggerpos;
        if slow {
          pos := pos - (7 - 1);
        }
        if pos < 0 {
          pos := 0;
        }
        triggerts := pos / 7;
      }
    }

    /** Decode a chunk. The clusters up to the first one that is cut off are sent, and the time stamp of that
        one is still taken. */
    method DecodeChunk(buf: Chunk, triggerpos: int, limitChunk: nat) returns (ghost stale: nat)
      requires Valid() && -1 <= triggerpos && limitChunk < 0x1_0000
      modifies this`lastts, this`lastsample, this`bus
      ensures Valid()
      ensures
        var d := old(Start(buf, TriggerCluster(slow, triggerpos)));
        var count := d.Count(limitChunk);
        && lastsample == d.Reached(count).lastsample
        && lastts == (if count == 64 then d.Reached(count).lastts else d.clusters[count].ts)
        && Said() == d.Outcome(old(Said()), count, stale)
    {
      var triggerts := FindTriggerCluster(triggerpos);
      ghost var d, said := Start(buf, triggerts), Said();
      ghost var count, c;
      count, c := DecodeClusters(buf, triggerts, limitChunk);
      CountIs(limitChunk, d.clusters, count);
      d.SaysSamples(said, count, c.offset);
      stale := c.stale;
    }

    ghost function Start(buf: Chunk, triggerts: int): (d: Decoding)
      requires Valid()
      reads this
      ensures d.Valid()
    {
      ClustersInAreClusters(layout, buf);
      Decoding(layout.samplesPerEvent, trigger, useTriggers, At(), ClustersIn(layout, buf), triggerts)
    }

    method DecodeClusters(buf: Chunk, triggerts: int, limitChunk: nat) returns (ghost count: nat, ghost c: Course)
      requires Valid()
      modifies this`lastts, this`lastsample, this`bus
      ensures Valid() && IsCount(limitChunk, ClustersIn(layout, buf), count)
      ensures c.d == old(Start(buf, triggerts)) && c.said == old(Said())
      ensures lastsample == c.d.Reached(count).lastsample
      ensures lastts == if count == 64 then c.d.Reached(count).lastts else c.d.clusters[count].ts
      ensures 0 <= triggerts < count ==> c.offset == c.d.Search(c.stale)
      ensures c.d.Fits(c.offset) && Said() == c.d.Says(c.said, count, c.offset)
    {
      var samples := new nat[0x1_0000 * layout.samplesPerEvent];
      c := Course(Start(buf, triggerts), Said(), 0, 0);
      var n := 0;
      for i := 0 to 64
        invariant c.d == old(Start(buf, triggerts)) && c.said == old(Said())
        invariant NoneCut(limitChunk, c.d.clusters, i) && lastts == c.d.Reached(i).lastts
        invariant n >= 0 && Continues(c, samples, i, n)
        invariant 0 <= triggerts < i ==> c.offset == c.d.Search(c.stale)
      {
        var cut;
        cut, n, c := DecodeNext(samples, buf, i, limitChunk, triggerts, n, c);
        if cut {
          return i, c;
        }
      }
      count := 64;
    }

    /** One cluster, unless it is cut off. */
    method DecodeNext(samples: array<nat>, buf: Chunk, i: nat, limitChunk: nat, triggerts: int, n: nat, ghost before: Course)
      returns (cut: bool, m: nat, ghost c: Course)
      requires IsFor(before.d) && Roomy(samples) && i < 64 && Continues(before, samples, i, n)
      requires before.d.clusters == ClustersIn(layout, buf) && before.d.triggerts == triggerts
      requires lastts == before.d.Reached(i).lastts
      modifies this`lastts, this`lastsample, this`bus, samples
      ensures cut <==> IsCut(limitChunk, before.d.clusters[i].ts)
      ensures lastts == before.d.clusters[i].ts == before.d.Reached(i + 1).lastts
      ensures !cut ==> c.d == before.d && c.said == before.said && Continues(c, samples, i + 1, m)
      ensures cut ==> Said() == old(Said()) && lastsample == old(lastsample)
      ensures if !cut && i == triggerts then c.offset == c.d.Search(c.stale) else c == before
    {
      m, c := n, before;
      ClusterInIs(layout, buf, i);
      var ts := WordAt(buf, i * 16);
      var tsdiff := Diff(ts, lastts);
      lastts := ts;
      cut := IsCut(limitChunk, ts);
      if cut {
        return;
      }
      if i == triggerts {
        m, c := TakeTrigger(samples, i, EventsAt(buf, i), tsdiff, n, before);
      } else {
        m := TakeCluster(samples, i, EventsAt(buf, i), tsdiff, n, before);
      }
    }

    ghost predicate IsFor(d: Decoding) {
      d.Valid() && d.s == layout.samplesPerEvent && d.trigger == trigger && d.useTriggers == useTriggers
    }

    /** The decoder has come to cluster `i`, with `n` samples still in the buffer. */
    ghost predicate Continues(c: Course, samples: array<nat>, i: nat, n: nat)
      requires c.d.Valid() && i <= 64
      reads this, samples
    {
      && n <= samples.Length && samples[..n] == c.d.Buffered(i)
      && lastsample == c.d.Reached(i).lastsample
      && c.d.Fits(c.offset) && Said() == c.d.Says(c.said, i, c.offset)
    }

    /** A cluster without the trigger. */
    method TakeCluster(samples: array<nat>, i: nat, events: seq<nat>, tsdiff: nat, n: nat, ghost c: Course)
      returns (m: nat)
      requires IsFor(c.d) && Roomy(samples) && i < 64 && i != c.d.triggerts && Continues(c, samples, i, n)
      requires |events| == 7 && c.d.Own(i) == SamplesOf(layout, events)
      requires tsdiff == Diff(c.d.clusters[i].ts, c.d.Reached(i).lastts)
      modifies this`bus, this`lastsample, samples
      ensures Continues(c, samples, i + 1, m)
    {
      c.d.GapIs(i, tsdiff);
      ghost var o, s;
      m, o, s := DecodeCluster(samples, events, tsdiff, n, false, c.d, i);
    }

    /** The cluster with the trigger. */
    method TakeTrigger(samples: array<nat>, i: nat, events: seq<nat>, tsdiff: nat, n: nat, ghost before: Course)
      returns (m: nat, ghost c: Course)
      requires IsFor(before.d) && Roomy(samples) && i < 64 && i == before.d.triggerts && Continues(before, samples, i, n)
      requires |events| == 7 && before.d.Own(i) == SamplesOf(layout, events)
      requires tsdiff == Diff(before.d.clusters[i].ts, before.d.Reached(i).lastts)
      modifies this`bus, this`lastsample, samples
      ensures c.d == before.d && c.said == before.said
      ensures Continues(c, samples, i + 1, m) && c.offset == c.d.Search(c.stale)
    {
      before.d.GapIs(i, tsdiff);
      before.d.SaysUpTo(before.said, i, before.offset);
      ghost var offset, stale;
      m, offset, stale := DecodeCluster(samples, events, tsdiff, n, true, before.d, i);
      before.d.SaysUpTo(before.said, i, offset);
      c := before.(offset := offset, stale := stale);
    }
  }

  /** The decoding of a chunk on its way: what the bus said before it, and where in its cluster the trigger
      was found, and beside which stale sample. */
  datatype Course = Course(d: Decoding, said: Report, offset: nat, stale: nat)

  /** The circumstances of decoding a chunk. */
  datatype Decoding = Decoding(s: nat, trigger: T.Trigger, useTriggers: bool,
                               p: Position, clusters: seq<Cluster>, triggerts: int)
  {
    ghost predicate Valid() {
      s >= 1 && p.Valid() && |clusters| == 64 && AreClusters(s, clusters)
    }

    /** The position after `n` clusters, what has been sent by then, and what is left in the buffer. */
    ghost function Reached(n: nat): (at: Position)
      requires Valid() && n <= 64
      ensures at.Valid()
    {
      if n == 0 then p
      else
        var own := Own(n - 1);
        Position(clusters[n - 1].ts, own[|own| - 1])
    }

    /** The position after all clusters. */
    ghost function End(): Position
      requires Valid()
    {
      Reached(|clusters|)
    }

    ghost function SentBy(n: nat): seq<nat>
      requires Valid() && n <= 64
    {
      if n == 0 then [] else SentBy(n - 1) + (GapBefore(n - 1) + Own(n - 1))
    }

    ghost function Buffered(n: nat): seq<nat>
      requires Valid() && n <= 64
    {
      if n == 0 then [] else Own(n - 1)
    }

    /** What is sent for cluster `i`: padding, or what is in the buffer; and its own samples. */
    ghost function Own(i: nat): (samples: seq<nat>)
      requires Valid() && i < 64
      ensures |samples| == 7 * s && clusters[i].ts < 0x1_0000
    {
      EachIsCluster(s, clusters, i);
      clusters[i].samples
    }

    ghost function GapBefore(i: nat): seq<nat>
      requires Valid() && i < 64
    {
      EachIsCluster(s, clusters, i);
      var diff := Diff(clusters[i].ts, Reached(i).lastts);
      if diff > 7 then Padding(s, Gap(diff), Reached(i).lastsample) else Buffered(i)
    }

    lemma GapIs(i: nat, tsdiff: nat)
      requires Valid() && i < 64 && |Own(i)| == 7 * s && tsdiff == Diff(clusters[i].ts, Reached(i).lastts)
      ensures GapBefore(i) == if tsdiff > 7 then Padding(s, Gap(tsdiff), Reached(i).lastsample) else Buffered(i)
    {
    }

    /** How many clusters are valid. */
    ghost function Count(limitChunk: nat): (count: nat)
      requires Valid()
      ensures count <= 64
    {
      CountOf(limitChunk, clusters)
    }

    /** What the bus says after the first `count` clusters: their samples, and if the trigger is in one of
        them, it is where the search says. */
    ghost function Outcome(said: Report, count: nat, stale: nat): Report
      requires Valid() && count <= 64
    {
      if 0 <= triggerts < count && useTriggers then
        MarkIsSent(count, Search(stale));
        said.Around(SentBy(count), Mark(Search(stale)))
      else
        said.More(SentBy(count))
    }

    /** Where the search puts the trigger in its cluster. */
    ghost function Search(stale: nat): (offset: nat)
      requires Valid() && 0 <= triggerts < 64
      ensures offset <= |Own(triggerts)|
    {
      OffsetIn(trigger, Reached(triggerts).lastsample, Own(triggerts), stale)
    }

    /** What sample `k` of the trigger's cluster comes after: the sample before it, or the last one of the cluster
        before. */
    ghost function Preceding(k: nat): nat
      requires Valid() && 0 <= triggerts < 64 && k <= |Own(triggerts)|
    {
      if k > 0 then Own(triggerts)[k - 1] else if triggerts == 0 then p.lastsample else Own(triggerts - 1)[7 * s - 1]
    }

    /** The search finds the first of the samples that stops it, each compared with the one it comes after, of eight
        or as many as the cluster has. If none does, it gives the first one, or what comes after seven. */
    lemma SearchInCluster(stale: nat)
      requires Valid() && 0 <= triggerts < 64
      ensures var own, offset := Own(triggerts), Search(stale);
              && offset <= 7 && 7 <= |own|
              && (forall k :: 0 <= k < offset ==> !Stops(trigger, Preceding(k), own[k]))
              && (0 < offset < |own| ==> Stops(trigger, Preceding(offset), own[offset]))
              && (offset == 0 && !Stops(trigger, Preceding(0), own[0]) ==>
                    forall k :: 0 <= k < 8 && k < |own| ==> !Stops(trigger, Preceding(k), own[k]))
    {
      var own, last := Own(triggerts), Reached(triggerts).lastsample;
      var eight := FirstEight(own, stale);
      assert last == Preceding(0);
      SearchIsFirst(trigger, last, eight);
      forall k | 0 <= k < 8 && k < |own|
        ensures StopsAt(trigger, last, eight, k) <==> Stops(trigger, Preceding(k), own[k])
      {
      }
    }

    /** A sample of the trigger's cluster, counted from the start of the chunk's samples. */
    ghost function Mark(offset: nat): nat
      requires Valid() && 0 <= triggerts < 64
    {
      |SentBy(triggerts)| + |GapBefore(triggerts)| + offset
    }

    ghost predicate Fits(offset: nat)
      requires Valid()
    {
      0 <= triggerts < 64 ==> offset <= |Own(triggerts)|
    }

    /** What the bus says after `n` clusters, if it said `said` before. */
    ghost function Says(said: Report, n: nat, offset: nat): Report
      requires Valid() && n <= 64 && Fits(offset)
    {
      if n == 0 then said else SaysAfter(Says(said, n - 1, offset), n - 1, offset)
    }

    /** What it says after cluster `i`; a trigger is put before sample `offset` of it. */
    ghost function SaysAfter(before: Report, i: nat, offset: nat): Report
      requires Valid() && i < 64 && (i == triggerts ==> offset <= |Own(i)|)
    {
      var all := GapBefore(i) + Own(i);
      if i == triggerts && useTriggers then before.Around(all, |GapBefore(i)| + offset) else before.More(all)
    }

    lemma SaysAfterIs(before: Report, i: nat, offset: nat, gap: seq<nat>, own: seq<nat>)
      requires Valid() && i < 64 && gap == GapBefore(i) && own == Own(i) && offset <= |own|
      ensures SaysAfter(before, i, offset) ==
              if i == triggerts && useTriggers then before.Around(gap + own, |gap| + offset) else before.More(gap + own)
    {
    }

    /** Up to the trigger's cluster, it does not matter where in it the trigger is. */
    lemma {:induction false} SaysBefore(said: Report, n: nat, a: nat, b: nat)
      requires Valid() && n <= 64 && n <= triggerts && Fits(a) && Fits(b)
      ensures Says(said, n, a) == Says(said, n, b)
    {
      if n > 0 {
        SaysBefore(said, n - 1, a, b);
      }
    }

    /** The next cluster, if it has the trigger. */
    lemma SaysUpTo(said: Report, i: nat, offset: nat)
      requires Valid() && i < 64 && i == triggerts && Fits(offset)
      ensures Says(said, i, offset) == Says(said, i, 0)
      ensures Says(said, i + 1, offset) == SaysAfter(Says(said, i, 0), i, offset)
    {
      SaysBefore(said, i, offset, 0);
    }

    lemma {:induction false} SaysPlain(said: Report, n: nat, offset: nat)
      requires Valid() && n <= 64 && Fits(offset) && !(0 <= triggerts < n && useTriggers)
      ensures Says(said, n, offset) == said.More(SentBy(n))
    {
      if n == 0 {
        MoreNothing(said);
      } else {
        SaysPlain(said, n - 1, offset);
        MoreMore(said, SentBy(n - 1), GapBefore(n - 1) + Own(n - 1));
      }
    }

    lemma {:induction false} SaysAround(said: Report, n: nat, offset: nat)
      requires Valid() && n <= 64 && Fits(offset) && 0 <= triggerts < n && useTriggers
      ensures Mark(offset) <= |SentBy(n)|
      ensures Says(said, n, offset) == said.Around(SentBy(n), Mark(offset))
    {
      var i := n - 1;
      if i == triggerts {
        SaysPlain(said, i, offset);
        MoreAround(said, SentBy(i), GapBefore(i) + Own(i), |GapBefore(i)| + offset);
      } else {
        SaysAround(said, i, offset);
        AroundMore(said, SentBy(i), Mark(offset), GapBefore(i) + Own(i));
      }
    }

    lemma MarkIsSent(n: nat, offset: nat)
      requires Valid() && n <= 64 && Fits(offset) && 0 <= triggerts < n
      ensures Mark(offset) <= |SentBy(n)|
    {
      SentIsPrefix(triggerts + 1, n);
    }

    /** The sample before which the trigger is put is the one the search has found in its cluster. */
    lemma MarkedSample(n: nat, offset: nat)
      requires Valid() && n <= 64 && 0 <= triggerts < n && offset < |Own(triggerts)|
      ensures Mark(offset) < |SentBy(n)| && SentBy(n)[Mark(offset)] == Own(triggerts)[offset]
    {
      SentIsPrefix(triggerts + 1, n);
      InThird(SentBy(triggerts), GapBefore(triggerts), Own(triggerts), offset);
    }

    lemma {:induction false} SentIsPrefix(m: nat, n: nat)
      requires Valid() && m <= n <= 64
      ensures SentBy(m) <= SentBy(n)
    {
      if m < n {
        SentIsPrefix(m, n - 1);
      }
    }

    /** It says the samples of the clusters; and if the trigger is in one of them, it is where the search
        puts it. */
    lemma SaysSamples(said: Report, n: nat, offset: nat)
      requires Valid() && n <= 64 && Fits(offset)
      ensures 0 <= triggerts < n ==> Mark(offset) <= |SentBy(n)|
      ensures Says(said, n, offset) ==
              if 0 <= triggerts < n && useTriggers then said.Around(SentBy(n), Mark(offset)) else said.More(SentBy(n))
    {
      if 0 <= triggerts < n {
        MarkIsSent(n, offset);
      }
      if 0 <= triggerts < n && useTriggers {
        SaysAround(said, n, offset);
      } else {
        SaysPlain(said, n, offset);
      }
    }

    lemma ReachedIsAfter(n: nat)
      requires Valid() && n <= 64 && AreClusters(s, clusters[..n]) && (n < 64 ==> IsCluster(s, clusters[n]))
      ensures Reached(n) == After(s, p, clusters[..n])
      ensures n < 64 ==> GapBefore(n) == Between(s, p, clusters[..n], clusters[n])
    {
    }

    /** This is what the clusters are sent as, taken together. */
    lemma {:induction false} SentIsSent(n: nat)
      requires Valid() && n <= 64
      ensures AreClusters(s, clusters[..n])
      ensures SentBy(n) == Sent(s, p, clusters[..n])
    {
      PrefixAreClusters(s, clusters, n);
      if n > 0 {
        SentIsSent(n - 1);
        EachIsCluster(s, clusters, n - 1);
        ReachedIsAfter(n - 1);
        assert clusters[..n][..n - 1] == clusters[..n - 1];
      }
    }
  }

  /** The first `n` clusters are valid. */
  predicate NoneCut(limitChunk: nat, clusters: seq<Cluster>, n: nat)
    requires n <= |clusters|
  {
    n == 0 || (NoneCut(limitChunk, clusters, n - 1) && !IsCut(limitChunk, clusters[n - 1].ts))
  }

  /** How many clusters of a chunk are valid. */
  predicate IsCount(limitChunk: nat, clusters: seq<Cluster>, count: nat) {
    && count <= |clusters|
    && NoneCut(limitChunk, clusters, count)
    && (count < |clusters| ==> IsCut(limitChunk, clusters[count].ts))
  }

  function CountOf(limitChunk: nat, clusters: seq<Cluster>): (count: nat)
    ensures count <= |clusters|
  {
    if clusters == [] || IsCut(limitChunk, clusters[0].ts) then 0 else 1 + CountOf(limitChunk, clusters[1..])
  }

  lemma {:induction false} CountIs(limitChunk: nat, clusters: seq<Cluster>, count: nat)
    ensures IsCount(limitChunk, clusters, count) <==> count == CountOf(limitChunk, clusters)
  {
    if 0 < count <= |clusters| {
      CountIs(limitChunk, clusters[1..], count - 1);
      NoneCutFromSecond(limitChunk, clusters, count);
    }
  }

  lemma {:induction false} NothingCut(clusters: seq<Cluster>)
    ensures CountOf(0, clusters) == |clusters|
  {
    if clusters != [] {
      NothingCut(clusters[1..]);
    }
  }

  lemma {:induction false} NoneCutFromSecond(limitChunk: nat, clusters: seq<Cluster>, n: nat)
    requires 0 < n <= |clusters|
    ensures NoneCut(limitChunk, clusters, n) <==>
            !IsCut(limitChunk, clusters[0].ts) && NoneCut(limitChunk, clusters[1..], n - 1)
  {
    if n > 1 {
      NoneCutFromSecond(limitChunk, clusters, n - 1);
    }
  }

  lemma InThird<T>(a: seq<T>, b: seq<T>, c: seq<T>, i: nat)
    requires i < |c|
    ensures |a| + |b| + i < |a + (b + c)| && (a + (b + c))[|a| + |b| + i] == c[i]
  {
  }

  lemma MoreNothing(r: Report)
    ensures r.More([]) == r
  {
  }

  lemma PadLength(tsdiff: nat, s: nat)
    requires s >= 1 && tsdiff < 0x1_0000
    ensures tsdiff * s - 7 * s > 0 <==> tsdiff > 7
    ensures tsdiff > 7 ==> tsdiff * s - 7 * s == Gap(tsdiff) * s <= 0x1_0000 * s
  {
    if tsdiff > 7 {
      Monotone(8, tsdiff, s);
      Monotone(tsdiff, 0x1_0000, s);
    } else {
      Monotone(tsdiff, 7, s);
    }
  }

  lemma EventFits(j: nat, s: nat)
    requires j < 7
    ensures j * s + s == (j + 1) * s <= 0x1_0000 * s
  {
    Monotone(j + 1, 0x1_0000, s);
  }
}
