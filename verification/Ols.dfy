/** The OpenBench Logic Sniffer driver: the bytes from the device are decoded one at a time into a
buffer that is filled from its end, because the device sends the latest sample first. */
module Ols {
  import opened Bits
  import opened Bytes
  import opened FloorDivision
  import opened OlsStream
  import opened Products
  import opened SessionFeed
  import opened Streams

  const CLOCK_RATE := 100_000_000
  const LOWEST_RATE := 10
  const HIGHEST_RATE := 200_000_000

  type FramePacket = Packet<Frame>

  function Reversed<T>(s: seq<T>): (r: seq<T>)
    ensures |r| == |s|
    ensures forall i :: 0 <= i < |s| ==> r[i] == s[|s| - 1 - i]
  {
    seq(|s|, i requires 0 <= i < |s| => s[|s| - 1 - i])
  }

  /** The last cells of the buffer hold the samples, the first one last. */
  predicate HeldFromEnd<T(==)>(buffer: seq<T>, samples: seq<T>) {
    && |samples| <= |buffer|
    && forall i :: 0 <= i < |samples| ==> buffer[|buffer| - 1 - i] == samples[i]
  }

  /** What the flag register says: four bits that disable groups, from bit 2 up, and bit 8 for run lengths. */
  function FormatOf(flagReg: nat): Format {
    Format([!Bit(flagReg, 2), !Bit(flagReg, 3), !Bit(flagReg, 4), !Bit(flagReg, 5)], Bit(flagReg, 8))
  }

  /** The loop that counts the enabled groups, from bit 5 down. */
  method CountChannels(flagReg: nat) returns (numChannels: nat)
    ensures numChannels == FormatOf(flagReg).Channels()
  {
    numChannels := 0;
    var i := 0x20;
    ghost var groups, j := FormatOf(flagReg).enabled, 5;
    assert groups[..4] == groups;
    while i > 0x02
      invariant 1 <= j <= 5 && i == Pow2(j)
      invariant numChannels + Enabled(groups[..j - 1]) == FormatOf(flagReg).Channels()
    {
      BitOfPow2(flagReg, j);
      assert groups[..j - 1][..j - 2] == groups[..j - 2];
      if And(flagReg, i) == 0 {
        numChannels := numChannels + 1;
      }
      i := i / 2;
      j := j - 1;
    }
  }

  /** At most the first `n` elements. */
  function First<T>(s: seq<T>, n: nat): seq<T> {
    if |s| <= n then s else s[..n]
  }

  lemma FirstIs<T>(s: seq<T>, n: nat)
    ensures First(s, n) <= s && |First(s, n)| <= n && (|First(s, n)| < n ==> First(s, n) == s)
  {
  }

  /** What ends an acquisition: `triggerAt` is the number of samples before the trigger, -1 if there was none. */
  function FinalPackets(data: seq<Frame>, triggerAt: int): seq<FramePacket>
    requires -1 <= triggerAt <= |data|
  {
    (if triggerAt == -1 then [Logic(data)] else AroundTrigger(data, triggerAt)) + [End]
  }

  function AroundTrigger(data: seq<Frame>, triggerAt: nat): seq<FramePacket>
    requires triggerAt <= |data|
  {
    Before(data, triggerAt) + [Trigger, Logic(data[triggerAt..])]
  }

  /** A trigger on the first sample has no packet before it. */
  function Before(data: seq<Frame>, triggerAt: nat): seq<FramePacket>
    requires triggerAt <= |data|
  {
    if triggerAt == 0 then [] else [Logic(data[..triggerAt])]
  }

  /** The packets hold all samples once, in order, also where the trigger splits them. */
  lemma SplitLosesNothing(data: seq<Frame>, triggerAt: int)
    requires -1 <= triggerAt <= |data|
    ensures Payload(FinalPackets(data, triggerAt)) == data
  {
    if triggerAt == -1 {
      PayloadSnoc([], Logic(data));
      PayloadSnoc([Logic(data)], End);
    } else {
      PayloadAround(data, triggerAt);
      PayloadSnoc(AroundTrigger(data, triggerAt), End);
    }
  }

  lemma PayloadAround(data: seq<Frame>, triggerAt: nat)
    requires triggerAt <= |data|
    ensures Payload(AroundTrigger(data, triggerAt)) == data
  {
    var before := Before(data, triggerAt);
    PayloadBefore(data, triggerAt);
    PayloadSnoc(before, Trigger);
    PayloadSnoc(before + [Trigger], Logic(data[triggerAt..]));
    TwoAppended(before, Trigger, Logic(data[triggerAt..]));
    SplitJoined(data, triggerAt);
  }

  lemma PayloadBefore(data: seq<Frame>, triggerAt: nat)
    requires triggerAt <= |data|
    ensures Payload(Before(data, triggerAt)) == data[..triggerAt]
  {
    if triggerAt > 0 {
      PayloadSnoc([], Logic(data[..triggerAt]));
    }
  }

  /** There is a trigger packet exactly if there was a trigger; it follows the samples before the trigger. */
  lemma TriggerIsPlaced(data: seq<Frame>, triggerAt: int, i: nat)
    requires -1 <= triggerAt <= |data| && i < |FinalPackets(data, triggerAt)|
    ensures triggerAt >= 0 ==> |Before(data, triggerAt)| < |FinalPackets(data, triggerAt)|
    ensures FinalPackets(data, triggerAt)[i].Trigger? <==> triggerAt >= 0 && i == |Before(data, triggerAt)|
    ensures FinalPackets(data, triggerAt)[i].Trigger? ==> Payload(FinalPackets(data, triggerAt)[..i]) == data[..triggerAt]
    ensures FinalPackets(data, triggerAt)[i].End? <==> i == |FinalPackets(data, triggerAt)| - 1
  {
    if triggerAt >= 0 {
      PayloadBefore(data, triggerAt);
      var before := Before(data, triggerAt);
      assert FinalPackets(data, triggerAt)[..|before|] == before;
    }
  }

  lemma TwoAppended<T>(s: seq<T>, a: T, b: T)
    ensures s + [a] + [b] == s + [a, b]
  {
  }

  // What receiving does to the decoded stream.

  /** How far a stream has been decoded: the bytes of the word begun, and what the words before it give. */
  datatype Progress = Progress(pending: seq<Byte>, decoded: Decoded)

  function ProgressOf(format: Format, bytes: seq<Byte>): Progress
    requires format.Valid()
  {
    if bytes == [] then Progress([], Decoded(0, []))
    else TakeByte(format, ProgressOf(format, bytes[..|bytes| - 1]), bytes[|bytes| - 1])
  }

  function TakeByte(format: Format, p: Progress, byte: Byte): Progress
    requires format.Valid()
  {
    var word := p.pending + [byte];
    if |word| == format.Channels() then Progress([], TakeWord(format, p.decoded, word))
    else Progress(word, p.decoded)
  }

  lemma ProgressByByte(format: Format, received: seq<Byte>, byte: Byte)
    requires format.Valid()
    ensures ProgressOf(format, received + [byte]) == TakeByte(format, ProgressOf(format, received), byte)
  {
    assert (received + [byte])[..|received|] == received;
  }

  /** Decoding byte by byte is decoding the words the bytes form. */
  lemma {:induction false} ProgressIsDecoding(format: Format, bytes: seq<Byte>)
    requires format.Valid()
    ensures
      var chopped := Chop(format.Channels(), bytes);
      ProgressOf(format, bytes) == Progress(chopped.pending, DecodeWords(format, chopped.words))
  {
    if bytes != [] {
      var init, last := bytes[..|bytes| - 1], bytes[|bytes| - 1];
      ProgressIsDecoding(format, init);
      var c := Chop(format.Channels(), init);
      DecodeSnoc(format, c.words, c.pending + [last]);
    }
  }

  lemma ProgressIsExpansion(format: Format, bytes: seq<Byte>)
    requires format.Valid()
    ensures ProgressOf(format, bytes).decoded.samples == Expansion(format, bytes)
  {
    ProgressIsDecoding(format, bytes);
  }

  lemma ProgressGrows(format: Format, p: Progress, byte: Byte)
    requires format.Valid()
    ensures p.decoded.samples <= TakeByte(format, p, byte).decoded.samples
  {
  }

  /** A word read from memory that holds zeros above it. */
  lemma {:induction false} WordOfPadded(bytes: seq<Byte>, zeros: seq<Byte>)
    requires forall i :: 0 <= i < |zeros| ==> zeros[i] == 0
    ensures Word(bytes + zeros) == Word(bytes)
    decreases |bytes| + |zeros|
  {
    if bytes != [] {
      assert (bytes + zeros)[1..] == bytes[1..] + zeros;
      WordOfPadded(bytes[1..], zeros);
    } else if zeros != [] {
      assert bytes + zeros == zeros;
      assert [] + zeros[1..] == zeros[1..];
      WordOfPadded([], zeros[1..]);
    } else {
      assert bytes + zeros == [];
    }
  }

  class Device {
    const format: Format
    const limitSamples: nat
    const triggerAt: int
    var numSamples: nat
    var rleCount: nat
    var numBytes: nat
    const sample: array<Byte>
    const rawSampleBuf: array<Frame>
    var bus: seq<FramePacket>
    ghost var received: seq<Byte>

    ghost predicate Laid() {
      && format.Valid()
      && sample.Length == 4
      && rawSampleBuf.Length == limitSamples
      && sample as object != rawSampleBuf
    }

    /** The bytes of `sample` that no word of this format reaches are 0. */
    ghost predicate CleanAbove()
      requires Laid()
      reads sample
    {
      forall i :: format.Channels() <= i < 4 ==> sample[i] == 0
    }

    /** The buffer holds, from its end, the samples decoded so far, up to the limit; and while samples
        are still wanted, the driver is where the stream is. */
    ghost predicate At(p: Progress)
      requires Laid()
      reads this, sample, rawSampleBuf
    {
      && numBytes < format.Channels()
      && numSamples == |First(p.decoded.samples, limitSamples)|
      && HeldFromEnd(rawSampleBuf[..], First(p.decoded.samples, limitSamples))
      && (numSamples < limitSamples ==> sample[..numBytes] == p.pending && rleCount == p.decoded.count)
    }

    ghost predicate Valid()
      reads this, sample, rawSampleBuf
    {
      Laid() && CleanAbove() && At(ProgressOf(format, received))
    }

    /** The part of the buffer in use. */
    ghost function Contents(): seq<Frame>
      requires Laid() && numSamples <= limitSamples
      reads this, rawSampleBuf
    {
      rawSampleBuf[limitSamples - numSamples..limitSamples]
    }

    /** The state at the first byte of the first acquisition with a device. */
    constructor (format: Format, limitSamples: nat, triggerAt: int)
      requires format.Valid()
      ensures Valid() && fresh(sample) && fresh(rawSampleBuf)
      ensures this.format == format && this.limitSamples == limitSamples && this.triggerAt == triggerAt
      ensures received == [] && bus == []
    {
      this.format := format;
      this.limitSamples := limitSamples;
      this.triggerAt := triggerAt;
      numSamples := 0;
      rleCount := 0;
      numBytes := 0;
      sample := new Byte[4](_ => 0);
      rawSampleBuf := new Frame[limitSamples](_ => [0x82, 0x82, 0x82, 0x82]);
      bus := [];
      received := [];
    }

    /** Take a byte from the device. Cells filled before are never written again. */
    method ReceiveByte(byte: Byte)
      requires Valid()
      modifies this, sample, rawSampleBuf
      ensures Valid()
      ensures received == old(received) + [byte] && bus == old(bus)
      ensures old(numSamples) <= numSamples
      ensures forall j :: limitSamples - old(numSamples) <= j < limitSamples ==> rawSampleBuf[j] == old(rawSampleBuf[j])
    {
      ProgressByByte(format, received, byte);
      ghost var p := ProgressOf(format, received);
      received := received + [byte];
      if numSamples >= limitSamples {
        ProgressGrows(format, p, byte);
        return;
      }
      StoreByte(byte, p);
    }

    method StoreByte(byte: Byte, ghost p: Progress)
      requires Laid() && CleanAbove() && At(p) && numSamples < limitSamples
      modifies this`numSamples, this`rleCount, this`numBytes, sample, rawSampleBuf
      ensures CleanAbove() && At(TakeByte(format, p, byte))
      ensures old(numSamples) <= numSamples
      ensures forall j :: limitSamples - old(numSamples) <= j < limitSamples ==> rawSampleBuf[j] == old(rawSampleBuf[j])
    {
      sample[numBytes] := byte;
      numBytes := numBytes + 1;
      assert sample[..numBytes] == p.pending + [byte];
      if numBytes == format.Channels() {
        TakeFullWord(p.decoded);
      }
    }

    /** A whole word is in `sample`: it is a repeat count, or a sample to be stored. */
    method TakeFullWord(ghost before: Decoded)
      requires Laid() && CleanAbove() && numBytes == format.Channels()
      requires numSamples == |before.samples| < limitSamples && rleCount == before.count
      requires HeldFromEnd(rawSampleBuf[..], before.samples)
      modifies this`numSamples, this`rleCount, this`numBytes, sample, rawSampleBuf
      ensures CleanAbove() && numBytes == 0
      ensures
        var after := TakeWord(format, before, old(sample[..numBytes]));
        && old(numSamples) <= numSamples == |First(after.samples, limitSamples)|
        && rleCount == after.count
        && HeldFromEnd(rawSampleBuf[..], First(after.samples, limitSamples))
      ensures forall j :: limitSamples - old(numSamples) <= j < limitSamples ==> rawSampleBuf[j] == old(rawSampleBuf[j])
    {
      if format.rle && sample[numBytes - 1] >= 0x80 {
        TakeCount();
        FirstIs(before.samples, limitSamples);
      } else {
        StoreSample(before);
      }
    }

    /** The count is the word without its top bit; the bytes above it in memory are 0. */
    method TakeCount()
      requires Laid() && CleanAbove() && numBytes == format.Channels() && sample[numBytes - 1] >= 0x80
      modifies this`rleCount, this`numBytes, sample
      ensures CleanAbove() && numBytes == 0 && rleCount == CountOf(old(sample[..numBytes]))
    {
      ghost var word := sample[..numBytes];
      sample[numBytes - 1] := sample[numBytes - 1] - 0x80;
      ghost var masked := word[..numBytes - 1] + [word[numBytes - 1] - 0x80];
      assert sample[..] == masked + sample[numBytes..];
      WordOfPadded(masked, sample[numBytes..]);
      rleCount := Word(sample[..]);
      numBytes := 0;
    }

    /** Store a sample as often as the count says, but not more often than there is room. */
    method StoreSample(ghost before: Decoded)
      requires Laid() && CleanAbove() && numBytes == format.Channels()
      requires numSamples == |before.samples| < limitSamples && rleCount == before.count
      requires HeldFromEnd(rawSampleBuf[..], before.samples)
      modifies this`numSamples, this`rleCount, this`numBytes, sample, rawSampleBuf
      ensures CleanAbove() && numBytes == 0 && rleCount == 0
      ensures
        var samples := before.samples + Repeat(Spread(format, old(sample[..numBytes])), before.count + 1);
        && old(numSamples) <= numSamples == |First(samples, limitSamples)|
        && HeldFromEnd(rawSampleBuf[..], First(samples, limitSamples))
      ensures forall j :: limitSamples - old(numSamples) <= j < limitSamples ==> rawSampleBuf[j] == old(rawSampleBuf[j])
    {
      ghost var frame := Spread(format, sample[..numBytes]);
      CountSample();
      Regroup();
      WriteRun(before, frame);
      forall i | 0 <= i < 4 {
        sample[i] := 0;
      }
      numBytes := 0;
      rleCount := 0;
    }

    method WriteRun(ghost before: Decoded, ghost frame: Frame)
      requires Laid() && sample[..] == frame
      requires |before.samples| + rleCount + 1 == numSamples <= limitSamples
      requires rleCount == before.count || (numSamples == limitSamples && rleCount <= before.count)
      requires HeldFromEnd(rawSampleBuf[..], before.samples)
      modifies rawSampleBuf
      ensures HeldFromEnd(rawSampleBuf[..], First(before.samples + Repeat(frame, before.count + 1), limitSamples))
      ensures forall j :: limitSamples - |before.samples| <= j < limitSamples ==> rawSampleBuf[j] == old(rawSampleBuf[j])
    {
      WriteCells(limitSamples - numSamples, rleCount + 1);
      HeldAndRepeated(old(rawSampleBuf[..]), rawSampleBuf[..], before.samples, frame, before.count + 1);
    }

    /** Count a sample with its repetitions, as many as there is room for. */
    method CountSample()
      requires numSamples < limitSamples
      modifies this`numSamples, this`rleCount
      ensures numSamples == old(numSamples) + rleCount + 1
      ensures rleCount == if old(numSamples + rleCount) < limitSamples then old(rleCount)
                          else limitSamples - old(numSamples) - 1
    {
      numSamples := numSamples + rleCount + 1;
      if numSamples > limitSamples {
        rleCount := rleCount - (numSamples - limitSamples);
        numSamples := limitSamples;
      }
    }

    method WriteCells(offset: nat, count: nat)
      requires Laid() && offset + count <= limitSamples
      modifies rawSampleBuf
      ensures forall j :: offset <= j < offset + count ==> rawSampleBuf[j] == sample[..]
      ensures forall j :: offset + count <= j < limitSamples ==> rawSampleBuf[j] == old(rawSampleBuf[j])
    {
      for i := 0 to count
        invariant sample[..] == old(sample[..])
        invariant forall j :: offset <= j < offset + i ==> rawSampleBuf[j] == sample[..]
        invariant forall j :: offset + count <= j < limitSamples ==> rawSampleBuf[j] == old(rawSampleBuf[j])
      {
        rawSampleBuf[offset + i] := sample[..];
      }
    }

    method Regroup()
      requires Laid() && numBytes == format.Channels()
      modifies sample
      ensures sample[..] == Spread(format, old(sample[..numBytes]))
    {
      if format.Channels() < 4 {
        ExpandGroups();
      } else {
        AllGroups(format.enabled);
      }
    }

    /** Move the bytes received to the groups they were sent for. */
    method ExpandGroups()
      requires Laid() && numBytes == format.Channels()
      modifies sample
      ensures sample[..] == Spread(format, old(sample[..numBytes]))
    {
      var tmpSample := new Byte[4](_ => 0);
      var j := 0;
      for i := 0 to 4
        invariant j == Enabled(format.enabled[..i])
        invariant sample[..] == old(sample[..])
        invariant forall k :: 0 <= k < 4 ==>
          tmpSample[k] == if k < i then Spread(format, old(sample[..numBytes]))[k] else 0
      {
        EnabledPrefix(format.enabled, i);
        assert format.enabled[..i + 1][..i] == format.enabled[..i];
        if format.enabled[i] {
          tmpSample[i] := sample[j];
          j := j + 1;
        }
      }
      forall i | 0 <= i < 4 {
        sample[i] := tmpSample[i];
      }
    }

    method ReceiveAll(bytes: seq<Byte>)
      requires Valid()
      modifies this, sample, rawSampleBuf
      ensures Valid() && received == old(received) + bytes && bus == old(bus)
    {
      ghost var was := received;
      for i := 0 to |bytes|
        invariant Valid() && received == was + bytes[..i] && bus == old(bus)
      {
        LastLast(was, bytes[..i + 1]);
        assert bytes[..i + 1][..i] == bytes[..i];
        ReceiveByte(bytes[i]);
      }
      assert bytes[..|bytes|] == bytes;
    }

    lemma ContentsAreReversed()
      requires Valid()
      ensures numSamples <= limitSamples
      ensures Contents() == Reversed(First(Expansion(format, received), limitSamples))
    {
      ProgressIsExpansion(format, received);
      TailIsReversed(rawSampleBuf[..], First(Expansion(format, received), limitSamples));
    }

    /** No more bytes are coming: send the buffer, split where the trigger was. */
    method Finish()
      requires Valid()
      requires triggerAt == -1 || 0 <= triggerAt <= numSamples
      modifies this`bus
      ensures bus == old(bus) + FinalPackets(Contents(), triggerAt)
      ensures Contents() == Reversed(First(Expansion(format, received), limitSamples))
    {
      SendAll();
      ContentsAreReversed();
    }

    method SendAll()
      requires Laid() && numSamples <= limitSamples
      requires triggerAt == -1 || 0 <= triggerAt <= numSamples
      modifies this`bus
      ensures bus == old(bus) + FinalPackets(Contents(), triggerAt)
    {
      SendSamples();
      bus := bus + [End];
    }

    lemma SplitContents(n: nat)
      requires Laid() && n <= numSamples <= limitSamples
      ensures
        var start := limitSamples - numSamples;
        && rawSampleBuf[start..start + n] == Contents()[..n]
        && rawSampleBuf[start + n..limitSamples] == Contents()[n..]
    {
    }

    method SendSamples()
      requires Laid() && numSamples <= limitSamples
      requires triggerAt == -1 || 0 <= triggerAt <= numSamples
      modifies this`bus
      ensures bus + [End] == old(bus) + FinalPackets(Contents(), triggerAt)
    {
      ghost var was := bus;
      if triggerAt != -1 {
        SendAroundTrigger();
        Associate(was, AroundTrigger(Contents(), triggerAt), [End]);
      } else {
        bus := bus + [Logic(rawSampleBuf[limitSamples - numSamples..limitSamples])];
        Associate(was, [Logic(Contents())], [End]);
      }
    }

    method SendAroundTrigger()
      requires Laid() && 0 <= triggerAt <= numSamples <= limitSamples
      modifies this`bus
      ensures bus == old(bus) + AroundTrigger(Contents(), triggerAt)
    {
      var start := limitSamples - numSamples;
      ghost var was, data := bus, Contents();
      SplitContents(triggerAt);
      if triggerAt > 0 {
        bus := bus + [Logic(rawSampleBuf[start..start + triggerAt])];
      }
      assert bus == was + Before(data, triggerAt);
      bus := bus + [Trigger];
      bus := bus + [Logic(rawSampleBuf[start + triggerAt..limitSamples])];
      TwoAppended(was + Before(data, triggerAt), Trigger, Logic(data[triggerAt..]));
      Associate(was, Before(data, triggerAt), [Trigger, Logic(data[triggerAt..])]);
    }
  }

  /** Filling the cells before those in use stores repeated samples, as many as there is room for. */
  lemma HeldAndRepeated(was: seq<Frame>, now: seq<Frame>, samples: seq<Frame>, frame: Frame, n: nat)
    requires HeldFromEnd(was, samples) && |was| == |now|
    requires forall j :: |was| - |samples| <= j < |was| ==> now[j] == was[j]
    requires forall j :: 0 <= j < |was| - |samples| && |was| - |samples| - n <= j ==> now[j] == frame
    ensures HeldFromEnd(now, First(samples + Repeat(frame, n), |now|))
  {
    var all := First(samples + Repeat(frame, n), |now|);
    forall i | 0 <= i < |all| ensures now[|now| - 1 - i] == all[i] {
      if i < |samples| {
        assert was[|was| - 1 - i] == samples[i];
      }
    }
  }

  lemma TailIsReversed<T>(buffer: seq<T>, s: seq<T>)
    requires HeldFromEnd(buffer, s)
    ensures buffer[|buffer| - |s|..|buffer|] == Reversed(s)
  {
    forall i | 0 <= i < |s| ensures buffer[|buffer| - |s| + i] == Reversed(s)[i] {
      assert buffer[|buffer| - 1 - (|s| - 1 - i)] == s[|s| - 1 - i];
    }
  }

  lemma {:induction false} AllGroups(groups: seq<bool>)
    requires Enabled(groups) == |groups|
    ensures forall i :: 0 <= i < |groups| ==> groups[i] && Enabled(groups[..i]) == i
  {
    if groups != [] {
      var init := groups[..|groups| - 1];
      AllGroups(init);
      forall i | 0 <= i < |groups| ensures groups[i] && Enabled(groups[..i]) == i {
        if i < |init| {
          assert init[..i] == groups[..i];
        }
      }
    }
  }

  /** A whole acquisition. What the device sent for the samples it saw reaches the bus as those samples,
      in the order opposite to the one they were sent in, and not more than the limit of them. */
  method Acquire(format: Format, limitSamples: nat, triggerAt: int, bytes: seq<Byte>, ghost runs: seq<Run>)
    returns (bus: seq<FramePacket>)
    requires format.Valid() && AllSendable(format, runs)
    requires bytes == Flatten(SentWords(format, runs))
    requires triggerAt == -1 || 0 <= triggerAt <= |First(Seen(format, runs), limitSamples)|
    ensures Payload(bus) == Reversed(First(Seen(format, runs), limitSamples))
    ensures bus == FinalPackets(Payload(bus), triggerAt)
  {
    var device := new Device(format, limitSamples, triggerAt);
    device.ReceiveAll(bytes);
    assert device.received == bytes;
    ProgressIsExpansion(format, bytes);
    ExpansionOfSent(format, runs);
    device.Finish();
    bus := device.bus;
    assert bus == FinalPackets(device.Contents(), triggerAt);
    SplitLosesNothing(device.Contents(), triggerAt);
  }

  /** A further acquisition with the same device: a start clears the repeat count, but neither the number of
      samples nor that of bytes. So if the one before has reached its limit, all bytes are ignored. */
  method AcquireAgain(device: Device, bytes: seq<Byte>)
    requires device.Valid() && device.numSamples == device.limitSamples
    modifies device, device.sample, device.rawSampleBuf
    ensures device.Valid() && device.numSamples == device.limitSamples && device.bus == old(device.bus)
    ensures device.rawSampleBuf[..] == old(device.rawSampleBuf[..])
  {
    device.rleCount := 0;
    for i := 0 to |bytes|
      invariant device.Valid() && device.numSamples == device.limitSamples && device.bus == old(device.bus)
      invariant device.rawSampleBuf[..] == old(device.rawSampleBuf[..])
    {
      device.ReceiveByte(bytes[i]);
    }
  }

  // The clock.

  /** The clock settings: whether both edges are used, the divider, and the rate they give. */
  class Clock {
    const maxSamplerate: nat
    var demux: bool
    var divider: nat
    var curSamplerate: nat

    constructor (maxSamplerate: nat)
      ensures this.maxSamplerate == maxSamplerate
    {
      this.maxSamplerate := maxSamplerate;
    }

    predicate Supported(rate: nat) {
      if maxSamplerate != 0 then rate <= maxSamplerate else LOWEST_RATE <= rate <= HIGHEST_RATE
    }

    /** Above the clock rate, both edges are used, and the rate is always the double clock. */
    method SetSamplerate(rate: nat) returns (ok: bool)
      requires maxSamplerate != 0 ==> 1 <= rate && maxSamplerate <= 2 * CLOCK_RATE
      modifies this
      ensures ok == Supported(rate)
      ensures !ok ==> demux == old(demux) && divider == old(divider) && curSamplerate == old(curSamplerate)
      ensures ok ==> Chosen(rate, demux, divider, curSamplerate)
    {
      if maxSamplerate != 0 {
        if rate > maxSamplerate {
          return false;
        }
      } else if rate < LOWEST_RATE || rate > HIGHEST_RATE {
        return false;
      }
      if rate > CLOCK_RATE {
        DoubleClock(rate);
        demux := true;
        divider := CLOCK_RATE * 2 / rate - 1;
      } else {
        DividerIsPositive(CLOCK_RATE, rate);
        demux := false;
        divider := CLOCK_RATE / rate - 1;
      }
      curSamplerate := CLOCK_RATE / (divider + 1);
      if demux {
        curSamplerate := curSamplerate * 2;
      }
      return true;
    }
  }

  ghost predicate Chosen(rate: nat, demux: bool, divider: nat, achieved: nat)
    requires 1 <= rate <= 2 * CLOCK_RATE
  {
    && (demux <==> rate > CLOCK_RATE)
    && (if demux then divider == 0 && achieved == 2 * CLOCK_RATE
        else divider + 1 == CLOCK_RATE / rate && achieved == Achieved(CLOCK_RATE, rate))
  }

  lemma DoubleClock(rate: nat)
    requires CLOCK_RATE < rate <= 2 * CLOCK_RATE
    ensures CLOCK_RATE * 2 / rate == 1
  {
  }

  /** The rate achieved is not below the one asked for, no divider of the same clock gives a rate in
      between, and asking for the achieved rate changes nothing. */
  lemma ChosenIsNextAbove(rate: nat, demux: bool, divider: nat, achieved: nat, k: nat)
    requires 1 <= rate <= 2 * CLOCK_RATE && k >= 1
    requires Chosen(rate, demux, divider, achieved)
    ensures rate <= achieved <= 2 * CLOCK_RATE
    ensures rate <= CLOCK_RATE / k ==> achieved <= CLOCK_RATE / k
    ensures Chosen(achieved, demux, divider, achieved)
  {
    if rate > CLOCK_RATE {
      AtLeastQuotient(CLOCK_RATE, k, rate);
      Monotone(1, k, rate);
    } else {
      AchievedIsNextAbove(CLOCK_RATE, rate, k);
      AchievedIsStable(CLOCK_RATE, rate);
    }
  }
}
