/** The Hantek oscilloscope driver. The device captures frames into a circular memory and sends them from
the memory's start; the driver sends each one on from its trigger point, so that the part before that
point, which is the most recent one, comes last. */
module Hantek {
  import opened Bits
  import opened Bytes
  import opened GrayCode
  import opened Options
  import opened SessionFeed
  import opened Streams

  const MAX_CAPTURE_EMPTY := 3
  const OFFSET_BITS := 24

  datatype DevState = IDLE | NEW_CAPTURE | CAPTURE | FETCH_DATA

  /** What the device says when asked: a capture state, and a trigger offset in its own code. */
  datatype Reply = Reply(captureState: Byte, high: Byte, low: Byte, middle: Byte) {
    function Coded(): nat {
      high * 0x1_0000 + middle * 0x100 + low
    }

    /** The number that was coded. */
    function Offset(): nat {
      Rounds(Coded(), OFFSET_BITS)
    }
  }

  const CAPTURE_EMPTY: Byte := 0
  const CAPTURE_READY_8BIT: Byte := 2

  /** The values of both channels at one time. */
  datatype Sample = Sample(ch1: Byte, ch2: Byte)

  type ScopePacket = Packet<Sample>

  /** Samples come as pairs of bytes, channel 2 first. */
  function SamplesIn(data: seq<Byte>): (samples: seq<Sample>)
    ensures |samples| == |data| / 2
  {
    seq(|data| / 2, i requires 0 <= i < |data| / 2 => Sample(data[i * 2 + 1], data[i * 2]))
  }

  /** What the device sends of samples. */
  function BytesOf(samples: seq<Sample>): (data: seq<Byte>)
    ensures |data| == 2 * |samples|
  {
    if samples == [] then []
    else
      var last := samples[|samples| - 1];
      BytesOf(samples[..|samples| - 1]) + [last.ch2, last.ch1]
  }

  lemma {:induction false} SamplesAreRead(samples: seq<Sample>)
    ensures SamplesIn(BytesOf(samples)) == samples
  {
    if samples != [] {
      var init, last := samples[..|samples| - 1], samples[|samples| - 1];
      SamplesAreRead(init);
      SamplesOfJoin(BytesOf(init), [last.ch2, last.ch1]);
      assert SamplesIn([last.ch2, last.ch1]) == [last];
    }
  }

  lemma SamplesOfJoin(a: seq<Byte>, b: seq<Byte>)
    requires |a| % 2 == 0
    ensures SamplesIn(a + b) == SamplesIn(a) + SamplesIn(b)
  {
    forall i | 0 <= i < |a + b| / 2 ensures SamplesIn(a + b)[i] == (SamplesIn(a) + SamplesIn(b))[i] {
      if i < |a| / 2 {
        assert (a + b)[i * 2] == a[i * 2] && (a + b)[i * 2 + 1] == a[i * 2 + 1];
      } else {
        var j := i - |a| / 2;
        assert (a + b)[i * 2] == b[j * 2] && (a + b)[i * 2 + 1] == b[j * 2 + 1];
      }
    }
  }

  predicate AllEven(transfers: seq<seq<Byte>>) {
    transfers == [] || (AllEven(transfers[..|transfers| - 1]) && |transfers[|transfers| - 1]| % 2 == 0)
  }

  /** Samples that the device sends in transfers of whole samples are those the driver sees. */
  lemma TransfersAreRead(samples: seq<Sample>, transfers: seq<seq<Byte>>)
    requires AllEven(transfers) && Flatten(transfers) == BytesOf(samples)
    ensures SamplesOf(transfers) == samples
  {
    SamplesOfFlat(transfers);
    SamplesAreRead(samples);
  }

  lemma {:induction false} SamplesOfFlat(transfers: seq<seq<Byte>>)
    requires AllEven(transfers)
    ensures |Flatten(transfers)| % 2 == 0 && SamplesOf(transfers) == SamplesIn(Flatten(transfers))
  {
    if transfers != [] {
      var init, last := transfers[..|transfers| - 1], transfers[|transfers| - 1];
      SamplesOfFlat(init);
      SamplesOfJoin(Flatten(init), last);
    }
  }

  function SamplesOf(transfers: seq<seq<Byte>>): seq<Sample> {
    if transfers == [] then []
    else SamplesOf(transfers[..|transfers| - 1]) + SamplesIn(transfers[|transfers| - 1])
  }

  function Min(a: nat, b: nat): nat {
    if a < b then a else b
  }

  /** What the trigger offset leaves of a frame, and what it cuts off. */
  function From(samples: seq<Sample>, offset: nat): seq<Sample> {
    samples[Min(offset, |samples|)..]
  }

  function UpTo(samples: seq<Sample>, offset: nat): seq<Sample> {
    samples[..Min(offset, |samples|)]
  }

  /** A frame, and the place in it where its oldest sample is. */
  datatype Frame = Frame(samples: seq<Sample>, offset: nat) {
    function InOrder(): (samples: seq<Sample>)
    {
      From(this.samples, offset) + UpTo(this.samples, offset)
    }
  }

  /** A frame in order is the frame rotated: nothing is lost or added, and sample `i` of it is the sample
      `offset` places further on in the circular memory. */
  lemma InOrderIsRotated(frame: Frame, i: nat)
    requires i < |frame.samples| && frame.offset <= |frame.samples|
    ensures |frame.InOrder()| == |frame.samples|
    ensures frame.InOrder()[i] == frame.samples[(frame.offset + i) % |frame.samples|]
  {
    Wrapped(frame.offset + i, |frame.samples|);
  }

  lemma Wrapped(x: nat, n: nat)
    requires n > 0 && x < 2 * n
    ensures x % n == if x < n then x else x - n
  {
    if n <= x {
      assert x == 1 * n + (x - n);
    }
  }

  /** A packet for each chunk of samples. */
  function Analogs(chunks: seq<seq<Sample>>): seq<ScopePacket> {
    if chunks == [] then [] else Analogs(chunks[..|chunks| - 1]) + [Analog(chunks[|chunks| - 1])]
  }

  lemma AnalogsSnoc(chunks: seq<seq<Sample>>, chunk: seq<Sample>)
    ensures Analogs(chunks + [chunk]) == Analogs(chunks) + [Analog(chunk)]
  {
    assert (chunks + [chunk])[..|chunks|] == chunks;
  }

  /** A frame that was sent, and the chunks it was sent in. */
  datatype Sent = Sent(frame: Frame, chunks: seq<seq<Sample>>) {
    predicate InOrder() {
      Flatten(chunks) == frame.InOrder()
    }

    function Packets(): seq<ScopePacket> {
      ([FrameBegin] + Analogs(chunks)) + [FrameEnd]
    }
  }

  predicate AllInOrder(sent: seq<Sent>, framesize: nat) {
    sent == [] || (AllInOrder(sent[..|sent| - 1], framesize) && IsWhole(sent[|sent| - 1], framesize))
  }

  predicate IsWhole(sent: Sent, framesize: nat) {
    |sent.frame.samples| == framesize && sent.InOrder()
  }

  lemma AllInOrderSnoc(sent: seq<Sent>, last: Sent, framesize: nat)
    requires AllInOrder(sent, framesize) && IsWhole(last, framesize)
    ensures AllInOrder(sent + [last], framesize)
  {
    assert (sent + [last])[..|sent|] == sent;
  }

  /** One frame after another, each between FRAME_BEGIN and FRAME_END. */
  function Frames(sent: seq<Sent>): seq<ScopePacket> {
    if sent == [] then [] else Frames(sent[..|sent| - 1]) + sent[|sent| - 1].Packets()
  }

  lemma FramesSnoc(sent: seq<Sent>, last: Sent)
    ensures Frames(sent + [last]) == (Frames(sent) + ([FrameBegin] + Analogs(last.chunks))) + [FrameEnd]
  {
    assert (sent + [last])[..|sent|] == sent;
    Associate(Frames(sent), [FrameBegin] + Analogs(last.chunks), [FrameEnd]);
  }

  /** A frame is bracketed by its two packets, and between them are only samples. */
  lemma FrameIsBracketed(sent: Sent)
    ensures var packets := sent.Packets();
            && |packets| == |sent.chunks| + 2 && packets[0] == FrameBegin && packets[|packets| - 1] == FrameEnd
            && forall i :: 0 <= i < |sent.chunks| ==> packets[i + 1] == Analog(sent.chunks[i])
  {
    AnalogsAre(sent.chunks);
  }

  lemma {:induction false} AnalogsAre(chunks: seq<seq<Sample>>)
    ensures |Analogs(chunks)| == |chunks|
    ensures forall i :: 0 <= i < |chunks| ==> Analogs(chunks)[i] == Analog(chunks[i])
  {
    if chunks != [] {
      AnalogsAre(chunks[..|chunks| - 1]);
    }
  }

  function SamplesInOrder(sent: seq<Sent>): seq<Sample> {
    if sent == [] then [] else SamplesInOrder(sent[..|sent| - 1]) + sent[|sent| - 1].frame.InOrder()
  }

  lemma {:induction false} PayloadOfAnalogs(chunks: seq<seq<Sample>>)
    ensures Payload(Analogs(chunks)) == Flatten(chunks)
  {
    if chunks != [] {
      PayloadOfAnalogs(chunks[..|chunks| - 1]);
      PayloadSnoc(Analogs(chunks[..|chunks| - 1]), Analog(chunks[|chunks| - 1]));
    }
  }

  /** The samples on the bus are those of all frames, each in order. */
  lemma {:induction false} PayloadOfFrames(sent: seq<Sent>, framesize: nat)
    requires AllInOrder(sent, framesize)
    ensures Payload(Frames(sent)) == SamplesInOrder(sent)
  {
    if sent != [] {
      var last := sent[|sent| - 1];
      PayloadOfFrames(sent[..|sent| - 1], framesize);
      PayloadOfJoin(Frames(sent[..|sent| - 1]), last.Packets());
      PayloadOfPackets(last);
    }
  }

  lemma PayloadOfPackets(sent: Sent)
    ensures Payload(sent.Packets()) == Flatten(sent.chunks)
  {
    PayloadOfAnalogs(sent.chunks);
    PayloadSnoc<Sample>([], FrameBegin);
    PayloadOfJoin([FrameBegin], Analogs(sent.chunks));
    PayloadSnoc([FrameBegin] + Analogs(sent.chunks), FrameEnd);
  }

  class Device {
    const framesize: nat
    const limitFrames: nat
    var numFrames: nat
    var devState: DevState
    var captureEmptyCount: nat
    var sampReceived: nat
    var sampBuffered: nat
    var triggerOffset: nat
    var framebuf: array<Sample>
    var bus: seq<ScopePacket>
    ghost var sent: seq<Sent>
    /** The part of the current frame that has come in, and the chunks sent of it. */
    ghost var received: seq<Sample>
    ghost var chunks: seq<seq<Sample>>

    /** Everything on the bus before the current frame. */
    ghost predicate Whole()
      reads this
    {
      && framesize > 0
      && AllInOrder(sent, framesize)
      && (limitFrames > 0 ==> numFrames == |sent| <= limitFrames)
      && captureEmptyCount < MAX_CAPTURE_EMPTY
    }

    ghost predicate Fetching()
      reads this, framebuf
    {
      && devState == FETCH_DATA
      && |received| == sampReceived <= framesize == framebuf.Length
      && sampBuffered == Min(sampReceived, triggerOffset)
      && framebuf[..sampBuffered] == UpTo(received, triggerOffset)
      && Flatten(chunks) == From(received, triggerOffset)
      && bus == Frames(sent) + ([FrameBegin] + Analogs(chunks))
    }

    ghost predicate Ended()
      reads this
    {
      limitFrames > 0 && numFrames == limitFrames
    }

    /** Waiting for a capture, fetching one, or done. */
    ghost predicate Valid()
      reads this, framebuf
    {
      && Whole()
      && (if Ended() then devState == FETCH_DATA && bus == Frames(sent) + [End]
          else if devState == FETCH_DATA then Fetching() && sampReceived < framesize
          else devState != IDLE && bus == Frames(sent))
    }

    /** The state when an acquisition has started. */
    constructor (framesize: nat, limitFrames: nat)
      requires framesize > 0
      ensures Valid() && fresh(framebuf) && devState == CAPTURE && sent == [] && bus == []
      ensures this.framesize == framesize && this.limitFrames == limitFrames
    {
      this.framesize := framesize;
      this.limitFrames := limitFrames;
      numFrames, captureEmptyCount, sampReceived, sampBuffered, triggerOffset := 0, 0, 0, 0, 0;
      devState := CAPTURE;
      framebuf := new Sample[0];
      bus, sent, received, chunks := [], [], [], [];
    }

    method SendChunk(samples: seq<Sample>)
      modifies this`bus
      ensures bus == old(bus) + [Analog(samples)]
    {
      bus := bus + [Analog(samples)];
    }

    /** Keep `samples` for the end of the frame. */
    method Keep(samples: seq<Sample>)
      requires sampBuffered + |samples| <= framebuf.Length
      modifies this`sampBuffered, framebuf
      ensures sampBuffered == old(sampBuffered) + |samples|
      ensures framebuf[..sampBuffered] == old(framebuf[..sampBuffered]) + samples
    {
      forall i | 0 <= i < |samples| {
        framebuf[sampBuffered + i] := samples[i];
      }
      sampBuffered := sampBuffered + |samples|;
    }

    /** Samples from before the trigger point are kept, the others are sent. */
    method TakeSamples(samples: seq<Sample>)
      requires Fetching() && sampReceived + |samples| <= framesize
      modifies this`sampBuffered, this`sampReceived, this`bus, this`received, this`chunks, framebuf
      ensures Fetching() && received == old(received) + samples
    {
      SplitMore(received, samples, triggerOffset);
      if sampReceived < triggerOffset {
        TakeBeforeTrigger(samples);
      } else {
        SendSamples(samples);
      }
      received := received + samples;
      sampReceived := sampReceived + |samples|;
    }

    /** The trigger point has not been reached, but it may be in this transfer. */
    method TakeBeforeTrigger(samples: seq<Sample>)
      requires Fetching() && sampReceived + |samples| <= framesize && sampReceived < triggerOffset
      modifies this`sampBuffered, this`bus, this`chunks, framebuf
      ensures
        var pre := Min(triggerOffset - sampReceived, |samples|);
        && sampBuffered == old(sampBuffered) + pre
        && framebuf[..sampBuffered] == old(framebuf[..sampBuffered]) + samples[..pre]
        && Flatten(chunks) == old(Flatten(chunks)) + samples[pre..]
        && bus == Frames(sent) + ([FrameBegin] + Analogs(chunks))
    {
      if sampReceived + |samples| < triggerOffset {
        assert samples[..|samples|] == samples;
        Keep(samples);
      } else {
        var pre := triggerOffset - sampReceived;
        Keep(samples[..pre]);
        if |samples| > pre {
          SendSamples(samples[pre..]);
        }
      }
    }

    method SendSamples(samples: seq<Sample>)
      requires bus == Frames(sent) + ([FrameBegin] + Analogs(chunks))
      modifies this`bus, this`chunks
      ensures bus == Frames(sent) + ([FrameBegin] + Analogs(chunks))
      ensures Flatten(chunks) == old(Flatten(chunks)) + samples
    {
      Associate(Frames(sent), [FrameBegin] + Analogs(chunks), [Analog(samples)]);
      Associate([FrameBegin], Analogs(chunks), [Analog(samples)]);
      AnalogsSnoc(chunks, samples);
      FlattenSnoc(chunks, samples);
      chunks := chunks + [samples];
      SendChunk(samples);
    }

    /** All samples of the frame have come in: send those kept, and end the frame. */
    method FinishFrame()
      requires Whole() && Fetching() && sampReceived == framesize && !Ended()
      modifies this`numFrames, this`devState, this`bus, this`sent, this`chunks
      ensures Valid() && Extends(old(sent), Frame(received, triggerOffset))
      ensures devState == if Ended() then FETCH_DATA else NEW_CAPTURE
    {
      SendSamples(framebuf[..sampBuffered]);
      ghost var frame := Sent(Frame(received, triggerOffset), chunks);
      FramesSnoc(sent, frame);
      AllInOrderSnoc(sent, frame, framesize);
      bus := bus + [FrameEnd];
      sent := sent + [frame];
      CountFrame();
    }

    method CountFrame()
      requires devState == FETCH_DATA && bus == Frames(sent) && AllInOrder(sent, framesize) && !Ended()
      requires framesize > 0 && captureEmptyCount < MAX_CAPTURE_EMPTY
      requires limitFrames > 0 ==> numFrames + 1 == |sent| <= limitFrames
      modifies this`numFrames, this`devState, this`bus
      ensures Valid()
      ensures devState == if Ended() then FETCH_DATA else NEW_CAPTURE
    {
      if limitFrames > 0 {
        numFrames := numFrames + 1;
      }
      if limitFrames > 0 && numFrames == limitFrames {
        bus := bus + [End];
      } else {
        devState := NEW_CAPTURE;
      }
    }

    /** One more frame has been sent. */
    ghost predicate Extends(before: seq<Sent>, frame: Frame)
      reads this
    {
      |sent| == |before| + 1 && sent[..|before|] == before && sent[|before|].frame == frame
    }

    /** A transfer with a part of the frame has come in. The device sends no more than the driver has asked
        for, which is one frame. */
    method ReceiveTransfer(data: seq<Byte>)
      requires Valid()
      requires data != [] ==> devState == FETCH_DATA && !Ended() && sampReceived + |data| / 2 <= framesize
      modifies this`sampBuffered, this`sampReceived, this`numFrames, this`devState, this`bus
      modifies this`sent, this`received, this`chunks, framebuf
      ensures Valid()
      ensures data == [] ==> unchanged(this) && unchanged(framebuf)
      ensures data != [] ==>
        Fetched(old(sent), old(received) + SamplesIn(data))
    {
      if data == [] {
        return;
      }
      TakeSamples(SamplesIn(data));
      if sampReceived >= framesize {
        FinishFrame();
      }
    }

    /** What the device answers when it is asked for its capture state, if it does. */
    method GetCaptureState(reply: Option<Reply>) returns (ok: bool, captureState: Byte, offset: nat)
      ensures ok <==> reply.Some?
      ensures ok ==> captureState == reply.value.captureState
      ensures ok ==> offset == reply.value.Offset() && Encode(offset) == reply.value.Coded()
    {
      if reply == None {
        return false, 0, 0;
      }
      var toff := reply.value.Coded();
      CodedFits(reply.value);
      offset := ConvertTriggerOffset(toff, OFFSET_BITS);
      return true, reply.value.captureState, offset;
    }

    /** The state machine, called again and again; `requested` tells whether it asks for a new capture,
        as it does after a frame, and whenever the device has been found empty three times. `startOk`,
        `triggerOk` and `dataOk` say whether the requests to start a capture, to enable the trigger and to
        send the data would succeed. A frame is begun only when none is being fetched and the device has
        one ready. */
    method HandleEvent(startOk: bool, triggerOk: bool, reply: Option<Reply>, dataOk: bool) returns (requested: bool)
      requires Valid()
      modifies this
      ensures Valid() && (framebuf == old(framebuf) || fresh(framebuf)) && sent == old(sent)
      ensures
        var begin := old(devState) == CAPTURE && reply.Some? && reply.value.captureState == CAPTURE_READY_8BIT && dataOk;
        && devState == (if old(devState) == NEW_CAPTURE && startOk && triggerOk then CAPTURE
                        else if begin then FETCH_DATA
                        else old(devState))
        && (begin ==> received == [] && triggerOffset == reply.value.Offset() && Encode(triggerOffset) == reply.value.Coded())
        && (old(devState) == FETCH_DATA ==> received == old(received) && triggerOffset == old(triggerOffset))
      ensures captureEmptyCount ==
        if old(devState) == CAPTURE && reply.Some? && reply.value.captureState == CAPTURE_EMPTY
        then (old(captureEmptyCount) + 1) % MAX_CAPTURE_EMPTY else old(captureEmptyCount)
      ensures requested <==>
        || old(devState) == NEW_CAPTURE
        || (old(captureEmptyCount) > 0 && captureEmptyCount == 0)
    {
      requested := devState == NEW_CAPTURE;
      if devState == NEW_CAPTURE {
        if startOk && triggerOk {
          devState := CAPTURE;
        }
        return;
      }
      if devState != CAPTURE {
        return;
      }
      var ok, captureState, offset := GetCaptureState(reply);
      if !ok {
        return;
      }
      if captureState == CAPTURE_EMPTY {
        captureEmptyCount := captureEmptyCount + 1;
        if captureEmptyCount >= MAX_CAPTURE_EMPTY {
          captureEmptyCount := 0;
          requested := true;
        }
      } else if captureState == CAPTURE_READY_8BIT {
        BeginFrame(offset, dataOk);
      }
    }

    method BeginFrame(offset: nat, dataOk: bool)
      requires Valid() && devState == CAPTURE
      modifies this`triggerOffset, this`framebuf, this`sampBuffered, this`sampReceived, this`devState, this`bus
      modifies this`received, this`chunks
      ensures Valid() && fresh(framebuf)
      ensures triggerOffset == offset && received == []
      ensures devState == if dataOk then FETCH_DATA else CAPTURE
    {
      PrepareFrame(offset);
      if !dataOk {
        return;
      }
      devState := FETCH_DATA;
      bus := bus + [FrameBegin];
      assert [FrameBegin] + Analogs(chunks) == [FrameBegin];
    }

    method PrepareFrame(offset: nat)
      modifies this`triggerOffset, this`framebuf, this`sampBuffered, this`sampReceived, this`received, this`chunks
      ensures fresh(framebuf) && framebuf.Length == framesize
      ensures triggerOffset == offset && sampBuffered == 0 && sampReceived == 0 && received == [] && chunks == []
    {
      triggerOffset := offset;
      framebuf := new Sample[framesize];
      sampBuffered, sampReceived := 0, 0;
      received, chunks := [], [];
    }

    /** A frame, however the device cuts it into transfers, is sent in order. */
    method FetchFrame(transfers: seq<seq<Byte>>)
      requires Valid() && devState == FETCH_DATA && !Ended() && received == []
      requires IsFrame(transfers, framesize)
      modifies this, framebuf
      ensures Valid() && Extends(old(sent), Frame(SamplesOf(transfers), triggerOffset))
      ensures triggerOffset == old(triggerOffset) && framebuf == old(framebuf)
      ensures devState == if Ended() then FETCH_DATA else NEW_CAPTURE
    {
      for i := 0 to |transfers|
        invariant Valid() && framebuf == old(framebuf) && triggerOffset == old(triggerOffset)
        invariant Fetched(old(sent), SamplesOf(transfers[..i]))
      {
        SamplesStep(transfers, i);
        SamplesGrow(transfers, i + 1);
        ReceiveTransfer(transfers[i]);
      }
      assert transfers[..|transfers|] == transfers;
    }

    /** A frame from the device's answer to its end, and the request for the next one. */
    method CaptureFrame(capture: Capture)
      requires Valid() && devState == CAPTURE && capture.Ready(framesize)
      modifies this, framebuf
      ensures Valid() && (framebuf == old(framebuf) || fresh(framebuf))
      ensures Extends(old(sent), capture.Taken()) && (!Ended() ==> devState == CAPTURE)
    {
      var requested := HandleEvent(true, true, Some(capture.reply), true);
      FetchFrame(capture.transfers);
      requested := HandleEvent(true, true, None, false);
    }

    /** `samples` of the current frame have come in. */
    ghost predicate Fetched(before: seq<Sent>, samples: seq<Sample>)
      reads this
    {
      if |samples| < framesize then
        devState == FETCH_DATA && !Ended() && received == samples && sent == before
      else
        && devState == (if Ended() then FETCH_DATA else NEW_CAPTURE)
        && Extends(before, Frame(samples, triggerOffset))
    }
  }

  /** Transfers that hold a frame, and nothing after it. */
  predicate IsFrame(transfers: seq<seq<Byte>>, framesize: nat) {
    && |SamplesOf(transfers)| == framesize
    && forall i :: 0 <= i < |transfers| && transfers[i] != [] ==> |SamplesOf(transfers[..i])| < framesize
  }

  /** What the device captures: its answer, and the transfers that it then sends. */
  datatype Capture = Capture(reply: Reply, transfers: seq<seq<Byte>>) {
    predicate Ready(framesize: nat) {
      reply.captureState == CAPTURE_READY_8BIT && IsFrame(transfers, framesize)
    }

    function Taken(): Frame {
      Frame(SamplesOf(transfers), reply.Offset())
    }
  }

  /** A capture as it was sent: whole, and in order from its trigger point on. */
  predicate IsSentOf(sent: Sent, capture: Capture, framesize: nat) {
    IsWhole(sent, framesize) && sent.frame == capture.Taken()
  }

  /** The samples of all captures, each from the offset the device has coded. */
  function SamplesCaptured(captures: seq<Capture>): seq<Sample> {
    if captures == [] then []
    else SamplesCaptured(captures[..|captures| - 1]) + captures[|captures| - 1].Taken().InOrder()
  }

  lemma {:induction false} SamplesAreCaptured(sent: seq<Sent>, captures: seq<Capture>, framesize: nat)
    requires |sent| == |captures| && forall i :: 0 <= i < |sent| ==> IsSentOf(sent[i], captures[i], framesize)
    ensures SamplesInOrder(sent) == SamplesCaptured(captures)
    decreases |sent|
  {
    if sent != [] {
      SamplesAreCaptured(sent[..|sent| - 1], captures[..|sent| - 1], framesize);
    }
  }

  /** A whole acquisition of a number of frames, each of which the device cuts into transfers as it likes:
      each is sent as one frame, and the samples on the bus are those of the captures in order. */
  method Acquire(framesize: nat, captures: seq<Capture>) returns (bus: seq<ScopePacket>, ghost sent: seq<Sent>)
    requires framesize > 0 && captures != []
    requires forall i :: 0 <= i < |captures| ==> captures[i].Ready(framesize)
    ensures Payload(bus) == SamplesCaptured(captures)
    ensures bus == Frames(sent) + [End] && |sent| == |captures|
    ensures forall i :: 0 <= i < |sent| ==> IsSentOf(sent[i], captures[i], framesize)
  {
    var device := new Device(framesize, |captures|);
    for i := 0 to |captures|
      invariant device.Valid() && fresh(device) && fresh(device.framebuf)
      invariant device.framesize == framesize && device.limitFrames == |captures| && |device.sent| == i
      invariant i < |captures| ==> device.devState == CAPTURE
      invariant forall j :: 0 <= j < i ==> IsSentOf(device.sent[j], captures[j], framesize)
    {
      device.CaptureFrame(captures[i]);
    }
    bus, sent := device.bus, device.sent;
    SamplesAreCaptured(sent, captures, framesize);
    PayloadOfFrames(sent, framesize);
    PayloadSnoc(Frames(sent), End);
  }

  lemma SamplesStep(transfers: seq<seq<Byte>>, i: nat)
    requires i < |transfers|
    ensures SamplesOf(transfers[..i + 1]) == SamplesOf(transfers[..i]) + SamplesIn(transfers[i])
  {
    assert transfers[..i + 1][..i] == transfers[..i];
  }

  lemma {:induction false} SamplesGrow(transfers: seq<seq<Byte>>, i: nat)
    requires i <= |transfers|
    ensures |SamplesOf(transfers[..i])| <= |SamplesOf(transfers)|
    decreases |transfers| - i
  {
    if i == |transfers| {
      assert transfers[..i] == transfers;
    } else {
      SamplesStep(transfers, i);
      SamplesGrow(transfers, i + 1);
    }
  }

  lemma SplitMore(received: seq<Sample>, samples: seq<Sample>, offset: nat)
    ensures |received| < offset ==> UpTo(received, offset) == received && From(received, offset) == []
    ensures UpTo(received + samples, offset) ==
            if |received| < offset then received + UpTo(samples, offset - |received|) else UpTo(received, offset)
    ensures From(received + samples, offset) ==
            if |received| < offset then From(samples, offset - |received|) else From(received, offset) + samples
  {
    if |received| < offset {
      SliceOfSecond(received, samples, Min(offset - |received|, |samples|));
    } else {
      SliceOfFirst(received, samples, offset);
    }
  }

  /** The answer in the buffer: the state, and the number's high, low and middle byte. */
  function ReplyOf(inbuf: seq<Byte>): Reply
    requires |inbuf| >= 4
  {
    Reply(inbuf[0], inbuf[1], inbuf[2], inbuf[3])
  }

  lemma CodedBits(inbuf: seq<Byte>, i: nat)
    requires |inbuf| >= 4 && i < OFFSET_BITS
    ensures Bit(ReplyOf(inbuf).Coded(), i) <==>
            if i < 8 then Bit(inbuf[2], i) else if i < 16 then Bit(inbuf[3], i - 8) else Bit(inbuf[1], i - 16)
  {
    var middle: nat, high: nat := inbuf[3], inbuf[1];
    BitOfByte(inbuf[2], middle + 0x100 * high, i);
    if 8 <= i {
      BitOfByte(inbuf[3], inbuf[1], i - 8);
    }
  }

  lemma CodedFits(reply: Reply)
    ensures reply.Coded() < Pow2(OFFSET_BITS)
  {
    Pow2Of16();
    assert Pow2(18) == 4 * Pow2(16);
    assert Pow2(20) == 4 * Pow2(18);
    assert Pow2(22) == 4 * Pow2(20);
    assert Pow2(24) == 4 * Pow2(22);
  }
}
