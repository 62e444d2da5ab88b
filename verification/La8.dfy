/** The ChronoVu LA8 driver: blocks are read one by one and put in order in a buffer, which is sent when
the last block has come in. */
module La8 {
  import opened Bits
  import opened Bytes
  import opened La8Emission
  import opened La8Mangling
  import opened Options
  import opened SessionFeed
  import opened Streams

  /** A read from the device: the bytes it got, or an error. */
  type Reading = r: Option<seq<Byte>> | r.Some? ==> |r.value| <= 4096 witness None

  predicate Nothing(r: Reading) {
    r == Some([])
  }

  /** The first read that is not empty; the last one if all are. */
  function FirstSomething(readings: seq<Reading>): Reading
    requires readings != []
  {
    if |readings| == 1 || !Nothing(readings[0]) then readings[0] else FirstSomething(readings[1..])
  }

  /** Only the first block is tried again; `retries` are the reads until the time is out. */
  function Outcome(blockCounter: nat, first: Reading, retries: seq<Reading>): Reading
    requires retries != []
  {
    if blockCounter == 0 && Nothing(first) then FirstSomething(retries) else first
  }

  /** What a block is read as: the first read, except that for the first block reads of nothing are repeated, until
      one gives something or the time is out. */
  lemma OutcomeIs(blockCounter: nat, first: Reading, retries: seq<Reading>) returns (k: nat)
    requires retries != []
    ensures blockCounter > 0 || first != Some([]) ==> Outcome(blockCounter, first, retries) == first
    ensures k < |retries| && forall i :: 0 <= i < k ==> retries[i] == Some([])
    ensures blockCounter == 0 && first == Some([]) ==> Outcome(blockCounter, first, retries) == retries[k]
    ensures retries[k] != Some([]) || k == |retries| - 1
  {
    k := FirstIndex(retries);
  }

  lemma {:induction false} FirstIndex(retries: seq<Reading>) returns (k: nat)
    requires retries != []
    ensures k < |retries| && forall i :: 0 <= i < k ==> retries[i] == Some([])
    ensures FirstSomething(retries) == retries[k] && (retries[k] != Some([]) || k == |retries| - 1)
  {
    k := 0;
    if |retries| > 1 && Nothing(retries[0]) {
      var n := FirstIndex(retries[1..]);
      k := n + 1;
    }
  }

  predicate IsBlock(r: Reading) {
    r.Some? && |r.value| == 4096
  }

  class Device {
    const divcount: Byte
    const triggerPattern: Byte
    const triggerMask: Byte
    const mangledBuf: array<Byte>
    const finalBuf: array<Byte>
    var blockCounter: nat
    var triggerFound: bool
    var bus: seq<BytePacket>
    ghost var blocks: seq<Block>

    predicate Single() {
      divcount == 0
    }

    function Hit(): Condition {
      Masked(triggerPattern, triggerMask)
    }

    ghost predicate Laid() {
      && mangledBuf.Length == BS
      && finalBuf.Length == SDRAM_SIZE
      && mangledBuf != finalBuf
    }

    /** The buffer holds byte `i` of block `b`. */
    ghost predicate Holds(b: nat, i: nat, byte: Byte)
      requires Laid() && b < NUM_BLOCKS && i < BS
      reads finalBuf
    {
      Sent(Single(), finalBuf[..], b, i) == byte
    }

    ghost predicate Valid()
      reads this, finalBuf
    {
      && Laid()
      && blockCounter < NUM_BLOCKS
      && (|blocks| == blockCounter || (blockCounter == NUM_BLOCKS - 1 && |blocks| == NUM_BLOCKS))
      && forall b, i :: 0 <= b < |blocks| && 0 <= i < BS ==> Holds(b, i, blocks[b][i])
    }

    /** The state at the start of an acquisition. */
    constructor (divcount: Byte, pattern: Byte, mask: Byte)
      ensures Valid() && fresh(mangledBuf) && fresh(finalBuf)
      ensures this.divcount == divcount && triggerPattern == pattern && triggerMask == mask
      ensures blocks == [] && !triggerFound && bus == []
    {
      this.divcount := divcount;
      triggerPattern := pattern;
      triggerMask := mask;
      mangledBuf := new Byte[4096](_ => 0);
      finalBuf := new Byte[8388608](_ => 0);
      blockCounter := 0;
      triggerFound := false;
      bus := [];
      blocks := [];
    }

    /** Read a block and put its bytes where they belong. No other place changes. */
    method ReadBlock(first: Reading, retries: seq<Reading>) returns (ok: bool)
      requires Valid() && retries != []
      modifies mangledBuf, finalBuf
      ensures ok <==> IsBlock(Outcome(blockCounter, first, retries))
      ensures !ok ==> finalBuf[..] == old(finalBuf[..])
      ensures ok ==> forall b, i :: 0 <= b < NUM_BLOCKS && 0 <= i < BS ==>
        if b == blockCounter then Holds(b, i, Outcome(blockCounter, first, retries).value[i])
        else Sent(Single(), finalBuf[..], b, i) == old(Sent(Single(), finalBuf[..], b, i))
    {
      var reading := Read(first);
      if Nothing(reading) && blockCounter == 0 {
        reading := Retry(retries);
      }
      if !IsBlock(reading) {
        return false;
      }
      Demangle();
      return true;
    }

    /** What the device sends ends up at the start of `mangledBuf`. */
    method Read(reading: Reading) returns (r: Reading)
      requires Laid()
      modifies mangledBuf
      ensures r == reading
      ensures r.Some? ==> mangledBuf[..|r.value|] == r.value
    {
      if reading.Some? {
        CopyInto(mangledBuf, 0, reading.value);
      }
      r := reading;
    }

    method Retry(retries: seq<Reading>) returns (r: Reading)
      requires Laid() && retries != []
      modifies mangledBuf
      ensures r == FirstSomething(retries)
      ensures r.Some? ==> mangledBuf[..|r.value|] == r.value
    {
      r := Read(retries[0]);
      var n := 1;
      while n < |retries| && Nothing(r)
        invariant 1 <= n <= |retries| && r == retries[n - 1]
        invariant FirstSomething(retries) == FirstSomething(retries[n - 1..])
        invariant r.Some? ==> mangledBuf[..|r.value|] == r.value
      {
        assert retries[n - 1..][1..] == retries[n..];
        r := Read(retries[n]);
        n := n + 1;
      }
    }

    method Demangle()
      requires Laid() && blockCounter < NUM_BLOCKS
      modifies finalBuf
      ensures forall b, i :: 0 <= b < NUM_BLOCKS && 0 <= i < BS ==>
        if b == blockCounter then Holds(b, i, mangledBuf[i])
        else Sent(Single(), finalBuf[..], b, i) == old(Sent(Single(), finalBuf[..], b, i))
    {
      var byteOffset := blockCounter * BS;
      var m := byteOffset / (1024 * 1024);
      var mi := m * (1024 * 1024);
      for k := 0 to BS
        invariant mangledBuf[..] == old(mangledBuf[..])
        invariant forall b, i :: 0 <= b < NUM_BLOCKS && 0 <= i < BS ==>
          if b == blockCounter && i < k then Holds(b, i, mangledBuf[i])
          else Sent(Single(), finalBuf[..], b, i) == old(Sent(Single(), finalBuf[..], b, i))
      {
        var p := k % 2;
        var index := m * 2 + (byteOffset + k - mi) / 2 * 16;
        index := index + (if divcount == 0 then p else 1 - p);
        assert index == Index(Single(), blockCounter, k);
        PlaceOfIndex(Single(), blockCounter, k);
        ghost var before := finalBuf[..];
        finalBuf[index] := mangledBuf[k];
        StoreByte(Single(), before, finalBuf[..], blockCounter, k);
      }
    }

    /** Look for the trigger in a block, unless it was found before or there is none. */
    method FindTrigger(block: nat) returns (point: Option<nat>)
      requires Laid() && block < NUM_BLOCKS
      modifies this`triggerFound
      ensures point == Point(Hit(), old(triggerFound), Unit(finalBuf[..], 4096, block))
      ensures triggerFound <==> old(triggerFound) || point.Some?
    {
      ghost var data := Unit(finalBuf[..], 4096, block);
      var expectedSample := And(triggerPattern, triggerMask);
      for i := 0 to BS
        invariant triggerFound == old(triggerFound)
        invariant triggerFound || FirstMatch(Hit(), data[..i]) == None
      {
        if triggerFound {
          return None;
        }
        if triggerMask == 0 {
          NeverWithoutMask(triggerPattern, data);
          return None;
        }
        var sample := finalBuf[block * BS + i];
        assert sample == data[i];
        FirstMatchStep(Hit(), data, i);
        if And(sample, triggerMask) == expectedSample {
          triggerFound := true;
          return Some(i);
        }
      }
      assert data[..BS] == data;
      return None;
    }

    /** Send a block, in two parts if the trigger is in it. */
    method SendBlock(block: nat)
      requires Laid() && block < NUM_BLOCKS
      modifies this`triggerFound, this`bus
      ensures
        var data := Unit(finalBuf[..], 4096, block);
        var point := Point(Hit(), old(triggerFound), data);
        && bus == old(bus) + BlockPackets(point, data)
        && (triggerFound <==> old(triggerFound) || point.Some?)
    {
      var start := block * BS;
      var point := FindTrigger(block);
      if point == None {
        bus := bus + [Logic(finalBuf[start..start + BS])];
        return;
      }
      var t := point.value;
      ghost var data, was := Unit(finalBuf[..], 4096, block), bus;
      if t > 0 {
        bus := bus + [Logic(finalBuf[start..start + t])];
        assert finalBuf[start..start + t] == data[..t];
      }
      assert bus == was + PacketsBefore(data, t);
      bus := bus + [Trigger];
      if t < BS - 1 {
        bus := bus + [Logic(finalBuf[start + t..start + BS])];
        assert finalBuf[start + t..start + BS] == data[t..];
      }
      AssociateFour(was, PacketsBefore(data, t), [Trigger], PacketsFrom(data, t));
    }

    /** Send the whole buffer. */
    method SendAll()
      requires Laid()
      modifies this`triggerFound, this`bus
      ensures bus == old(bus) + Emitted(Hit(), old(triggerFound), BlocksOf(finalBuf[..]))
    {
      ghost var buffer, was, found := finalBuf[..], bus, triggerFound;
      for i := 0 to NUM_BLOCKS
        invariant bus == was + SentBy(Hit(), found, buffer, i)
        invariant triggerFound <==> FoundBy(Hit(), found, buffer, i)
      {
        SentNext(Hit(), found, buffer, i);
        ghost var packets := BlockPackets(Point(Hit(), triggerFound, Unit(buffer, 4096, i)), Unit(buffer, 4096, i));
        Associate(was, SentBy(Hit(), found, buffer, i), packets);
        SendBlock(i);
      }
    }

    /** Take a block. With the last one, everything is sent. A read that does not give a whole block ends
        the acquisition. */
    method ReceiveData(first: Reading, retries: seq<Reading>) returns (more: bool)
      requires Valid() && retries != []
      modifies this, mangledBuf, finalBuf
      ensures Valid()
      ensures
        var reading := old(Outcome(blockCounter, first, retries));
        if !IsBlock(reading) then
          && !more && bus == old(bus) + [End]
          && finalBuf[..] == old(finalBuf[..]) && blocks == old(blocks) && triggerFound == old(triggerFound)
        else
          && more && blocks == old(blocks[..blockCounter]) + [reading.value]
          && (old(blockCounter) < NUM_BLOCKS - 1 ==> bus == old(bus) && triggerFound == old(triggerFound))
          && (old(blockCounter) == NUM_BLOCKS - 1 ==>
                bus == old(bus) + Emitted(Hit(), old(triggerFound), BlocksOf(finalBuf[..])) + [End])
    {
      var ok := ReadBlock(first, retries);
      if !ok {
        AcquisitionStop();
        return false;
      }
      ghost var block := Outcome(blockCounter, first, retries).value;
      blocks := blocks[..blockCounter] + [block];
      if blockCounter != NUM_BLOCKS - 1 {
        blockCounter := blockCounter + 1;
        return true;
      }
      SendAll();
      AcquisitionStop();
      return true;
    }

    method AcquisitionStop()
      modifies this`bus
      ensures bus == old(bus) + [End]
    {
      bus := bus + [End];
    }
  }

  function BlocksOf(buffer: seq<Byte>): seq<seq<Byte>>
    requires |buffer| == SDRAM_SIZE
  {
    Cut(buffer, 2048)
  }

  /** What has been sent after `n` blocks. */
  function SentBy(hit: Condition, found: bool, buffer: seq<Byte>, n: nat): seq<BytePacket>
    requires |buffer| == SDRAM_SIZE && n <= 2048
  {
    Emitted(hit, found, Cut(buffer, n))
  }

  /** Whether the trigger has been found after `n` blocks. */
  predicate FoundBy(hit: Condition, found: bool, buffer: seq<Byte>, n: nat)
    requires |buffer| == SDRAM_SIZE && n <= 2048
  {
    found || FirstMatch(hit, Flatten(Cut(buffer, n))).Some?
  }

  lemma SentNext(hit: Condition, found: bool, buffer: seq<Byte>, n: nat)
    requires |buffer| == SDRAM_SIZE && n < 2048
    ensures
      var block := Unit(buffer, 4096, n);
      var point := Point(hit, FoundBy(hit, found, buffer, n), block);
      && SentBy(hit, found, buffer, n + 1) == SentBy(hit, found, buffer, n) + BlockPackets(point, block)
      && (FoundBy(hit, found, buffer, n + 1) <==> FoundBy(hit, found, buffer, n) || point.Some?)
  {
    var before, block := Cut(buffer, n), Unit(buffer, 4096, n);
    EmittedSnoc(hit, found, before, block);
    FlattenSnoc(before, block);
    FirstMatchOfJoin(hit, Flatten(before), block);
  }

  /** A whole acquisition: whatever was sent is in the buffer, each byte in its place; and the buffer is
      sent, completely unless the first match is on the last byte of a block. */
  method Acquire(divcount: Byte, pattern: Byte, mask: Byte, blocks: seq<Block>)
    returns (buffer: seq<Byte>, bus: seq<BytePacket>, ghost first: Option<nat>)
    requires |blocks| == NUM_BLOCKS
    ensures Demangled(divcount == 0, blocks, buffer) && SentInPairs(divcount == 0, blocks, buffer)
    ensures bus == AllPackets(Masked(pattern, mask), buffer)
    ensures IsFirstToFire(pattern, mask, buffer, first) && TriggerStands(bus, buffer, first)
    ensures Payload(bus) == buffer <==> !(first.Some? && first.value % 4096 == 4095)
  {
    var device := new Device(divcount, pattern, mask);
    ReceiveAll(device, blocks);
    buffer, bus := device.finalBuf[..], device.bus;
    first := FirstMatch(Masked(pattern, mask), buffer);
    SentAroundFirst(pattern, mask, buffer);
    DemangledInPairs(divcount == 0, blocks, buffer);
  }

  /** Block after block. */
  method ReceiveAll(device: Device, blocks: seq<Block>)
    requires device.Valid() && device.blockCounter == 0 && device.blocks == [] && device.bus == [] && !device.triggerFound
    requires |blocks| == NUM_BLOCKS
    modifies device, device.mangledBuf, device.finalBuf
    ensures device.Valid() && Demangled(device.Single(), blocks, device.finalBuf[..])
    ensures device.bus == AllPackets(device.Hit(), device.finalBuf[..])
  {
    for i := 0 to NUM_BLOCKS
      invariant device.Valid() && device.blocks == blocks[..i]
      invariant i < NUM_BLOCKS ==> device.blockCounter == i && device.bus == [] && !device.triggerFound
      invariant i == NUM_BLOCKS ==> device.bus == AllPackets(device.Hit(), device.finalBuf[..])
    {
      var more := device.ReceiveData(Some(blocks[i]), [None]);
    }
    assert device.blocks == blocks;
  }

  lemma SentAroundFirst(pattern: Byte, mask: Byte, buffer: seq<Byte>)
    requires |buffer| == SDRAM_SIZE
    ensures var bus, first := AllPackets(Masked(pattern, mask), buffer), FirstMatch(Masked(pattern, mask), buffer);
            && IsFirstToFire(pattern, mask, buffer, first) && TriggerStands(bus, buffer, first)
            && (Payload(bus) == buffer <==> !(first.Some? && first.value % 4096 == 4095))
  {
    CompleteBufferIff(Masked(pattern, mask), buffer);
    FirstMatchIsFirstToFire(pattern, mask, buffer);
    TriggerStandsFirst(Masked(pattern, mask), buffer);
  }

  /** No TRIGGER if no sample fires; otherwise one, after exactly the samples before the first that does, and
      before those after it. That sample itself follows the TRIGGER, unless it ends a block. END is last. */
  ghost predicate TriggerStands(bus: seq<BytePacket>, buffer: seq<Byte>, first: Option<nat>) {
    && bus != [] && bus[|bus| - 1] == End
    && match first
       case None => Triggers(bus) == 0 && Payload(bus) == buffer
       case Some(t) => t < |buffer| && exists split: Split :: StandsAt(bus, buffer, t, split)
  }

  ghost predicate StandsAt(bus: seq<BytePacket>, buffer: seq<Byte>, t: nat, split: Split)
    requires t < |buffer|
  {
    && bus == Around(split.before, split.after) + [End]
    && Triggers(split.before) == 0 && Triggers(split.after) == 0
    && Payload(split.before) == buffer[..t]
    && Payload(split.after) == if t % 4096 == 4095 then buffer[t + 1..] else buffer[t..]
  }

  lemma TriggerStandsFirst(hit: Condition, buffer: seq<Byte>)
    requires |buffer| == SDRAM_SIZE
    ensures TriggerStands(AllPackets(hit, buffer), buffer, FirstMatch(hit, buffer))
  {
    var blocks, first := BlocksOf(buffer), FirstMatch(hit, buffer);
    CutJoined(buffer, 2048);
    assert buffer[..2048 * 4096] == buffer;
    PayloadSnoc(Emitted(hit, false, blocks), End);
    TriggersSnoc(Emitted(hit, false, blocks), End);
    if first == None {
      NothingFound(hit, false, blocks);
    } else {
      var split := TriggerIsPlaced(hit, blocks);
      PartsOfSplit(buffer, Payload(split.before), split.omitted, Payload(split.after));
      assert StandsAt(AllPackets(hit, buffer), buffer, first.value, split);
    }
  }

  lemma PartsOfSplit<T>(all: seq<T>, before: seq<T>, omitted: seq<T>, after: seq<T>)
    requires all == before + omitted + after
    ensures before == all[..|before|] && after == all[|before| + |omitted|..]
  {
  }

  function AllPackets(hit: Condition, buffer: seq<Byte>): seq<BytePacket>
    requires |buffer| == SDRAM_SIZE
  {
    Emitted(hit, false, BlocksOf(buffer)) + [End]
  }

  /** Everything in the buffer is sent if and only if the first match, if there is one, does not end a block. */
  lemma CompleteBufferIff(hit: Condition, buffer: seq<Byte>)
    requires |buffer| == SDRAM_SIZE
    ensures var first := FirstMatch(hit, buffer);
            Payload(AllPackets(hit, buffer)) == buffer <==> !(first.Some? && first.value % 4096 == 4095)
  {
    CutJoined(buffer, 2048);
    assert buffer[..2048 * 4096] == buffer;
    CompleteIff(hit, BlocksOf(buffer));
    PayloadSnoc(Emitted(hit, false, BlocksOf(buffer)), End);
  }

  /** A trigger on bit 0, which is seen only in the last byte of the first block: that byte is not sent. */
  lemma LastOfBlockIsLost() returns (buffer: seq<Byte>)
    ensures |buffer| == SDRAM_SIZE && buffer[4095] == 1
    ensures FirstMatch(Masked(1, 1), buffer) == Some(4095)
    ensures Payload(AllPackets(Masked(1, 1), buffer)) != buffer
  {
    buffer := seq(SDRAM_SIZE, i => if i == 4095 then 1 else 0);
    assert Masked(1, 1)(buffer[4095]) && !Masked(1, 1)(0);
    FirstMatchIsFirst(Masked(1, 1), buffer);
    CompleteBufferIff(Masked(1, 1), buffer);
  }

  lemma NeverWithoutMask(pattern: Byte, samples: seq<Byte>)
    ensures FirstMatch(Masked(pattern, 0), samples) == None
  {
    FirstMatchIsFirst(Masked(pattern, 0), samples);
  }

  lemma FirstMatchStep(hit: Condition, samples: seq<Byte>, i: nat)
    requires i < |samples| && FirstMatch(hit, samples[..i]) == None
    ensures FirstMatch(hit, samples[..i + 1]) == if hit(samples[i]) then Some(i) else None
    ensures hit(samples[i]) ==> FirstMatch(hit, samples) == Some(i)
  {
    assert samples[..i + 1][..i] == samples[..i];
    FirstMatchOfJoin(hit, samples[..i + 1], samples[i + 1..]);
    SplitJoined(samples, i + 1);
  }

  lemma StoreByte(single: bool, before: seq<Byte>, after: seq<Byte>, block: nat, k: nat)
    requires |before| == |after| == SDRAM_SIZE && block < NUM_BLOCKS && k < BS
    requires Index(single, block, k) < SDRAM_SIZE
    requires forall x :: 0 <= x < SDRAM_SIZE && x != Index(single, block, k) ==> after[x] == before[x]
    ensures forall b, i :: 0 <= b < NUM_BLOCKS && 0 <= i < BS && !(b == block && i == k) ==>
              Sent(single, after, b, i) == Sent(single, before, b, i)
  {
    forall b, i | 0 <= b < NUM_BLOCKS && 0 <= i < BS && !(b == block && i == k)
      ensures Sent(single, after, b, i) == Sent(single, before, b, i)
    {
      PlaceOfIndex(single, b, i);
      PlaceOfIndex(single, block, k);
    }
  }
}
