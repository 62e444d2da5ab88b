/** What the ChronoVu LA8 driver sends of its buffer, block by block: the trigger is looked for until
it is found, and the block it is found in is split there. */
module La8Emission {
  import opened Bits
  import opened Bytes
  import opened Options
  import opened SessionFeed
  import opened Streams

  type BytePacket = Packet<Byte>

  /** Which samples fire the trigger. */
  type Condition = Byte -> bool

  /** A mask of 0 means that there is no trigger. */
  function Masked(pattern: Byte, mask: Byte): Condition {
    (sample: Byte) => mask != 0 && And(sample, mask) == And(pattern, mask)
  }

  /** The sample has the levels of the pattern on the probes of the mask. */
  ghost predicate Fires(pattern: Byte, mask: Byte, sample: Byte) {
    mask != 0 && forall probe: nat :: Bit(mask, probe) ==> (Bit(sample, probe) <==> Bit(pattern, probe))
  }

  lemma MaskedFires(pattern: Byte, mask: Byte, sample: Byte)
    ensures Masked(pattern, mask)(sample) <==> Fires(pattern, mask, sample)
  {
    AgreeUnderMask(sample, pattern, mask);
  }

  /** The first of the samples that fires, if there is one. */
  ghost predicate IsFirstToFire(pattern: Byte, mask: Byte, samples: seq<Byte>, first: Option<nat>) {
    match first
    case Some(t) => t < |samples| && Fires(pattern, mask, samples[t]) && NoneFires(pattern, mask, samples[..t])
    case None => NoneFires(pattern, mask, samples)
  }

  ghost predicate NoneFires(pattern: Byte, mask: Byte, samples: seq<Byte>) {
    forall i :: 0 <= i < |samples| ==> !Fires(pattern, mask, samples[i])
  }

  lemma FirstMatchIsFirstToFire(pattern: Byte, mask: Byte, samples: seq<Byte>)
    ensures IsFirstToFire(pattern, mask, samples, FirstMatch(Masked(pattern, mask), samples))
  {
    FirstMatchIsFirst(Masked(pattern, mask), samples);
    forall i | 0 <= i < |samples|
      ensures Masked(pattern, mask)(samples[i]) <==> Fires(pattern, mask, samples[i])
    {
      MaskedFires(pattern, mask, samples[i]);
    }
  }

  /** The first matching sample. */
  function FirstMatch(hit: Condition, samples: seq<Byte>): (first: Option<nat>)
    ensures first.Some? ==> first.value < |samples|
  {
    if samples == [] then None
    else
      var n := |samples| - 1;
      match FirstMatch(hit, samples[..n])
      case Some(i) => Some(i)
      case None => if hit(samples[n]) then Some(n) else None
  }

  lemma {:induction false} FirstMatchIsFirst(hit: Condition, samples: seq<Byte>)
    ensures
      match FirstMatch(hit, samples)
      case Some(i) => hit(samples[i]) && NoneMatch(hit, samples[..i])
      case None => NoneMatch(hit, samples)
  {
    if samples != [] {
      var init := samples[..|samples| - 1];
      FirstMatchIsFirst(hit, init);
      var first := FirstMatch(hit, init);
      if first.Some? {
        assert init[..first.value] == samples[..first.value];
      }
    }
  }

  ghost predicate NoneMatch(hit: Condition, samples: seq<Byte>) {
    forall i :: 0 <= i < |samples| ==> !hit(samples[i])
  }

  lemma {:induction false} FirstMatchOfJoin(hit: Condition, a: seq<Byte>, b: seq<Byte>)
    ensures FirstMatch(hit, a + b) ==
            if FirstMatch(hit, a).Some? then FirstMatch(hit, a)
            else if FirstMatch(hit, b).Some? then Some(|a| + FirstMatch(hit, b).value)
            else None
    decreases |b|
  {
    if b == [] {
      assert a + b == a;
    } else {
      FirstMatchOfJoin(hit, a, b[..|b| - 1]);
      SliceOfSecond(a, b, |b| - 1);
    }
  }

  /** Where to split a block. */
  function Point(hit: Condition, found: bool, block: seq<Byte>): Option<nat> {
    if found then None else FirstMatch(hit, block)
  }

  /** A block split at a point. The samples from the point on are sent unless there is just one. */
  function BlockPackets(point: Option<nat>, block: seq<Byte>): seq<BytePacket>
    requires point.Some? ==> point.value < |block|
  {
    match point
    case None => [Logic(block)]
    case Some(t) =>
      Around(PacketsBefore(block, t), PacketsFrom(block, t))
  }

  function Around(before: seq<BytePacket>, after: seq<BytePacket>): seq<BytePacket> {
    (before + [Trigger]) + after
  }

  function PacketsBefore(block: seq<Byte>, t: nat): seq<BytePacket>
    requires t < |block|
  {
    if t > 0 then [Logic(block[..t])] else []
  }

  function PacketsFrom(block: seq<Byte>, t: nat): seq<BytePacket>
    requires t < |block|
  {
    if t < |block| - 1 then [Logic(block[t..])] else []
  }

  /** The packets of all blocks; `found` says that a trigger has been found before them. */
  function Emitted(hit: Condition, found: bool, blocks: seq<seq<Byte>>): seq<BytePacket> {
    if blocks == [] then []
    else
      var init, last := blocks[..|blocks| - 1], blocks[|blocks| - 1];
      Emitted(hit, found, init) + BlockPackets(Point(hit, found || FirstMatch(hit, Flatten(init)).Some?, last), last)
  }

  lemma EmittedSnoc(hit: Condition, found: bool, blocks: seq<seq<Byte>>, block: seq<Byte>)
    ensures Emitted(hit, found, blocks + [block]) ==
            Emitted(hit, found, blocks) + BlockPackets(Point(hit, found || FirstMatch(hit, Flatten(blocks)).Some?, block), block)
  {
    assert (blocks + [block])[..|blocks|] == blocks;
  }

  lemma PayloadOfOne(p: BytePacket)
    ensures Payload([p]) == Data(p)
  {
    PayloadSnoc([], p);
  }

  lemma {:induction false} LengthOfFlat(blocks: seq<seq<Byte>>)
    requires AllOfSize(4096, blocks)
    ensures |Flatten(blocks)| == |blocks| * 4096
    decreases |blocks|
  {
    if blocks != [] {
      LengthOfFlat(blocks[..|blocks| - 1]);
    }
  }

  /** Without a trigger, or with one that was found before, the blocks are sent as they are. */
  lemma {:induction false} NothingFound(hit: Condition, found: bool, blocks: seq<seq<Byte>>)
    requires found || FirstMatch(hit, Flatten(blocks)) == None
    ensures Payload(Emitted(hit, found, blocks)) == Flatten(blocks)
    ensures Triggers(Emitted(hit, found, blocks)) == 0
    decreases |blocks|
  {
    if blocks != [] {
      var init, last := blocks[..|blocks| - 1], blocks[|blocks| - 1];
      FirstMatchOfJoin(hit, Flatten(init), last);
      NothingFound(hit, found, init);
      PayloadSnoc(Emitted(hit, found, init), Logic(last));
      TriggersSnoc(Emitted(hit, found, init), Logic(last));
    }
  }

  /** The packets before and after the TRIGGER, and the samples that are left out between them. */
  datatype Split = Split(before: seq<BytePacket>, omitted: seq<Byte>, after: seq<BytePacket>) {
    ghost predicate Of(packets: seq<BytePacket>, data: seq<Byte>) {
      && packets == Around(before, after)
      && Triggers(before) == 0 && Triggers(after) == 0
      && data == Payload(before) + omitted + Payload(after)
    }
  }

  /** A sample that fires the trigger is left out if it ends a block. */
  function Omissions(t: nat): nat {
    if t % 4096 == 4095 then 1 else 0
  }

  /** There is one TRIGGER, after exactly the samples before the first match, and then come the samples
      from the match on. But a match on the last byte of a block is itself not sent. */
  lemma TriggerIsPlaced(hit: Condition, blocks: seq<seq<Byte>>) returns (split: Split)
    requires AllOfSize(4096, blocks) && FirstMatch(hit, Flatten(blocks)).Some?
    ensures split.Of(Emitted(hit, false, blocks), Flatten(blocks))
    ensures var t := FirstMatch(hit, Flatten(blocks)).value;
            |Payload(split.before)| == t && |split.omitted| == Omissions(t)
  {
    var block, at;
    split, block, at := TriggerIsInBlock(hit, blocks);
    var t := block * 4096 + at;
    assert Omissions(t) == |split.omitted| by {
      Remainder(t, block, at);
    }
  }

  /** The first match is sample `at` of block `block`. */
  ghost predicate InBlock(hit: Condition, blocks: seq<seq<Byte>>, split: Split, block: nat, at: nat) {
    && split.Of(Emitted(hit, false, blocks), Flatten(blocks))
    && at < 4096 && FirstMatch(hit, Flatten(blocks)) == Some(block * 4096 + at)
    && |Payload(split.before)| == block * 4096 + at && |split.omitted| == if at == 4095 then 1 else 0
  }

  lemma Remainder(t: nat, block: nat, at: nat)
    requires at < 4096 && t == block * 4096 + at
    ensures Omissions(t) == if at == 4095 then 1 else 0
  {
  }

  lemma {:induction false} TriggerIsInBlock(hit: Condition, blocks: seq<seq<Byte>>)
    returns (split: Split, block: nat, at: nat)
    requires AllOfSize(4096, blocks) && FirstMatch(hit, Flatten(blocks)).Some?
    ensures InBlock(hit, blocks, split, block, at)
    decreases |blocks|
  {
    if FirstMatch(hit, Flatten(blocks[..|blocks| - 1])).Some? {
      split, block, at := TriggerIsInBlock(hit, blocks[..|blocks| - 1]);
      split := TriggerBeforeLast(hit, blocks, split, block, at);
    } else {
      split, block, at := TriggerInLast(hit, blocks);
    }
  }

  lemma TriggerBeforeLast(hit: Condition, blocks: seq<seq<Byte>>, split: Split, block: nat, at: nat)
    returns (more: Split)
    requires blocks != [] && InBlock(hit, blocks[..|blocks| - 1], split, block, at)
    ensures InBlock(hit, blocks, more, block, at)
  {
    var init, last := blocks[..|blocks| - 1], blocks[|blocks| - 1];
    FirstMatchOfJoin(hit, Flatten(init), last);
    more := MoreAfter(split, Emitted(hit, false, init), Flatten(init), last);
  }

  lemma TriggerInLast(hit: Condition, blocks: seq<seq<Byte>>) returns (split: Split, block: nat, at: nat)
    requires AllOfSize(4096, blocks) && blocks != []
    requires FirstMatch(hit, Flatten(blocks)).Some? && FirstMatch(hit, Flatten(blocks[..|blocks| - 1])) == None
    ensures InBlock(hit, blocks, split, block, at)
  {
    block, at := LastPoint(hit, blocks);
    split := SplitLast(hit, blocks, at);
  }

  lemma LastPoint(hit: Condition, blocks: seq<seq<Byte>>) returns (block: nat, at: nat)
    requires AllOfSize(4096, blocks) && blocks != []
    requires FirstMatch(hit, Flatten(blocks)).Some? && FirstMatch(hit, Flatten(blocks[..|blocks| - 1])) == None
    ensures at < 4096 && FirstMatch(hit, Flatten(blocks)) == Some(block * 4096 + at)
    ensures |Flatten(blocks[..|blocks| - 1])| == block * 4096
    ensures FirstMatch(hit, blocks[|blocks| - 1]) == Some(at)
  {
    var init, last := blocks[..|blocks| - 1], blocks[|blocks| - 1];
    FirstMatchOfJoin(hit, Flatten(init), last);
    LengthOfFlat(init);
    block, at := |init|, FirstMatch(hit, last).value;
  }

  lemma SplitLast(hit: Condition, blocks: seq<seq<Byte>>, at: nat) returns (split: Split)
    requires blocks != [] && |blocks[|blocks| - 1]| == 4096
    requires FirstMatch(hit, Flatten(blocks[..|blocks| - 1])) == None
    requires FirstMatch(hit, blocks[|blocks| - 1]) == Some(at)
    ensures split.Of(Emitted(hit, false, blocks), Flatten(blocks))
    ensures |Payload(split.before)| == |Flatten(blocks[..|blocks| - 1])| + at
    ensures |split.omitted| == if at == 4095 then 1 else 0
  {
    var init, last := blocks[..|blocks| - 1], blocks[|blocks| - 1];
    NothingFound(hit, false, init);
    var ofLast := SplitBlock(last, at);
    split := PacketsFirst(Emitted(hit, false, init), ofLast, BlockPackets(Some(at), last), last);
  }

  lemma SplitBlock(block: seq<Byte>, t: nat) returns (split: Split)
    requires t < |block|
    ensures split.Of(BlockPackets(Some(t), block), block)
    ensures |Payload(split.before)| == t && |split.omitted| == if t == |block| - 1 then 1 else 0
  {
    PayloadOfOne(Logic(block[..t]));
    PayloadOfOne(Logic(block[t..]));
    split := Split(PacketsBefore(block, t), if t == |block| - 1 then block[t..] else [], PacketsFrom(block, t));
    SplitJoined(block, t);
  }

  lemma MoreAfter(split: Split, packets: seq<BytePacket>, data: seq<Byte>, block: seq<Byte>) returns (more: Split)
    requires split.Of(packets, data)
    ensures more.Of(packets + [Logic(block)], data + block)
    ensures more.before == split.before && more.omitted == split.omitted
  {
    Associate(split.before + [Trigger], split.after, [Logic(block)]);
    PayloadSnoc(split.after, Logic(block));
    TriggersSnoc(split.after, Logic(block));
    Associate(Payload(split.before) + split.omitted, Payload(split.after), block);
    more := split.(after := split.after + [Logic(block)]);
  }

  lemma PacketsFirst(packets: seq<BytePacket>, split: Split, more: seq<BytePacket>, data: seq<Byte>)
    returns (later: Split)
    requires Triggers(packets) == 0 && split.Of(more, data)
    ensures later.Of(packets + more, Payload(packets) + data)
    ensures |Payload(later.before)| == |Payload(packets)| + |Payload(split.before)| && later.omitted == split.omitted
  {
    PayloadOfJoin(packets, split.before);
    TriggersOfJoin(packets, split.before);
    AssociateFour(packets, split.before, [Trigger], split.after);
    AssociateFour(Payload(packets), Payload(split.before), split.omitted, Payload(split.after));
    later := split.(before := packets + split.before);
  }

  /** Everything is sent if and only if the first match, if there is one, does not end a block. */
  lemma CompleteIff(hit: Condition, blocks: seq<seq<Byte>>)
    requires AllOfSize(4096, blocks)
    ensures
      var first := FirstMatch(hit, Flatten(blocks));
      Payload(Emitted(hit, false, blocks)) == Flatten(blocks) <==> !(first.Some? && first.value % 4096 == 4095)
  {
    if FirstMatch(hit, Flatten(blocks)) == None {
      NothingFound(hit, false, blocks);
    } else {
      var split := TriggerIsPlaced(hit, blocks);
      PayloadSnoc(split.before, Trigger);
      PayloadOfJoin(split.before + [Trigger], split.after);
    }
  }

  // A buffer cut into blocks.

  function Cut(data: seq<Byte>, n: nat): (blocks: seq<seq<Byte>>)
    requires n * 4096 <= |data|
    ensures |blocks| == n && AllOfSize(4096, blocks)
  {
    if n == 0 then [] else Cut(data, n - 1) + [Unit(data, 4096, n - 1)]
  }

  lemma {:induction false} CutJoined(data: seq<Byte>, n: nat)
    requires n * 4096 <= |data|
    ensures Flatten(Cut(data, n)) == data[..n * 4096]
  {
    if n > 0 {
      CutJoined(data, n - 1);
      FlattenSnoc(Cut(data, n - 1), Unit(data, 4096, n - 1));
      SliceMore(data, (n - 1) * 4096, 4096);
    }
  }
}
