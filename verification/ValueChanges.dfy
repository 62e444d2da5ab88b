/** The VCD writer: samples encoded as changes of single signals (IEEE Std 1364-2005, section 18), and
what a reader of the file recovers from them. The time of a change is the number of its sample. */
module ValueChanges {
  import opened Bits
  import opened Bytes
  import opened Products
  import opened Streams

  datatype Change = Change(time: nat, probe: nat, level: bool)

  const WORD_BITS := 64

  /** `~x` on a 64-bit word. */
  function Complement(x: nat): nat {
    Xor(x, Pow2(WORD_BITS) - 1)
  }

  lemma BitOfComplement(x: nat, p: nat)
    requires p < WORD_BITS
    ensures Bit(Complement(x), p) <==> !Bit(x, p)
  {
    BitOfXor(x, Pow2(WORD_BITS) - 1, p);
    BitOfOnes(WORD_BITS, p);
  }

  /** The changes from one sample to the next, for the first `n` probes. */
  function SampleChanges(prev: nat, sample: nat, time: nat, n: nat): seq<Change> {
    if n == 0 then []
    else
      SampleChanges(prev, sample, time, n - 1) +
      (if Bit(prev, n - 1) == Bit(sample, n - 1) then [] else [Change(time, n - 1, Bit(sample, n - 1))])
  }

  /** The changes of a run of samples, the first of which has number `time + 1`. */
  function StreamChanges(prev: nat, samples: seq<nat>, time: nat, n: nat): seq<Change> {
    if samples == [] then []
    else
      var init, last := samples[..|samples| - 1], samples[|samples| - 1];
      StreamChanges(prev, init, time, n) + SampleChanges(LastOf(prev, init), last, time + |samples|, n)
  }

  function LastOf(prev: nat, samples: seq<nat>): nat {
    if samples == [] then prev else samples[|samples| - 1]
  }

  function SamplesOf(data: seq<Byte>, u: nat, count: nat): (samples: seq<nat>)
    requires count * u <= |data|
    ensures |samples| == count
    ensures forall n :: 0 <= n < count ==> n * u + u <= |data| && samples[n] == Word(Unit(data, u, n))
  {
    if count == 0 then []
    else
      Monotone(count - 1, count, u);
      SamplesOf(data, u, count - 1) + [Word(Unit(data, u, count - 1))]
  }

  function WholeSamples(data: seq<Byte>, u: nat): (samples: seq<nat>)
    requires 1 <= u <= |data|
    ensures |samples| == NumUnits(|data|, u) >= 1 && samples[0] == Word(Unit(data, u, 0))
  {
    UnitFits(|data|, u, NumUnits(|data|, u) - 1);
    UnitFits(|data|, u, 0);
    SamplesOf(data, u, NumUnits(|data|, u))
  }

  class Output {
    const numEnabledProbes: nat
    const unitsize: nat
    var header: bool
    var prevsample: nat
    var samplecount: nat

    ghost predicate Valid() {
      1 <= numEnabledProbes <= 31 && unitsize == (numEnabledProbes + 7) / 8
    }

    constructor (numEnabledProbes: nat, samplecount: nat)
      requires 1 <= numEnabledProbes <= 31
      ensures Valid() && header && this.samplecount == samplecount && this.numEnabledProbes == numEnabledProbes
    {
      this.numEnabledProbes := numEnabledProbes;
      unitsize := (numEnabledProbes + 7) / 8;
      header, prevsample, this.samplecount := true, 0, samplecount;
    }

    /** The changes of one packet; bytes after the last whole sample are dropped. The packet must hold a
        sample, for the loop bound is computed without a sign. */
    method Data(data: seq<Byte>) returns (out: seq<Change>)
      requires Valid() && unitsize <= |data|
      modifies this`header, this`prevsample, this`samplecount
      ensures Valid() && !header
      ensures var samples := WholeSamples(data, unitsize);
              && out == StreamChanges(old(Previous(samples)), samples, old(samplecount), numEnabledProbes)
              && Tells(out, old(header), old(prevsample), samples, old(samplecount), numEnabledProbes)
              && prevsample == LastOf(old(prevsample), samples)
              && samplecount == old(samplecount) + |samples|
    {
      out := WriteSamples(data);
      FileTells(old(header), old(prevsample), WholeSamples(data, unitsize), old(samplecount), numEnabledProbes);
    }

    /** The loop over the samples of a packet. */
    method WriteSamples(data: seq<Byte>) returns (out: seq<Change>)
      requires Valid() && unitsize <= |data|
      modifies this`header, this`prevsample, this`samplecount
      ensures Valid() && !header
      ensures var samples := WholeSamples(data, unitsize);
              && out == StreamChanges(old(Previous(samples)), samples, old(samplecount), numEnabledProbes)
              && prevsample == LastOf(old(prevsample), samples)
              && samplecount == old(samplecount) + |samples|
    {
      out := [];
      var firstSample := header;
      header := false;
      ghost var samples := WholeSamples(data, unitsize);
      ghost var prev, n := Before(firstSample, samples[0]), 0;
      var i := 0;
      while i <= |data| - unitsize
        invariant 0 <= i == n * unitsize <= |data| && n <= |samples| && !header
        invariant firstSample <==> old(header) && n == 0
        invariant samplecount == old(samplecount) + n
        invariant Before(firstSample, samples[0]) == LastOf(prev, samples[..n])
        invariant out == StreamChanges(prev, samples[..n], old(samplecount), numEnabledProbes)
      {
        NextUnit(data, unitsize, n);
        assert data[i..i + unitsize] == Unit(data, unitsize, n);
        var changes := OneSample(Word(data[i..i + unitsize]), firstSample);
        assert StreamChanges(prev, samples[..n + 1], old(samplecount), numEnabledProbes) == out + changes by {
          AppendSample(prev, samples, n, old(samplecount), numEnabledProbes);
        }
        out := out + changes;
        firstSample := false;
        i := i + unitsize;
        n := n + 1;
      }
      AllUnitsTaken(|data|, unitsize, n);
      assert samples[..n] == samples;
    }

    /** The sample that the first one of `samples` is compared with. */
    function Previous(samples: seq<nat>): nat
      reads this`header, this`prevsample
    {
      if header && samples != [] then Complement(samples[0]) else prevsample
    }

    /** The sample that the next one is compared with. */
    function Before(firstSample: bool, sample: nat): nat
      reads this`prevsample
    {
      if firstSample then Complement(sample) else prevsample
    }

    method OneSample(sample: nat, firstSample: bool) returns (changes: seq<Change>)
      modifies this`prevsample, this`samplecount
      ensures samplecount == old(samplecount) + 1 && prevsample == sample
      ensures changes == SampleChanges(old(Before(firstSample, sample)), sample, samplecount, numEnabledProbes)
    {
      samplecount := samplecount + 1;
      if firstSample {
        prevsample := Complement(sample);
      }
      changes := EmitChanges(sample);
      prevsample := sample;
    }

    /** The loop over the probes of one sample. */
    method EmitChanges(sample: nat) returns (changes: seq<Change>)
      ensures changes == SampleChanges(prevsample, sample, samplecount, numEnabledProbes)
    {
      changes := [];
      var p := 0;
      while p < numEnabledProbes
        invariant p <= numEnabledProbes && changes == SampleChanges(prevsample, sample, samplecount, p)
      {
        var curbit, prevbit := Bit(sample, p), Bit(prevsample, p);
        if prevbit != curbit {
          changes := changes + [Change(samplecount, p, curbit)];
        }
        p := p + 1;
      }
    }
  }

  lemma AppendSample(prev: nat, samples: seq<nat>, n: nat, time: nat, probes: nat)
    requires n < |samples|
    ensures StreamChanges(prev, samples[..n + 1], time, probes) ==
            StreamChanges(prev, samples[..n], time, probes) +
            SampleChanges(LastOf(prev, samples[..n]), samples[n], time + n + 1, probes)
  {
    assert samples[..n + 1][..n] == samples[..n];
  }

  lemma NextUnit(data: seq<Byte>, u: nat, n: nat)
    requires 1 <= u && n * u + u <= |data|
    ensures n < NumUnits(|data|, u) && (n + 1) * u == n * u + u
    ensures WholeSamples(data, u)[n] == Word(Unit(data, u, n))
  {
    UnitFits(|data|, u, n);
  }

  // Packet boundaries.

  lemma {:induction false} StreamChangesOfJoin(prev: nat, a: seq<nat>, b: seq<nat>, time: nat, n: nat)
    ensures StreamChanges(prev, a + b, time, n) ==
            StreamChanges(prev, a, time, n) + StreamChanges(LastOf(prev, a), b, time + |a|, n)
    decreases |b|
  {
    if b == [] {
      assert a + b == a;
    } else {
      var init, last := b[..|b| - 1], b[|b| - 1];
      StreamChangesOfJoin(prev, a, init, time, n);
      assert StreamChanges(prev, a + b, time, n) ==
             StreamChanges(prev, a + init, time, n) + SampleChanges(LastOf(prev, a + init), last, time + |a + b|, n) by {
        SliceOfSecond(a, b, |b| - 1);
      }
      assert LastOf(prev, a + init) == LastOf(LastOf(prev, a), init);
      Associate(StreamChanges(prev, a, time, n), StreamChanges(LastOf(prev, a), init, time + |a|, n),
                SampleChanges(LastOf(prev, a + init), last, time + |a + b|, n));
    }
  }

  /** What a session gives the writer: packets that hold a sample each. */
  predicate HoldSamples(packets: seq<seq<Byte>>, u: nat) {
    packets == [] || (1 <= u <= |packets[|packets| - 1]| && HoldSamples(packets[..|packets| - 1], u))
  }

  function SamplesOfEach(packets: seq<seq<Byte>>, u: nat): seq<seq<nat>>
    requires HoldSamples(packets, u)
  {
    if packets == [] then []
    else SamplesOfEach(packets[..|packets| - 1], u) + [WholeSamples(packets[|packets| - 1], u)]
  }

  /** The samples of the first `i` packets. */
  function SamplesUpTo(packets: seq<seq<Byte>>, u: nat, i: nat): seq<nat>
    requires i <= |packets| && HoldSamples(packets, u)
  {
    HoldPrefix(packets, u, i);
    Flatten(SamplesOfEach(packets[..i], u))
  }

  lemma {:induction false} HoldPrefix(packets: seq<seq<Byte>>, u: nat, i: nat)
    requires i <= |packets| && HoldSamples(packets, u)
    ensures HoldSamples(packets[..i], u)
    decreases |packets|
  {
    if i == |packets| {
      assert packets[..i] == packets;
    } else {
      assert packets[..|packets| - 1][..i] == packets[..i];
      HoldPrefix(packets[..|packets| - 1], u, i);
    }
  }

  lemma NextPacket(packets: seq<seq<Byte>>, u: nat, i: nat)
    requires i < |packets| && HoldSamples(packets, u)
    ensures 1 <= u <= |packets[i]|
    ensures SamplesUpTo(packets, u, i + 1) == SamplesUpTo(packets, u, i) + WholeSamples(packets[i], u)
    ensures SamplesUpTo(packets, u, i + 1) <= SamplesUpTo(packets, u, |packets|)
  {
    HoldPrefix(packets, u, i + 1);
    assert packets[..i + 1][..i] == packets[..i];
    assert SamplesUpTo(packets, u, i + 1) == SamplesUpTo(packets, u, i) + WholeSamples(packets[i], u) by {
      FlattenSnoc(SamplesOfEach(packets[..i], u), WholeSamples(packets[i], u));
    }
    assert SamplesUpTo(packets, u, i + 1) <= SamplesUpTo(packets, u, |packets|) by {
      PrefixOfAll(packets, u, i + 1);
    }
  }

  lemma {:induction false} PrefixOfAll(packets: seq<seq<Byte>>, u: nat, i: nat)
    requires i <= |packets| && HoldSamples(packets, u)
    ensures SamplesUpTo(packets, u, i) <= Flatten(SamplesOfEach(packets, u)) == SamplesUpTo(packets, u, |packets|)
    decreases |packets|
  {
    assert packets[..|packets|] == packets;
    if i == |packets| {
    } else {
      var init, last := packets[..|packets| - 1], packets[|packets| - 1];
      assert init[..i] == packets[..i];
      PrefixOfAll(init, u, i);
      FlattenSnoc(SamplesOfEach(init, u), WholeSamples(last, u));
    }
  }

  /** Packets that end with a whole sample. */
  predicate HoldWhole(packets: seq<seq<Byte>>, u: nat)
    requires u > 0
  {
    packets == [] ||
    (var last := packets[|packets| - 1];
     |last| == NumUnits(|last|, u) * u && HoldWhole(packets[..|packets| - 1], u))
  }

  lemma UnitOfJoin(a: seq<Byte>, b: seq<Byte>, u: nat, k: nat, m: nat, i: nat)
    requires |a| == k * u && m * u <= |b| && i < k + m
    ensures i * u + u <= |a + b|
    ensures if i < k then i * u + u <= |a| && Unit(a + b, u, i) == Unit(a, u, i)
            else (i - k) * u + u <= |b| && Unit(a + b, u, i) == Unit(b, u, i - k)
  {
    if i < k {
      Monotone(i + 1, k, u);
      assert (i + 1) * u == i * u + u;
    } else {
      Monotone(i - k + 1, m, u);
      assert (i - k + 1) * u == (i - k) * u + u;
      Distribute(k, i - k, i, u);
    }
  }

  lemma SamplesOfJoin(a: seq<Byte>, b: seq<Byte>, u: nat, k: nat, m: nat)
    requires |a| == k * u && m * u <= |b| && (k + m) * u <= |a + b|
    ensures SamplesOf(a + b, u, k + m) == SamplesOf(a, u, k) + SamplesOf(b, u, m)
  {
    forall i | 0 <= i < k + m
      ensures SamplesOf(a + b, u, k + m)[i] == (SamplesOf(a, u, k) + SamplesOf(b, u, m))[i]
    {
      UnitOfJoin(a, b, u, k, m, i);
    }
  }

  predicate AreSamplesOf(samples: seq<nat>, bytes: seq<Byte>, u: nat) {
    |bytes| == |samples| * u && samples == SamplesOf(bytes, u, |samples|)
  }

  lemma JoinedSamples(a: seq<nat>, as_: seq<Byte>, b: seq<nat>, bs: seq<Byte>, u: nat)
    requires AreSamplesOf(a, as_, u) && AreSamplesOf(b, bs, u)
    ensures AreSamplesOf(a + b, as_ + bs, u)
  {
    Distribute(|a|, |b|, |a + b|, u);
    SamplesOfJoin(as_, bs, u, |a|, |b|);
  }

  /** The samples of the packets are those of their bytes. */
  lemma {:induction false} SamplesOfBytes(packets: seq<seq<Byte>>, u: nat)
    requires u > 0 && HoldSamples(packets, u) && HoldWhole(packets, u)
    ensures AreSamplesOf(Flatten(SamplesOfEach(packets, u)), Flatten(packets), u)
  {
    if packets == [] {
      assert AreSamplesOf([], [], u);
    } else {
      var init, last := packets[..|packets| - 1], packets[|packets| - 1];
      SamplesOfBytes(init, u);
      assert AreSamplesOf(WholeSamples(last, u), last, u);
      JoinedSamples(Flatten(SamplesOfEach(init, u)), Flatten(init), WholeSamples(last, u), last, u);
      FlattenSnoc(SamplesOfEach(init, u), WholeSamples(last, u));
    }
  }

  /** However the same bytes are cut between samples, the writer gets the same samples. */
  lemma PacketsDoNotMatter(a: seq<seq<Byte>>, b: seq<seq<Byte>>, u: nat)
    requires u > 0 && HoldSamples(a, u) && HoldWhole(a, u) && HoldSamples(b, u) && HoldWhole(b, u)
    requires Flatten(a) == Flatten(b)
    ensures Flatten(SamplesOfEach(a, u)) == Flatten(SamplesOfEach(b, u))
  {
    SamplesOfBytes(a, u);
    SamplesOfBytes(b, u);
    AllUnitsTaken(|Flatten(a)|, u, |Flatten(SamplesOfEach(a, u))|);
    AllUnitsTaken(|Flatten(b)|, u, |Flatten(SamplesOfEach(b, u))|);
  }

  // Reading the file back.

  /** The level of a probe after all of `changes`, starting from `level`. */
  function Replay(changes: seq<Change>, probe: nat, level: bool): bool {
    if changes == [] then level
    else
      var last := changes[|changes| - 1];
      if last.probe == probe then last.level else Replay(changes[..|changes| - 1], probe, level)
  }

  lemma {:induction false} ReplayOfJoin(a: seq<Change>, b: seq<Change>, probe: nat, level: bool)
    ensures Replay(a + b, probe, level) == Replay(b, probe, Replay(a, probe, level))
    decreases |b|
  {
    if b == [] {
      assert a + b == a;
    } else {
      assert (a + b)[..|a + b| - 1] == a + b[..|b| - 1];
      ReplayOfJoin(a, b[..|b| - 1], probe, level);
    }
  }

  lemma {:induction false} ReplaySample(prev: nat, sample: nat, time: nat, n: nat, probe: nat)
    ensures Replay(SampleChanges(prev, sample, time, n), probe, Bit(prev, probe)) ==
            if probe < n then Bit(sample, probe) else Bit(prev, probe)
  {
    if n > 0 {
      ReplaySample(prev, sample, time, n - 1, probe);
      var rest := SampleChanges(prev, sample, time, n - 1);
      var step: seq<Change> :=
        if Bit(prev, n - 1) == Bit(sample, n - 1) then [] else [Change(time, n - 1, Bit(sample, n - 1))];
      ReplayOfJoin(rest, step, probe, Bit(prev, probe));
    }
  }

  /** Whatever the reader assumes before the first change, it has the level of every enabled probe after
      the changes of the samples so far: the writer starts from the complement of the first sample, so
      the first sample is recorded in full. */
  lemma {:induction false} ReplayRestores(samples: seq<nat>, time: nat, n: nat, probe: nat, assumed: bool)
    requires samples != [] && probe < n <= WORD_BITS
    ensures Replay(StreamChanges(Complement(samples[0]), samples, time, n), probe, assumed) ==
            Bit(samples[|samples| - 1], probe)
    decreases |samples|
  {
    var prev := Complement(samples[0]);
    var init, last := samples[..|samples| - 1], samples[|samples| - 1];
    var before := StreamChanges(prev, init, time, n);
    ReplayOfJoin(before, SampleChanges(LastOf(prev, init), last, time + |samples|, n), probe, assumed);
    if init == [] {
      BitOfComplement(last, probe);
      ReplayFull(prev, last, time + 1, n, probe, assumed);
    } else {
      assert samples[0] == init[0];
      ReplayRestores(init, time, n, probe, assumed);
      ReplaySample(LastOf(prev, init), last, time + |samples|, n, probe);
    }
  }

  /** A sample that differs from its predecessor in a probe is read back without knowing that probe before. */
  lemma {:induction false} ReplayFull(prev: nat, sample: nat, time: nat, n: nat, probe: nat, assumed: bool)
    requires probe < n && Bit(prev, probe) != Bit(sample, probe)
    ensures Replay(SampleChanges(prev, sample, time, n), probe, assumed) == Bit(sample, probe)
  {
    var rest := SampleChanges(prev, sample, time, n - 1);
    var step: seq<Change> :=
      if Bit(prev, n - 1) == Bit(sample, n - 1) then [] else [Change(time, n - 1, Bit(sample, n - 1))];
    ReplayOfJoin(rest, step, probe, assumed);
    if probe < n - 1 {
      ReplayFull(prev, sample, time, n - 1, probe, assumed);
    }
  }

  /** A change is written exactly if its sample is the first one or differs from the one before in that probe. */
  lemma {:induction false} ChangesAreDeltas(samples: seq<nat>, time: nat, n: nat, c: Change)
    requires n <= WORD_BITS
    ensures samples != [] ==>
              (c in StreamChanges(Complement(samples[0]), samples, time, n) <==> IsDelta(samples, time, n, c))
    decreases |samples|
  {
    if samples != [] {
      var prev := Complement(samples[0]);
      var init, last := samples[..|samples| - 1], samples[|samples| - 1];
      InSampleChanges(LastOf(prev, init), last, time + |samples|, n, c);
      DeltaOfMore(samples, time, n, c);
      if init == [] {
        if c.probe < n {
          BitOfComplement(last, c.probe);
        }
      } else {
        assert samples[0] == init[0];
        ChangesAreDeltas(init, time, n, c);
      }
    }
  }

  /** A change is one of the last sample or of those before. */
  lemma DeltaOfMore(samples: seq<nat>, time: nat, n: nat, c: Change)
    requires samples != []
    ensures var init, last := samples[..|samples| - 1], samples[|samples| - 1];
            IsDelta(samples, time, n, c) <==>
              || IsDelta(init, time, n, c)
              || (&& c.time == time + |samples| && c.probe < n && c.level == Bit(last, c.probe)
                  && (init == [] || Bit(LastOf(last, init), c.probe) != c.level))
  {
  }

  ghost predicate IsDelta(samples: seq<nat>, time: nat, n: nat, c: Change) {
    && time < c.time <= time + |samples| && c.probe < n
    && var k := c.time - time - 1;
       && c.level == Bit(samples[k], c.probe)
       && (k == 0 || Bit(samples[k - 1], c.probe) != Bit(samples[k], c.probe))
  }

  lemma {:induction false} InSampleChanges(prev: nat, sample: nat, time: nat, n: nat, c: Change)
    ensures c in SampleChanges(prev, sample, time, n) <==>
            c.time == time && c.probe < n && c.level == Bit(sample, c.probe) && Bit(prev, c.probe) != c.level
  {
    if n > 0 {
      InSampleChanges(prev, sample, time, n - 1, c);
    }
  }

  // What a reader of the file gets.

  /** The level of a probe before sample `k`. */
  function LevelBefore(prev: nat, samples: seq<nat>, k: nat, probe: nat): bool
    requires k < |samples|
  {
    Bit(if k == 0 then prev else samples[k - 1], probe)
  }

  /** A change against the sample before; the one before the first is `prev`. */
  ghost predicate IsChange(prev: nat, samples: seq<nat>, time: nat, n: nat, c: Change) {
    && time < c.time <= time + |samples| && c.probe < n
    && var k := c.time - time - 1;
       c.level == Bit(samples[k], c.probe) && LevelBefore(prev, samples, k, c.probe) != c.level
  }

  lemma {:induction false} InStreamChanges(prev: nat, samples: seq<nat>, time: nat, n: nat, c: Change)
    ensures c in StreamChanges(prev, samples, time, n) <==> IsChange(prev, samples, time, n, c)
  {
    if samples != [] {
      var init, last := samples[..|samples| - 1], samples[|samples| - 1];
      InStreamChanges(prev, init, time, n, c);
      InSampleChanges(LastOf(prev, init), last, time + |samples|, n, c);
      ChangeOfMore(prev, samples, time, n, c);
    }
  }

  lemma ChangeOfMore(prev: nat, samples: seq<nat>, time: nat, n: nat, c: Change)
    requires samples != []
    ensures var init, last := samples[..|samples| - 1], samples[|samples| - 1];
            IsChange(prev, samples, time, n, c) <==>
              || IsChange(prev, init, time, n, c)
              || (c.time == time + |samples| && c.probe < n && c.level == Bit(last, c.probe)
                  && Bit(LastOf(prev, init), c.probe) != c.level)
  {
  }

  /** A reader that knows the levels before has them after. */
  lemma {:induction false} ReplayOnward(prev: nat, samples: seq<nat>, time: nat, n: nat, probe: nat)
    requires probe < n
    ensures Replay(StreamChanges(prev, samples, time, n), probe, Bit(prev, probe)) == Bit(LastOf(prev, samples), probe)
    decreases |samples|
  {
    if samples != [] {
      var init, last := samples[..|samples| - 1], samples[|samples| - 1];
      var before, step := StreamChanges(prev, init, time, n), SampleChanges(LastOf(prev, init), last, time + |samples|, n);
      ReplayOnward(prev, init, time, n, probe);
      ReplayOfJoin(before, step, probe, Bit(prev, probe));
      ReplaySample(LastOf(prev, init), last, time + |samples|, n, probe);
    }
  }

  /** In the order of time, and of probes at the same time. */
  ghost predicate Ascending(changes: seq<Change>) {
    forall i, j :: 0 <= i < j < |changes| ==> Earlier(changes[i], changes[j])
  }

  predicate Earlier(a: Change, b: Change) {
    a.time < b.time || (a.time == b.time && a.probe < b.probe)
  }

  lemma {:induction false} SampleAscends(prev: nat, sample: nat, time: nat, n: nat)
    ensures Ascending(SampleChanges(prev, sample, time, n))
    ensures forall c :: c in SampleChanges(prev, sample, time, n) ==> c.time == time && c.probe < n
  {
    if n > 0 {
      SampleAscends(prev, sample, time, n - 1);
    }
  }

  lemma {:induction false} StreamAscends(prev: nat, samples: seq<nat>, time: nat, n: nat)
    ensures Ascending(StreamChanges(prev, samples, time, n))
    ensures forall c :: c in StreamChanges(prev, samples, time, n) ==> c.time <= time + |samples|
  {
    if samples != [] {
      var init, last := samples[..|samples| - 1], samples[|samples| - 1];
      StreamAscends(prev, init, time, n);
      SampleAscends(LastOf(prev, init), last, time + |samples|, n);
      JoinAscends(StreamChanges(prev, init, time, n), SampleChanges(LastOf(prev, init), last, time + |samples|, n),
                  time + |samples|);
    }
  }

  lemma JoinAscends(a: seq<Change>, b: seq<Change>, time: nat)
    requires Ascending(a) && (forall c :: c in a ==> c.time < time)
    requires Ascending(b) && (forall c :: c in b ==> c.time == time)
    ensures Ascending(a + b) && (forall c :: c in a + b ==> c.time <= time)
  {
    forall i, j | 0 <= i < j < |a + b| ensures Earlier((a + b)[i], (a + b)[j]) {
      if i < |a| <= j {
        assert a[i] in a && b[j - |a|] in b;
      }
    }
  }

  /** The file tells a reader that assumes any levels the level of every enabled probe; it has a change for each
      level of the first sample and for each later difference, no others, in order. */
  ghost predicate TellsAll(out: seq<Change>, samples: seq<nat>, time: nat, n: nat) {
    && Ascending(out)
    && (forall c :: c in out <==> IsDelta(samples, time, n, c))
    && (samples != [] ==>
          forall probe, assumed :: 0 <= probe < n ==> Replay(out, probe, assumed) == Bit(samples[|samples| - 1], probe))
  }

  /** The file goes on from the sample before. */
  ghost predicate TellsMore(out: seq<Change>, prev: nat, samples: seq<nat>, time: nat, n: nat) {
    && Ascending(out)
    && (forall c :: c in out <==> IsChange(prev, samples, time, n, c))
    && (forall probe :: 0 <= probe < n ==>
          Replay(out, probe, Bit(prev, probe)) == Bit(LastOf(prev, samples), probe))
  }

  /** What is written of these samples, at the start of a file or not. */
  ghost predicate Tells(out: seq<Change>, header: bool, prevsample: nat, samples: seq<nat>, time: nat, n: nat) {
    if header && samples != [] then TellsAll(out, samples, time, n) else TellsMore(out, prevsample, samples, time, n)
  }

  lemma NewFileTellsAll(samples: seq<nat>, time: nat, n: nat)
    requires samples != [] && n <= WORD_BITS
    ensures TellsAll(StreamChanges(Complement(samples[0]), samples, time, n), samples, time, n)
  {
    var out := StreamChanges(Complement(samples[0]), samples, time, n);
    StreamAscends(Complement(samples[0]), samples, time, n);
    forall c ensures c in out <==> IsDelta(samples, time, n, c) {
      ChangesAreDeltas(samples, time, n, c);
    }
    forall probe, assumed | 0 <= probe < n
      ensures Replay(out, probe, assumed) == Bit(samples[|samples| - 1], probe)
    {
      ReplayRestores(samples, time, n, probe, assumed);
    }
  }

  lemma FileTellsMore(prev: nat, samples: seq<nat>, time: nat, n: nat)
    ensures TellsMore(StreamChanges(prev, samples, time, n), prev, samples, time, n)
  {
    var out := StreamChanges(prev, samples, time, n);
    StreamAscends(prev, samples, time, n);
    forall c ensures c in out <==> IsChange(prev, samples, time, n, c) {
      InStreamChanges(prev, samples, time, n, c);
    }
    forall probe | 0 <= probe < n
      ensures Replay(out, probe, Bit(prev, probe)) == Bit(LastOf(prev, samples), probe)
    {
      ReplayOnward(prev, samples, time, n, probe);
    }
  }

  lemma FileTells(header: bool, prevsample: nat, samples: seq<nat>, time: nat, n: nat)
    requires n <= WORD_BITS
    ensures var prev := if header && samples != [] then Complement(samples[0]) else prevsample;
            Tells(StreamChanges(prev, samples, time, n), header, prevsample, samples, time, n)
  {
    if header && samples != [] {
      NewFileTellsAll(samples, time, n);
    } else {
      FileTellsMore(prevsample, samples, time, n);
    }
  }

  /** The state of the writer after `samples`, in terms of the one before. */
  ghost predicate IsAfter(output: Output, header: bool, prevsample: nat, count: nat, samples: seq<nat>)
    reads output
  {
    && output.Valid() && output.header == (header && samples == [])
    && output.prevsample == LastOf(prevsample, samples)
    && output.samplecount == count + |samples|
  }

  /** One packet after another: the file has the changes of all their samples as one run. A new file can be
      read without knowing anything, and one that is continued by knowing the sample before. */
  method DataOfAll(output: Output, packets: seq<seq<Byte>>) returns (out: seq<Change>)
    requires output.Valid() && HoldSamples(packets, output.unitsize)
    modifies output`header, output`prevsample, output`samplecount
    ensures
      var samples := Flatten(SamplesOfEach(packets, output.unitsize));
      && out == StreamChanges(old(output.Previous(samples)), samples, old(output.samplecount), output.numEnabledProbes)
      && IsAfter(output, old(output.header), old(output.prevsample), old(output.samplecount), samples)
      && Tells(out, old(output.header), old(output.prevsample), samples, old(output.samplecount), output.numEnabledProbes)
  {
    out := [];
    ghost var u, time := output.unitsize, output.samplecount;
    PrefixOfAll(packets, u, |packets|);
    ghost var prev, before: seq<nat> := output.Previous(SamplesUpTo(packets, u, |packets|)), [];
    var i := 0;
    while i < |packets|
      invariant i <= |packets| && before == SamplesUpTo(packets, u, i)
      invariant IsAfter(output, old(output.header), old(output.prevsample), time, before)
      invariant out == StreamChanges(prev, before, time, output.numEnabledProbes)
    {
      NextPacket(packets, u, i);
      out := DataAfter(output, packets[i], prev, before, time, out);
      before := before + WholeSamples(packets[i], u);
      i := i + 1;
    }
    FileTells(old(output.header), old(output.prevsample), before, time, output.numEnabledProbes);
  }

  /** One more packet after samples `before`, which gave `sofar`. */
  method DataAfter(output: Output, data: seq<Byte>, ghost prev: nat, ghost before: seq<nat>, ghost time: nat,
                   sofar: seq<Change>)
    returns (out: seq<Change>)
    requires output.Valid() && output.unitsize <= |data|
    requires output.Previous(WholeSamples(data, output.unitsize)) == LastOf(prev, before)
    requires output.samplecount == time + |before|
    requires sofar == StreamChanges(prev, before, time, output.numEnabledProbes)
    modifies output`header, output`prevsample, output`samplecount
    ensures output.Valid() && !output.header
    ensures var after := before + WholeSamples(data, output.unitsize);
            && out == StreamChanges(prev, after, time, output.numEnabledProbes)
            && output.prevsample == LastOf(prev, after)
            && output.samplecount == time + |after|
  {
    var changes := output.Data(data);
    StreamChangesOfJoin(prev, before, WholeSamples(data, output.unitsize), time, output.numEnabledProbes);
    out := sofar + changes;
  }
}
