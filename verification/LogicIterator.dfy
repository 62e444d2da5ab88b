/** The iterator that hands filtered samples to a protocol decoder, one byte per decoder probe. */
module LogicIterator {
  import opened Bits
  import opened Bytes
  import opened Options
  import opened ProbeFilter

  const UNUSED := -1
  const UNUSED_LEVEL: Byte := 42

  /** What the decoder gets: the sample number, and for each of its probes 0 or 1, or 42 if it is unused. */
  datatype Sample = Sample(number: nat, levels: seq<Byte>)

  function Level(word: nat, mapped: int): Byte
    requires UNUSED <= mapped
  {
    if mapped == UNUSED then UNUSED_LEVEL else if Bit(word, mapped) then 1 else 0
  }

  class Logic {
    const unitsize: nat
    const probemap: seq<int>
    const startSamplenum: nat
    const inbuf: seq<Byte>
    var itercnt: nat

    /** A sample holds the mapped bits, and `1 << bit`, a C int, can be computed for them. */
    ghost predicate Valid()
      reads this
    {
      && 1 <= unitsize <= 8
      && forall i :: 0 <= i < |probemap| ==> UNUSED <= probemap[i] <= 30 && probemap[i] < 8 * unitsize
    }

    constructor (unitsize: nat, probemap: seq<int>, start: nat, inbuf: seq<Byte>)
      requires 1 <= unitsize <= 8
      requires forall i :: 0 <= i < |probemap| ==> UNUSED <= probemap[i] <= 30 && probemap[i] < 8 * unitsize
      ensures Valid() && itercnt == 0 && this.unitsize == unitsize && this.probemap == probemap
      ensures startSamplenum == start && this.inbuf == inbuf
    {
      this.unitsize, this.probemap, startSamplenum, this.inbuf, itercnt := unitsize, probemap, start, inbuf, 0;
    }

    /** The next sample, or nothing at the end of the buffer. */
    method IterNext() returns (sample: Option<Sample>)
      requires Valid()
      modifies this`itercnt
      ensures Valid()
      ensures old(itercnt) >= NumUnits(|inbuf|, unitsize) ==> sample == None && itercnt == old(itercnt)
      ensures old(itercnt) < NumUnits(|inbuf|, unitsize) ==>
                && itercnt == old(itercnt) + 1
                && old(itercnt) * unitsize + unitsize <= |inbuf|
                && sample.Some? && sample.value.number == startSamplenum + old(itercnt)
                && Shows(probemap, Unit(inbuf, unitsize, old(itercnt)), sample.value.levels)
    {
      if itercnt >= |inbuf| / unitsize {
        return None;
      }
      UnitFits(|inbuf|, unitsize, itercnt);
      var onStack: nat := *;
      var unit := inbuf[itercnt * unitsize..itercnt * unitsize + unitsize];
      var word := Overlay(onStack, unit);
      var probeSamples := new Byte[|probemap|](_ => UNUSED_LEVEL);
      var i := 0;
      while i < |probemap|
        invariant i <= |probemap| && itercnt == old(itercnt)
        invariant forall k :: 0 <= k < i ==> probeSamples[k] == Level(Word(unit), probemap[k])
        invariant forall k :: i <= k < |probemap| ==> probeSamples[k] == UNUSED_LEVEL
      {
        if probemap[i] != UNUSED {
          BitOfOverlay(onStack, unit, probemap[i]);
          probeSamples[i] := if Bit(word, probemap[i]) then 1 else 0;
        }
        i := i + 1;
      }
      var levels := probeSamples[..];
      assert forall k :: 0 <= k < |probemap| ==> levels[k] == probeSamples[k];
      assert Shows(probemap, unit, levels);
      sample := Some(Sample(startSamplenum + itercnt, levels));
      itercnt := itercnt + 1;
    }
  }

  ghost predicate Shows(probemap: seq<int>, unit: seq<Byte>, levels: seq<Byte>) {
    |levels| == |probemap| &&
    forall i :: 0 <= i < |probemap| ==> UNUSED <= probemap[i] && levels[i] == Level(Word(unit), probemap[i])
  }

  /** What iterating over `inbuf` yields: each of its units once, with consecutive numbers. */
  ghost predicate Iterated(inbuf: seq<Byte>, u: nat, probemap: seq<int>, start: nat, samples: seq<Sample>)
    requires u > 0
  {
    && |samples| == NumUnits(|inbuf|, u)
    && forall n :: 0 <= n < |samples| ==> ShowsUnit(inbuf, u, probemap, start, n, samples[n])
  }

  ghost predicate ShowsUnit(inbuf: seq<Byte>, u: nat, probemap: seq<int>, start: nat, n: nat, sample: Sample) {
    && sample.number == start + n
    && n * u + u <= |inbuf|
    && Shows(probemap, Unit(inbuf, u, n), sample.levels)
  }

  /** A decoder that takes samples until there are no more. */
  method TakeAll(logic: Logic) returns (samples: seq<Sample>)
    requires logic.Valid() && logic.itercnt == 0
    modifies logic`itercnt
    ensures logic.Valid()
    ensures Iterated(logic.inbuf, logic.unitsize, logic.probemap, logic.startSamplenum, samples)
  {
    samples := [];
    while true
      invariant logic.Valid() && |samples| == logic.itercnt <= NumUnits(|logic.inbuf|, logic.unitsize)
      invariant forall n :: 0 <= n < |samples| ==>
                  ShowsUnit(logic.inbuf, logic.unitsize, logic.probemap, logic.startSamplenum, n, samples[n])
      decreases NumUnits(|logic.inbuf|, logic.unitsize) - logic.itercnt
    {
      var sample := logic.IterNext();
      if sample == None {
        return;
      }
      samples := samples + [sample.value];
    }
  }

  /** The level of a hardware probe, in the bytes the hardware delivered. */
  function ProbeLevel(data: seq<Byte>, u: nat, n: nat, probe: nat): Byte
    requires n * u + u <= |data| && 1 <= probe <= 8 * u
  {
    if Bit(data[n * u + (probe - 1) / 8], (probe - 1) % 8) then 1 else 0
  }

  lemma LevelInWord(data: seq<Byte>, u: nat, n: nat, probe: nat)
    requires n * u + u <= |data| && 1 <= probe <= 8 * u
    ensures ProbeLevel(data, u, n, probe) == if Bit(Word(Unit(data, u, n)), probe - 1) then 1 else 0
  {
    BitOfWord(Unit(data, u, n), probe - 1);
  }

  /** For every sample the hardware delivered, and in its order, each decoder probe has the level of the
      hardware probe it stands for: decoder probe `i` is mapped to a place in the list of enabled probes,
      and gets the level of the probe listed there; an unused one gets 42. */
  ghost predicate ShowsProbes(probelist: seq<nat>, data: seq<Byte>, u: nat,
                              probemap: seq<int>, start: nat, samples: seq<Sample>)
    requires u > 0 && InRange(probelist, u)
    requires forall i :: 0 <= i < |probemap| ==> UNUSED <= probemap[i] < |probelist|
  {
    && |samples| == NumUnits(|data|, u)
    && (forall n :: 0 <= n < |samples| ==>
          samples[n].number == start + n && |samples[n].levels| == |probemap| && n * u + u <= |data|)
    && (forall n, i :: 0 <= n < |samples| && 0 <= i < |probemap| ==>
          samples[n].levels[i] ==
          if probemap[i] == UNUSED then 42 else ProbeLevel(data, u, n, probelist[probemap[i]]))
  }

  /** Iterating over a projection shows the probes that were projected. */
  lemma FilterThenIterate(probelist: seq<nat>, data: seq<Byte>, u: nat, output: seq<Byte>, v: nat,
                          probemap: seq<int>, start: nat, samples: seq<Sample>)
    requires u > 0 && v > 0 && InRange(probelist, u) && |probelist| <= 8 * v
    requires NumUnits(|output|, v) == NumUnits(|data|, u)
    requires ProjectsAll(probelist, data, u, output, v, NumUnits(|data|, u))
    requires forall i :: 0 <= i < |probemap| ==> UNUSED <= probemap[i] < |probelist|
    requires Iterated(output, v, probemap, start, samples)
    ensures ShowsProbes(probelist, data, u, probemap, start, samples)
  {
    forall n, i | 0 <= n < |samples| && 0 <= i < |probemap|
      ensures n * u + u <= |data|
      ensures |samples[n].levels| == |probemap|
      ensures samples[n].levels[i] ==
              if probemap[i] == UNUSED then UNUSED_LEVEL else ProbeLevel(data, u, n, probelist[probemap[i]])
    {
      UnitFits(|data|, u, n);
      assert ShowsUnit(output, v, probemap, start, n, samples[n]);
      LevelOfProjection(probelist, Unit(data, u, n), Unit(output, v, n), probemap[i]);
      if probemap[i] != UNUSED {
        LevelInWord(data, u, n, probelist[probemap[i]]);
      }
    }
  }

  /** Samples on their way to a decoder: filtered, by either path, and handed out one by one. The list of
      all probes is the identity if it is increasing. */
  method FilterAndIterate(inUnitsize: nat, outUnitsize: nat, probelist: seq<nat>, dataIn: seq<Byte>,
                          probemap: seq<int>, start: nat)
    returns (ok: bool, samples: seq<Sample>)
    requires 1 <= outUnitsize <= inUnitsize <= 8 && inUnitsize <= |dataIn|
    requires InRange(probelist, inUnitsize) && (Shiftable(probelist) || |probelist| == 8 * inUnitsize)
    requires Increasing(probelist) || |probelist| != 8 * inUnitsize
    requires forall i :: 0 <= i < |probemap| ==> UNUSED <= probemap[i] < |probelist| && probemap[i] <= 30
    ensures ok <==> |probelist| <= 8 * outUnitsize
    ensures ok ==> ShowsProbes(probelist, dataIn, inUnitsize, probemap, start, samples)
    ensures !ok ==> samples == []
  {
    samples := [];
    var output, length;
    ok, output, length := FilterProbes(inUnitsize, outUnitsize, probelist, dataIn);
    if ok {
      if |probelist| == 8 * inUnitsize {
        AllProbesInOrder(probelist, inUnitsize);
      }
      var logic := new Logic(outUnitsize, probemap, start, output[..length]);
      samples := TakeAll(logic);
      FilterThenIterate(probelist, dataIn, inUnitsize, output[..length], outUnitsize, probemap, start, samples);
    }
  }

  lemma LevelOfProjection(probelist: seq<nat>, input: seq<Byte>, output: seq<Byte>, mapped: int)
    requires InRange(probelist, |input|) && |probelist| <= 8 * |output|
    requires Projects(probelist, input, output) && UNUSED <= mapped < |probelist|
    ensures Level(Word(output), mapped) ==
            if mapped == UNUSED then UNUSED_LEVEL else if Bit(Word(input), probelist[mapped] - 1) then 1 else 0
  {
  }
}
