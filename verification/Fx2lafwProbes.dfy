/** The trigger configuration of the fx2lafw driver: each enabled probe contributes one character per
stage. What the stages then match is stated probe by probe. */
module Fx2lafwProbes {
  import opened Bits
  import opened Probes
  import opened TriggerScan

  const NUM_TRIGGER_STAGES := 4

  predicate HasTrigger(probe: Probe) {
    probe.enabled && probe.trigger.Some?
  }

  /** The probe takes part in stage `k`. */
  predicate InStage(probe: Probe, k: nat) {
    HasTrigger(probe) && k < |probe.trigger.value|
  }

  predicate HighInStage(probe: Probe, k: nat) {
    InStage(probe, k) && probe.trigger.value[k] == '1'
  }

  /** The bits of the probes of stage `k`. */
  function MaskAt(probes: seq<Probe>, k: nat): nat
    requires Wired(probes)
  {
    if probes == [] then 0
    else
      var rest, last := MaskAt(probes[..|probes| - 1], k), probes[|probes| - 1];
      if InStage(last, k) then SetBit(rest, last.index - 1) else rest
  }

  /** The bits of those among them that shall be high. */
  function ValueAt(probes: seq<Probe>, k: nat): nat
    requires Wired(probes)
  {
    if probes == [] then 0
    else
      var rest, last := ValueAt(probes[..|probes| - 1], k), probes[|probes| - 1];
      if HighInStage(last, k) then SetBit(rest, last.index - 1) else rest
  }

  lemma {:induction false} StageIsWord16(probes: seq<Probe>, k: nat)
    requires Wired(probes)
    ensures MaskAt(probes, k) < 0x10000 && ValueAt(probes, k) < 0x10000
  {
    Pow2Of16();
    if probes != [] {
      var init, last := probes[..|probes| - 1], probes[|probes| - 1];
      StageIsWord16(init, k);
      SetBitBelow(MaskAt(init, k), last.index - 1, 16);
      SetBitBelow(ValueAt(init, k), last.index - 1, 16);
    }
  }

  ghost predicate SomeInStage(probes: seq<Probe>, k: nat, i: nat) {
    exists n :: 0 <= n < |probes| && InStage(probes[n], k) && probes[n].index == i + 1
  }

  ghost predicate SomeHighInStage(probes: seq<Probe>, k: nat, i: nat) {
    exists n :: 0 <= n < |probes| && HighInStage(probes[n], k) && probes[n].index == i + 1
  }

  lemma {:induction false} StageBits(probes: seq<Probe>, k: nat, i: nat)
    requires Wired(probes)
    ensures Bit(MaskAt(probes, k), i) <==> SomeInStage(probes, k, i)
    ensures Bit(ValueAt(probes, k), i) <==> SomeHighInStage(probes, k, i)
  {
    ZeroHasNoBits(i);
    if probes != [] {
      var init, last := probes[..|probes| - 1], probes[|probes| - 1];
      StageBits(init, k, i);
      BitOfSetBit(MaskAt(init, k), last.index - 1, i);
      BitOfSetBit(ValueAt(init, k), last.index - 1, i);
      SomeOfLast(probes, k, i);
    }
  }

  lemma SomeOfLast(probes: seq<Probe>, k: nat, i: nat)
    requires probes != []
    ensures var init, last := probes[..|probes| - 1], probes[|probes| - 1];
            && (SomeInStage(probes, k, i) <==> SomeInStage(init, k, i) || (InStage(last, k) && last.index == i + 1))
            && (SomeHighInStage(probes, k, i) <==> SomeHighInStage(init, k, i) || (HighInStage(last, k) && last.index == i + 1))
  {
    var init := probes[..|probes| - 1];
    assert forall n :: 0 <= n < |init| ==> init[n] == probes[n];
  }

  /** The sample has the level that character `k` of each enabled probe's trigger asks for, if there is one. */
  ghost predicate LevelsMatch(probes: seq<Probe>, k: nat, sample: Word16)
    requires Wired(probes)
  {
    forall n :: 0 <= n < |probes| && probes[n].enabled && probes[n].trigger.Some? && k < |probes[n].trigger.value| ==>
      (Bit(sample, probes[n].index - 1) <==> probes[n].trigger.value[k] == '1')
  }

  function StageAt(probes: seq<Probe>, k: nat): Stage
    requires Wired(probes)
  {
    StageIsWord16(probes, k);
    Stage(MaskAt(probes, k), ValueAt(probes, k))
  }

  /** Each stage asks for a value inside its mask, whatever the probes are. */
  lemma StageIsWellFormed(probes: seq<Probe>, k: nat)
    requires Wired(probes)
    ensures Hits(StageAt(probes, k), StageAt(probes, k).value)
  {
    var mask, value := MaskAt(probes, k), ValueAt(probes, k);
    forall i: nat ensures Bit(And(value, mask), i) <==> Bit(value, i) {
      BitOfAnd(value, mask, i);
      StageBits(probes, k, i);
    }
    SameBits(And(value, mask), value);
  }

  /** A sample meets the configured stage exactly if every probe that takes part in the stage has the
      level its trigger asks for. */
  lemma StageMeansLevels(probes: seq<Probe>, k: nat, sample: Word16)
    requires Wired(probes) && DistinctIndices(probes)
    ensures Hits(StageAt(probes, k), sample) <==> LevelsMatch(probes, k, sample)
  {
    var mask, value := MaskAt(probes, k), ValueAt(probes, k);
    StageIsWellFormed(probes, k);
    AgreeUnderMask(sample, value, mask);
    if AgreeWhere(mask, sample, value) {
      forall n | 0 <= n < |probes| && InStage(probes[n], k)
        ensures Bit(sample, probes[n].index - 1) <==> HighInStage(probes[n], k)
      {
        StageBits(probes, k, probes[n].index - 1);
      }
    }
    if LevelsMatch(probes, k, sample) {
      forall i: nat | Bit(mask, i) ensures Bit(sample, i) <==> Bit(value, i) {
        StageBits(probes, k, i);
      }
    }
  }

  predicate TriggersFit(probes: seq<Probe>) {
    forall n :: 0 <= n < |probes| && probes[n].enabled && probes[n].trigger.Some? ==>
      |probes[n].trigger.value| <= NUM_TRIGGER_STAGES
  }

  predicate AnyTrigger(probes: seq<Probe>) {
    exists n :: 0 <= n < |probes| && probes[n].enabled && probes[n].trigger.Some?
  }

  predicate UsesHighProbe(probes: seq<Probe>) {
    exists n :: 0 <= n < |probes| && probes[n].enabled && probes[n].index > 8
  }

  /** A byte holds the samples of all enabled probes if and only if none of the higher probes is used. */
  lemma ByteHoldsAllIff(probes: seq<Probe>)
    requires Wired(probes)
    ensures UsesHighProbe(probes) <==>
            exists n :: 0 <= n < |probes| && probes[n].enabled && Pow2(probes[n].index - 1) >= 0x100
  {
    Pow2Of16();
    forall n | 0 <= n < |probes| ensures Pow2(probes[n].index - 1) >= 0x100 <==> probes[n].index > 8 {
      if probes[n].index - 1 < 8 {
        Pow2Grows(probes[n].index - 1, 8);
      } else if 8 < probes[n].index - 1 {
        Pow2Grows(8, probes[n].index - 1);
      }
    }
  }

  /** The four stages hold what `probes` ask for. */
  ghost predicate Configured(masks: seq<Word16>, values: seq<Word16>, probes: seq<Probe>)
    requires Wired(probes)
  {
    && |masks| == |values| == NUM_TRIGGER_STAGES
    && forall k :: 0 <= k < NUM_TRIGGER_STAGES ==> masks[k] == MaskAt(probes, k) && values[k] == ValueAt(probes, k)
  }

  /** The stages while the characters of `probe` are being read: the first `i` are done. */
  ghost predicate Configuring(masks: seq<Word16>, values: seq<Word16>, before: seq<Probe>, probe: Probe, i: nat)
    requires Wired(before + [probe])
  {
    && |masks| == |values| == NUM_TRIGGER_STAGES
    && forall k :: 0 <= k < NUM_TRIGGER_STAGES ==>
         && masks[k] == (if k < i then MaskAt(before + [probe], k) else MaskAt(WiredPrefix(before, probe), k))
         && values[k] == (if k < i then ValueAt(before + [probe], k) else ValueAt(WiredPrefix(before, probe), k))
  }

  function WiredPrefix(before: seq<Probe>, probe: Probe): (r: seq<Probe>)
    requires Wired(before + [probe])
    ensures r == before && Wired(r)
  {
    assert forall i :: 0 <= i < |before| ==> (before + [probe])[i] == before[i];
    before
  }

  lemma AddCharacter(before: seq<Probe>, probe: Probe, k: nat)
    requires Wired(before + [probe]) && HasTrigger(probe) && 1 <= probe.index
    ensures var rest := WiredPrefix(before, probe);
            && MaskAt(before + [probe], k) ==
               (if k < |probe.trigger.value| then SetBit(MaskAt(rest, k), probe.index - 1) else MaskAt(rest, k))
            && ValueAt(before + [probe], k) ==
               (if k < |probe.trigger.value| && probe.trigger.value[k] == '1'
                then SetBit(ValueAt(rest, k), probe.index - 1) else ValueAt(rest, k))
  {
    assert (before + [probe])[..|before|] == before;
  }

  lemma NotTriggering(before: seq<Probe>, probe: Probe, k: nat)
    requires Wired(before + [probe]) && !HasTrigger(probe)
    ensures MaskAt(before + [probe], k) == MaskAt(WiredPrefix(before, probe), k)
    ensures ValueAt(before + [probe], k) == ValueAt(WiredPrefix(before, probe), k)
  {
    assert (before + [probe])[..|before|] == before;
  }
}
