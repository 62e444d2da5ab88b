/** The fx2lafw driver: the callbacks and entry points, updating the device context in place.
Each is proved to take the step that `Fx2lafwModel` gives for it. */
module Fx2lafw {
  import opened Bits
  import opened Options
  import opened Probes
  import opened TriggerExact
  import opened SessionFeed
  import opened TriggerScan
  import opened Fx2lafwModel
  import opened Fx2lafwProbes

  /** The number of stages the matcher goes through: it stops at the first one, after stage 0, with an empty mask. */
  function Depth(masks: seq<Word16>, k: nat): (depth: nat)
    requires |masks| == NUM_TRIGGER_STAGES && 1 <= k <= NUM_TRIGGER_STAGES
    ensures k <= depth <= NUM_TRIGGER_STAGES
    ensures forall i :: k <= i < depth ==> masks[i] != 0
    ensures depth < NUM_TRIGGER_STAGES ==> masks[depth] == 0
    decreases NUM_TRIGGER_STAGES - k
  {
    if k == NUM_TRIGGER_STAGES || masks[k] == 0 then k else Depth(masks, k + 1)
  }

  function PatternOf(masks: seq<Word16>, values: seq<Word16>): (pattern: seq<Stage>)
    requires |masks| == |values| == NUM_TRIGGER_STAGES
    ensures |pattern| == Depth(masks, 1)
    ensures forall k :: 0 <= k < |pattern| ==> pattern[k] == Stage(masks[k], values[k])
  {
    seq(Depth(masks, 1), k requires 0 <= k < Depth(masks, 1) => Stage(masks[k], values[k]))
  }

  class Device {
    var triggerMask: seq<Word16>
    var triggerValue: seq<Word16>
    const triggerBuffer: array<Word16>
    var sampleWide: bool
    var limitSamples: nat
    var triggerStage: int
    var numSamples: int
    var emptyTransferCount: nat
    var submittedTransfers: int
    var numTransfers: nat
    var transfers: array<Option<nat>>
    var cancelRequests: set<nat>
    var bus: seq<SamplePacket>

    ghost predicate Laid()
      reads this
    {
      |triggerMask| == |triggerValue| == triggerBuffer.Length == NUM_TRIGGER_STAGES
    }

    ghost function Pattern(): seq<Stage>
      requires Laid()
      reads this
    {
      PatternOf(triggerMask, triggerValue)
    }

    ghost predicate Valid()
      reads this, triggerBuffer
    {
      && Laid()
      && transfers as object != triggerBuffer
      && numTransfers <= transfers.Length
      && TRIGGER_FIRED <= triggerStage < |Pattern()|
      && forall j :: 0 <= j < triggerStage ==> Hits(Pattern()[j], triggerBuffer[j])
    }

    /** The driver is always ready for a start. */
    lemma AlwaysReady()
      requires Valid()
      ensures Ready(TheSetup(), Model())
    {
    }

    ghost function TheSetup(): Setup
      requires Valid()
      reads this, triggerBuffer
    {
      Setup(Pattern(), limitSamples)
    }

    ghost function Model(): State
      requires Valid()
      reads this, triggerBuffer, transfers
    {
      State(triggerStage, if triggerStage < 0 then [] else triggerBuffer[..triggerStage],
            numSamples, emptyTransferCount, submittedTransfers, transfers[..numTransfers], cancelRequests, bus)
    }

    /** Set up the trigger stages from the user's probes. It fails if a trigger has more characters than
        there are stages (the write to the stage after the last one is not modelled). */
    method ConfigureProbes(probes: seq<Probe>) returns (ok: bool)
      requires Laid() && Wired(probes)
      modifies this`triggerMask, this`triggerValue, this`triggerStage, this`sampleWide
      ensures Laid()
      ensures ok <==> TriggersFit(probes)
      ensures ok ==> forall k :: 0 <= k < NUM_TRIGGER_STAGES ==>
                Stage(triggerMask[k], triggerValue[k]) == StageAt(probes, k)
      ensures ok ==> triggerStage == if AnyTrigger(probes) then 0 else TRIGGER_FIRED
      ensures ok ==> (sampleWide <==> old(sampleWide) || UsesHighProbe(probes))
    {
      triggerMask, triggerValue := [0, 0, 0, 0], [0, 0, 0, 0];
      var stage := -1;
      var n := 0;
      while n < |probes|
        invariant n <= |probes| && Laid()
        invariant Configured(triggerMask, triggerValue, probes[..n])
        invariant TriggersFit(probes[..n])
        invariant -1 <= stage && (stage == -1 <==> !AnyTrigger(probes[..n]))
        invariant sampleWide <==> old(sampleWide) || UsesHighProbe(probes[..n])
      {
        var probe := probes[n];
        assert probes[..n + 1] == probes[..n] + [probe];
        if probe.enabled {
          if probe.index > 8 {
            sampleWide := true;
          }
          if probe.trigger.Some? {
            stage := ConfigureStages(probes[..n], probe);
            if stage > NUM_TRIGGER_STAGES {
              assert HasTrigger(probes[n]);
              return false;
            }
          }
        }
        if !HasTrigger(probe) {
          forall k | 0 <= k < NUM_TRIGGER_STAGES
            ensures MaskAt(probes[..n + 1], k) == MaskAt(probes[..n], k) && ValueAt(probes[..n + 1], k) == ValueAt(probes[..n], k)
          {
            NotTriggering(probes[..n], probe, k);
          }
        }
        n := n + 1;
      }
      assert probes[..n] == probes;
      triggerStage := if stage == -1 then TRIGGER_FIRED else 0;
      return true;
    }

    /** The loop over the characters of one trigger. */
    method ConfigureStages(ghost before: seq<Probe>, probe: Probe) returns (stage: nat)
      requires Laid() && Wired(before + [probe]) && HasTrigger(probe) && 1 <= probe.index <= 16
      requires Configured(triggerMask, triggerValue, WiredPrefix(before, probe))
      modifies this`triggerMask, this`triggerValue
      ensures Laid()
      ensures stage > NUM_TRIGGER_STAGES <==> |probe.trigger.value| > NUM_TRIGGER_STAGES
      ensures stage <= NUM_TRIGGER_STAGES ==> Configured(triggerMask, triggerValue, before + [probe])
    {
      var trigger, bit := probe.trigger.value, probe.index - 1;
      stage := 0;
      while stage < |trigger|
        invariant stage <= NUM_TRIGGER_STAGES && stage <= |trigger| && Laid()
        invariant Configuring(triggerMask, triggerValue, before, probe, stage)
      {
        if stage == NUM_TRIGGER_STAGES {
          return stage + 1;
        }
        AddCharacter(before, probe, stage);
        StageIsWord16(before + [probe], stage);
        triggerMask := triggerMask[stage := SetBit(triggerMask[stage], bit)];
        if trigger[stage] == '1' {
          triggerValue := triggerValue[stage := SetBit(triggerValue[stage], bit)];
        }
        stage := stage + 1;
      }
      forall k | 0 <= k < NUM_TRIGGER_STAGES
        ensures triggerMask[k] == MaskAt(before + [probe], k) && triggerValue[k] == ValueAt(before + [probe], k)
      {
        AddCharacter(before, probe, k);
      }
    }

    method AbortAcquisition()
      requires Valid()
      modifies this`numSamples, this`cancelRequests
      ensures Valid() && Model() == Abort(old(Model()))
    {
      numSamples := ABORTED;
      ghost var slots := transfers[..numTransfers];
      var i := numTransfers - 1;
      while 0 <= i
        invariant -1 <= i < numTransfers && numSamples == ABORTED
        invariant AreCancelled(slots, i + 1, old(cancelRequests), cancelRequests)
      {
        if transfers[i].Some? {
          cancelRequests := cancelRequests + {transfers[i].value};
        }
        i := i - 1;
      }
      AllCancelled(slots, old(cancelRequests), cancelRequests);
    }

    method FinishAcquisition(stopInEnd: bool)
      requires Valid()
      modifies this`numSamples, this`cancelRequests, this`bus, this`numTransfers
      ensures Valid() && Model() == Finish(old(Model()), stopInEnd)
    {
      bus := bus + [End];
      if stopInEnd {
        AbortAcquisition();
      }
      numTransfers := 0;
    }

    method ForgetSlot(id: nat)
      requires numTransfers <= transfers.Length
      modifies transfers
      ensures transfers[..numTransfers] == ClearSlot(old(transfers[..numTransfers]), id)
    {
      ghost var slots := transfers[..numTransfers];
      var i := 0;
      while i < numTransfers
        invariant i <= numTransfers && transfers[..numTransfers] == slots
        invariant forall j :: 0 <= j < i ==> slots[j] != Some(id)
      {
        if transfers[i] == Some(id) {
          ClearSlotAt(slots, id, i);
          transfers[i] := None;
          assert transfers[..numTransfers] == slots[i := None];
          return;
        }
        i := i + 1;
      }
      ClearSlotAbsent(slots, id);
    }

    method FreeTransfer(id: nat, stopInEnd: bool)
      requires Valid()
      modifies this`numSamples, this`cancelRequests, this`bus, this`numTransfers, this`submittedTransfers, transfers
      ensures Valid() && Model() == Free(old(Model()), id, stopInEnd)
    {
      ForgetSlot(id);
      submittedTransfers := submittedTransfers - 1;
      if submittedTransfers == 0 {
        FinishAcquisition(stopInEnd);
      }
    }

    method ResubmitTransfer(id: nat, ok: bool, stopInEnd: bool)
      requires Valid()
      modifies this`numSamples, this`cancelRequests, this`bus, this`numTransfers, this`submittedTransfers, transfers
      ensures Valid() && Model() == Resubmit(old(Model()), id, ok, stopInEnd)
    {
      if !ok {
        FreeTransfer(id, stopInEnd);
      }
    }

    /** Match on the current trigger stage. */
    method TakeSample(sample: Word16)
      requires 0 <= triggerStage < triggerBuffer.Length
      modifies this`triggerStage, triggerBuffer
      ensures triggerStage == old(triggerStage) + 1
      ensures triggerBuffer[..triggerStage] == old(triggerBuffer[..triggerStage]) + [sample]
    {
      triggerBuffer[triggerStage] := sample;
      triggerStage := triggerStage + 1;
    }

    /** The trigger search: on a mismatch the scan goes back to the sample after the one the failed
        match began with, but never to before this buffer. */
    method MatchTrigger(samples: seq<Word16>) returns (fired: bool, offset: nat)
      requires Laid() && 0 <= triggerStage < |Pattern()|
      modifies this`triggerStage, triggerBuffer
      ensures match ScanAt(Pattern(), samples, 0, old(triggerBuffer[..triggerStage]))
              case Waiting(carry) =>
                !fired && offset == 0 && 0 <= triggerStage < |Pattern()| && triggerBuffer[..triggerStage] == carry
              case Fired(window, rest) =>
                && fired && 0 <= triggerStage <= NUM_TRIGGER_STAGES && triggerBuffer[..triggerStage] == window
                && offset <= |samples| && samples[offset..] == rest
    {
      ghost var pattern, matched := Pattern(), triggerBuffer[..triggerStage];
      ghost var result := ScanAt(pattern, samples, 0, matched);
      var i := 0;
      while i < |samples|
        invariant 0 <= i <= |samples| && 0 <= triggerStage < |pattern|
        invariant matched == triggerBuffer[..triggerStage]
        invariant ScanAt(pattern, samples, i, matched) == result
        decreases |samples| - i + triggerStage, |pattern| - triggerStage
      {
        var sample := samples[i];
        if Hits(Stage(triggerMask[triggerStage], triggerValue[triggerStage]), sample) {
          LastStage(triggerMask, triggerStage + 1);
          TakeSample(sample);
          matched := matched + [sample];
          if triggerStage == NUM_TRIGGER_STAGES || triggerMask[triggerStage] == 0 {
            return true, i + 1;
          }
        } else {
          if triggerStage > 0 {
            i := i - triggerStage;
            if i < -1 {
              i := -1;
            }
            triggerStage := 0;
          }
          matched := [];
        }
        i := i + 1;
      }
      return false, 0;
    }

    /** Run the matcher over a transfer; on a match, `packets` announces the trigger and passes on the
        samples that triggered it and those that follow. */
    method SearchTrigger(samples: seq<Word16>) returns (packets: seq<SamplePacket>)
      requires Valid() && 0 <= triggerStage
      modifies this`triggerStage, triggerBuffer
      ensures Valid() && (Model(), packets) == Search(old(TheSetup()), old(Model()), samples)
    {
      ghost var pattern, window := Pattern(), triggerBuffer[..triggerStage];
      assert ScanAt(pattern, samples, 0, window) == Scan(pattern, window, samples) by {
        ScanAtIsScan(pattern, window, samples);
      }
      var fired, offset := MatchTrigger(samples);
      packets := [];
      if fired {
        packets := [Trigger, Logic(triggerBuffer[..triggerStage]), Logic(samples[offset..])];
        triggerStage := TRIGGER_FIRED;
      }
    }

    /** The part of receive_transfer that handles the samples of a good transfer. */
    method AcceptSamples(samples: seq<Word16>, stopInData: bool)
      requires Valid()
      modifies this`triggerStage, this`numSamples, this`cancelRequests, this`bus, triggerBuffer
      ensures Valid() && Model() == Accept(old(TheSetup()), old(Model()), samples, stopInData)
    {
      var packets := [Logic(samples)];
      if triggerStage >= 0 {
        packets := SearchTrigger(samples);
      }
      if triggerStage == TRIGGER_FIRED {
        SendData(packets, stopInData);
        numSamples := numSamples + |samples|;
      }
    }

    method SendData(packets: seq<SamplePacket>, stopInData: bool)
      requires Valid()
      modifies this`numSamples, this`cancelRequests, this`bus
      ensures Valid() && Model() == Send(old(Model()), packets, stopInData)
    {
      bus := bus + packets;
      if stopInData {
        AbortAcquisition();
      }
    }

    /** The part of receive_transfer that handles a transfer without data, or with an error. */
    method EmptyTransfer(id: nat, resubmitOk: bool, stopInEnd: bool)
      requires Valid()
      modifies this`numSamples, this`cancelRequests, this`bus, this`emptyTransferCount
      modifies this`submittedTransfers, this`numTransfers, transfers
      ensures Valid() && Model() == ReceiveNothing(old(Model()), id, resubmitOk, stopInEnd)
    {
      emptyTransferCount := emptyTransferCount + 1;
      if emptyTransferCount > MAX_EMPTY_TRANSFERS {
        AbortAcquisition();
        FreeTransfer(id, stopInEnd);
      } else {
        ResubmitTransfer(id, resubmitOk, stopInEnd);
      }
    }

    /** The part of receive_transfer that handles a transfer with data. */
    method GoodTransfer(id: nat, samples: seq<Word16>, resubmitOk: bool, stopInData: bool, stopInEnd: bool)
      requires Valid()
      modifies this`triggerStage, this`numSamples, this`cancelRequests, this`bus, this`emptyTransferCount
      modifies this`submittedTransfers, this`numTransfers, triggerBuffer, transfers
      ensures Valid() && TheSetup() == old(TheSetup())
      ensures Model() == ReceiveSamples(old(TheSetup()), old(Model()), id, samples, resubmitOk, stopInData, stopInEnd)
    {
      emptyTransferCount := 0;
      AcceptSamples(samples, stopInData);
      ConcludeTransfer(id, resubmitOk, stopInEnd);
    }

    method ConcludeTransfer(id: nat, resubmitOk: bool, stopInEnd: bool)
      requires Valid()
      modifies this`numSamples, this`cancelRequests, this`bus, this`submittedTransfers, this`numTransfers, transfers
      ensures Valid() && TheSetup() == old(TheSetup())
      ensures Model() == Conclude(old(TheSetup()), old(Model()), id, resubmitOk, stopInEnd)
    {
      if triggerStage == TRIGGER_FIRED && limitSamples != 0 && numSamples > limitSamples {
        AbortAcquisition();
        FreeTransfer(id, stopInEnd);
        return;
      }
      ResubmitTransfer(id, resubmitOk, stopInEnd);
    }

    method ReceiveTransfer(id: nat, status: Status, samples: seq<Word16>, resubmitOk: bool, stopInData: bool, stopInEnd: bool)
      requires Valid()
      modifies this`triggerStage, this`numSamples, this`cancelRequests, this`bus, this`emptyTransferCount
      modifies this`submittedTransfers, this`numTransfers, triggerBuffer, transfers
      ensures Valid() && TheSetup() == old(TheSetup())
      ensures Model() == Receive(old(TheSetup()), old(Model()), Completion(id, status, samples, resubmitOk, stopInData, stopInEnd))
    {
      if numSamples == ABORTED {
        FreeTransfer(id, stopInEnd);
        return;
      }
      if status == NoDevice {
        AbortAcquisition();
        FreeTransfer(id, stopInEnd);
        return;
      }
      if samples == [] || status == OtherStatus {
        EmptyTransfer(id, resubmitOk, stopInEnd);
        return;
      }
      GoodTransfer(id, samples, resubmitOk, stopInData, stopInEnd);
    }

    /** The submit loop: it ends at the first transfer libusb refuses. */
    method SubmitTransfers(ids: seq<nat>, submits: seq<bool>) returns (all: bool)
      requires Valid() && |submits| == |ids| == numTransfers == transfers.Length
      requires Model() == Submitted(Model(), ids, 0)
      modifies this`submittedTransfers, transfers
      ensures Valid() && Model() == Submitted(old(Model()), ids, FirstFailure(submits))
      ensures all <==> FirstFailure(submits) == |ids|
    {
      var i := 0;
      while i < |ids|
        invariant i <= |ids| && submittedTransfers == i
        invariant FirstFailure(submits) == i + FirstFailure(submits[i..])
        invariant transfers[..] == SlotsUpTo(ids, i)
      {
        if !submits[i] {
          return false;
        }
        transfers[i] := Some(ids[i]);
        submittedTransfers := submittedTransfers + 1;
        i := i + 1;
        assert transfers[..] == SlotsUpTo(ids, i);
      }
      return true;
    }

    /** Submit the transfers and start the hardware. `ids` are the pointers libusb_alloc_transfer
        returns, `submits` and `startOk` say which libusb calls succeed. The logs are those of this acquisition. */
    method AcquisitionStart(ids: seq<nat>, submits: seq<bool>, startOk: bool) returns (ok: bool)
      requires Valid() && |submits| == |ids|
      modifies this`numSamples, this`cancelRequests, this`bus, this`emptyTransferCount
      modifies this`submittedTransfers, this`numTransfers, this`transfers
      ensures Valid() && TheSetup() == old(TheSetup())
      ensures old(submittedTransfers) != 0 ==> !ok && Model() == old(Model())
      ensures old(submittedTransfers) == 0 ==> (Model(), ok) == StartOutcome(old(Model()), ids, submits, startOk)
    {
      if submittedTransfers != 0 {
        return false;
      }
      ClearCounters(ids);
      ok := SubmitTransfers(ids, submits);
      if ok {
        bus := [Header, MetaLogic];
        ok := startOk;
      }
      if !ok {
        AbortAcquisition();
      }
    }

    method ClearCounters(ids: seq<nat>)
      requires Valid() && submittedTransfers == 0
      modifies this`numSamples, this`cancelRequests, this`bus, this`emptyTransferCount, this`numTransfers, this`transfers
      ensures Valid() && fresh(transfers) && |ids| == numTransfers == transfers.Length
      ensures Model() == Submitted(old(Model()), ids, 0)
    {
      numSamples, emptyTransferCount, cancelRequests, bus := 0, 0, {}, [];
      transfers := new Option<nat>[|ids|](_ => None);
      numTransfers := |ids|;
      assert transfers[..numTransfers] == SlotsUpTo(ids, 0);
    }

    method AcquisitionStop()
      requires Valid()
      modifies this`numSamples, this`cancelRequests
      ensures Valid() && Model() == Step(TheSetup(), old(Model()), Stop)
    {
      AbortAcquisition();
    }
  }

  /** The test for the last stage: all stages up to the depth of the pattern have been matched. */
  lemma LastStage(masks: seq<Word16>, k: nat)
    requires |masks| == NUM_TRIGGER_STAGES && 1 <= k <= Depth(masks, 1)
    ensures k == NUM_TRIGGER_STAGES || masks[k] == 0 <==> k == Depth(masks, 1)
  {
  }

  /** Where the match, or the partial match at the end, will start, relative to `samples`, when the scan
      is about to look at sample `i` with `matched` accepted by the first stages. */
  ghost function StartAt(pattern: seq<Stage>, samples: seq<Word16>, i: nat, matched: seq<Word16>): int
    requires i <= |samples| && |matched| < |pattern|
    decreases |samples| - i + |matched|, |pattern| - |matched|
  {
    if i == |samples| then i - |matched|
    else if !Hits(pattern[|matched|], samples[i]) then
      StartAt(pattern, samples, if i < |matched| then 0 else i - |matched| + 1, [])
    else if |matched| + 1 == |pattern| then i - |matched|
    else StartAt(pattern, samples, i + 1, matched + [samples[i]])
  }

  /** The samples matched so far are the ones just read, counting those carried in. */
  ghost predicate StandsAt(pattern: seq<Stage>, carry: seq<Word16>, samples: seq<Word16>, i: nat, matched: seq<Word16>) {
    var x, w := carry + samples, |carry| + i - |matched|;
    && i <= |samples| && 0 <= w && IsStart(0, |carry|, w) && |matched| <= |pattern|
    && forall j :: 0 <= j < |matched| ==> matched[j] == x[w + j] && Hits(pattern[j], matched[j])
  }

  /** The backtracking loop finds the first viable window. */
  lemma {:induction false} StartAtIsFirst(pattern: seq<Stage>, carry: seq<Word16>, samples: seq<Word16>, i: nat, matched: seq<Word16>)
    requires |matched| < |pattern| && StandsAt(pattern, carry, samples, i, matched)
    ensures |carry| + StartAt(pattern, samples, i, matched) ==
            FirstStart(pattern, carry + samples, 0, |carry|, |carry| + i - |matched|)
    decreases |samples| - i + |matched|, |pattern| - |matched|
  {
    StandingMeans(pattern, carry, samples, i, matched);
    if i < |samples| {
      if !Hits(pattern[|matched|], samples[i]) {
        StartAtIsFirst(pattern, carry, samples, if i < |matched| then 0 else i - |matched| + 1, []);
      } else if |matched| + 1 < |pattern| {
        StartAtIsFirst(pattern, carry, samples, i + 1, matched + [samples[i]]);
      }
    }
  }

  /** Where the loop stands, the window is viable as far as it has been looked at; the next sample decides. */
  lemma StandingMeans(pattern: seq<Stage>, carry: seq<Word16>, samples: seq<Word16>, i: nat, matched: seq<Word16>)
    requires |matched| < |pattern| && StandsAt(pattern, carry, samples, i, matched)
    ensures var w := |carry| + i - |matched|;
            if i == |samples| then Viable(pattern, carry + samples, w)
            else if !Hits(pattern[|matched|], samples[i]) then
              !Viable(pattern, carry + samples, w)
              && StandsAt(pattern, carry, samples, if i < |matched| then 0 else i - |matched| + 1, [])
            else if |matched| + 1 == |pattern| then Viable(pattern, carry + samples, w)
            else StandsAt(pattern, carry, samples, i + 1, matched + [samples[i]])
  {
    var x, w := carry + samples, |carry| + i - |matched|;
    if i < |samples| {
      assert x[w + |matched|] == samples[i];
    }
  }

  /** The scan about to look at sample `i`, with `matched` accepted by the first stages. */
  ghost function ScanAt(pattern: seq<Stage>, samples: seq<Word16>, i: nat, matched: seq<Word16>): ScanResult
    requires i <= |samples| && |matched| < |pattern|
    decreases |samples| - i + |matched|, |pattern| - |matched|
  {
    if i == |samples| then Waiting(matched)
    else if !Hits(pattern[|matched|], samples[i]) then
      ScanAt(pattern, samples, if i < |matched| then 0 else i - |matched| + 1, [])
    else if |matched| + 1 == |pattern| then Fired(matched + [samples[i]], samples[i + 1..])
    else ScanAt(pattern, samples, i + 1, matched + [samples[i]])
  }

  lemma {:induction false} ScanAtIsResultAt(pattern: seq<Stage>, carry: seq<Word16>, samples: seq<Word16>, i: nat, matched: seq<Word16>)
    requires |matched| < |pattern| && StandsAt(pattern, carry, samples, i, matched)
    requires |carry| + StartAt(pattern, samples, i, matched) >= 0
    ensures |carry| + StartAt(pattern, samples, i, matched) <= |carry + samples|
    ensures ScanAt(pattern, samples, i, matched) ==
            ResultAt(pattern, carry + samples, |carry| + StartAt(pattern, samples, i, matched))
    decreases |samples| - i + |matched|, |pattern| - |matched|
  {
    if i == |samples| {
      ResultAtEnd(pattern, carry, samples, matched);
    } else if !Hits(pattern[|matched|], samples[i]) {
      ScanAtIsResultAt(pattern, carry, samples, if i < |matched| then 0 else i - |matched| + 1, []);
    } else if |matched| + 1 == |pattern| {
      ResultAtMatch(pattern, carry, samples, i, matched);
    } else {
      ScanAtIsResultAt(pattern, carry, samples, i + 1, matched + [samples[i]]);
    }
  }

  lemma ResultAtEnd(pattern: seq<Stage>, carry: seq<Word16>, samples: seq<Word16>, matched: seq<Word16>)
    requires |matched| < |pattern| && StandsAt(pattern, carry, samples, |samples|, matched)
    ensures ResultAt(pattern, carry + samples, |carry + samples| - |matched|) == Waiting(matched)
  {
    assert (carry + samples)[|carry + samples| - |matched|..] == matched;
  }

  lemma ResultAtMatch(pattern: seq<Stage>, carry: seq<Word16>, samples: seq<Word16>, i: nat, matched: seq<Word16>)
    requires i < |samples| && |matched| + 1 == |pattern| && StandsAt(pattern, carry, samples, i, matched)
    ensures ResultAt(pattern, carry + samples, |carry| + i - |matched|) == Fired(matched + [samples[i]], samples[i + 1..])
  {
    var x, w := carry + samples, |carry| + i - |matched|;
    assert x[w..w + |pattern|] == matched + [samples[i]];
    assert x[w + |pattern|..] == samples[i + 1..];
  }

  /** The backtracking loop computes the search of `TriggerScan`. */
  lemma ScanAtIsScan(pattern: seq<Stage>, carry: seq<Word16>, samples: seq<Word16>)
    requires |carry| < |pattern| && forall j :: 0 <= j < |carry| ==> Hits(pattern[j], carry[j])
    ensures ScanAt(pattern, samples, 0, carry) == Scan(pattern, carry, samples)
  {
    StartAtIsFirst(pattern, carry, samples, 0, carry);
    ScanAtIsResultAt(pattern, carry, samples, 0, carry);
  }

  /** The transfers in the slots from `i` on have been cancelled, and no others. */
  ghost predicate AreCancelled(slots: Slots, i: nat, before: set<nat>, after: set<nat>) {
    forall id :: id in after <==> id in before || exists j :: i <= j < |slots| && slots[j] == Some(id)
  }

  lemma AllCancelled(slots: Slots, before: set<nat>, after: set<nat>)
    requires AreCancelled(slots, 0, before, after)
    ensures after == before + Ids(slots)
  {
  }

  /** Whatever the user asks for, the configured pattern is one `TriggerExact` decides. */
  lemma ConfiguredIsWellFormed(masks: seq<Word16>, values: seq<Word16>, probes: seq<Probe>)
    requires Wired(probes) && Configured(masks, values, probes)
    ensures WellFormed(PatternOf(masks, values))
  {
    forall k | 0 <= k < |PatternOf(masks, values)|
      ensures Hits(PatternOf(masks, values)[k], PatternOf(masks, values)[k].value)
    {
      StageIsWellFormed(probes, k);
    }
  }
}
