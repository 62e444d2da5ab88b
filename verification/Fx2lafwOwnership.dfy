/** Who owns the USB transfers of an fx2lafw acquisition, over every interleaving of completions,
failed resubmissions and stops: the END packet is sent exactly once, when the last transfer is freed. */
module Fx2lafwOwnership {
  import opened Options
  import opened SessionFeed
  import opened TriggerScan
  import opened Fx2lafwModel

  function Live(slots: Slots): nat {
    if slots == [] then 0 else (if slots[0].Some? then 1 else 0) + Live(slots[1..])
  }

  /** END has not been sent, or it is the last packet. */
  ghost predicate EndedOnce(bus: seq<SamplePacket>, ended: bool) {
    if ended then bus != [] && bus[|bus| - 1] == End && End !in bus[..|bus| - 1] else End !in bus
  }

  ghost predicate Owned(s: State) {
    && s.submitted == Live(s.slots)
    && Distinct(s.slots)
    && (s.submitted == 0 ==> s.slots == [])
    && EndedOnce(s.bus, s.submitted == 0)
    && (s.numSamples == ABORTED ==> Ids(s.slots) <= s.cancelRequests)
  }

  lemma {:induction false} LiveOfUpdate(slots: Slots, i: nat)
    requires i < |slots| && slots[i].Some?
    ensures Live(slots[i := None]) == Live(slots) - 1
  {
    if i > 0 {
      assert slots[i := None][1..] == slots[1..][i - 1 := None];
      LiveOfUpdate(slots[1..], i - 1);
    }
  }

  lemma {:induction false} NothingLive(slots: Slots)
    requires Live(slots) == 0
    ensures forall i :: 0 <= i < |slots| ==> slots[i] == None
  {
    if slots != [] {
      NothingLive(slots[1..]);
    }
  }

  lemma {:induction false} AllLive(slots: Slots)
    requires forall i :: 0 <= i < |slots| ==> slots[i].Some?
    ensures Live(slots) == |slots|
  {
    if slots != [] {
      AllLive(slots[1..]);
    }
  }

  /** Clearing a slot frees one transfer and leaves the others where they are. */
  lemma ClearOne(slots: Slots, id: nat)
    requires Some(id) in slots && Distinct(slots)
    ensures var cleared := ClearSlot(slots, id);
            Live(cleared) == Live(slots) - 1 && Distinct(cleared) && Ids(cleared) == Ids(slots) - {id}
  {
    var i :| 0 <= i < |slots| && slots[i] == Some(id);
    assert forall j :: 0 <= j < i ==> slots[j] != Some(id);
    ClearSlotAt(slots, id, i);
    LiveOfUpdate(slots, i);
    IdsOfCleared(slots, id, i);
  }

  lemma IdsOfCleared(slots: Slots, id: nat, i: nat)
    requires i < |slots| && slots[i] == Some(id) && Distinct(slots)
    ensures Ids(slots[i := None]) == Ids(slots) - {id}
  {
    var cleared := slots[i := None];
    forall other | other in Ids(slots) && other != id ensures other in Ids(cleared) {
      var j :| 0 <= j < |slots| && slots[j] == Some(other);
      assert cleared[j] == Some(other);
    }
    forall other | other in Ids(cleared) ensures other in Ids(slots) - {id} {
      var j :| 0 <= j < |cleared| && cleared[j] == Some(other);
      assert slots[j] == Some(other);
    }
  }

  lemma NoIds(slots: Slots)
    requires forall i :: 0 <= i < |slots| ==> slots[i] == None
    ensures Ids(slots) == {}
  {
  }

  /** Freeing a transfer in flight keeps the books, and ends the session with the last one. A stop
      made from inside the END packet finds no transfer to cancel. */
  lemma FreeKeeps(s: State, id: nat, stopInEnd: bool)
    requires Owned(s) && Some(id) in s.slots
    ensures var r := Free(s, id, stopInEnd);
            && Owned(r) && r.submitted == s.submitted - 1 && r.cancelRequests == s.cancelRequests
            && r.bus == s.bus + (if r.submitted == 0 then [End] else [])
            && (s.numSamples == ABORTED ==> r.numSamples == ABORTED)
  {
    ClearOne(s.slots, id);
    var cleared := ClearSlot(s.slots, id);
    if s.submitted == 1 {
      NothingLive(cleared);
      NoIds(cleared);
      assert (s.bus + [End])[..|s.bus|] == s.bus;
    }
  }

  lemma SendKeeps(s: State, packets: seq<SamplePacket>, stopInData: bool)
    requires Owned(s) && s.submitted > 0 && End !in packets
    ensures Owned(Send(s, packets, stopInData)) && Send(s, packets, stopInData).slots == s.slots
  {
  }

  lemma AcceptKeeps(setup: Setup, s: State, samples: seq<Word16>, stopInData: bool)
    requires Owned(s) && s.submitted > 0 && samples != [] && s.numSamples != ABORTED
    ensures var r := Accept(setup, s, samples, stopInData);
            && r.submitted == s.submitted && r.slots == s.slots
            && Owned(r.(numSamples := 0))
  {
    if s.stage == TRIGGER_FIRED {
      SendKeeps(s, [Logic(samples)], stopInData);
    } else {
      var (searched, packets) := Search(setup, s, samples);
      assert Owned(searched) && End !in packets;
      if packets != [] {
        SendKeeps(searched, packets, stopInData);
      }
    }
  }

  /** The counter of a driver that is not stopping is never negative. */
  ghost predicate Counting(s: State) {
    s.numSamples >= ABORTED
  }

  lemma ReceiveNothingKeeps(s: State, id: nat, resubmitOk: bool, stopInEnd: bool)
    requires Owned(s) && Counting(s) && Some(id) in s.slots
    ensures Owned(ReceiveNothing(s, id, resubmitOk, stopInEnd)) && Counting(ReceiveNothing(s, id, resubmitOk, stopInEnd))
  {
    var counted := s.(empties := s.empties + 1);
    if counted.empties > MAX_EMPTY_TRANSFERS {
      FreeKeeps(Abort(counted), id, stopInEnd);
    } else if !resubmitOk {
      FreeKeeps(counted, id, stopInEnd);
    }
  }

  lemma ReceiveSamplesKeeps(setup: Setup, s: State, e: Event)
    requires e.Completion? && Owned(s) && Some(e.id) in s.slots && s.numSamples >= 0 && e.samples != []
    ensures var r := ReceiveSamples(setup, s, e.id, e.samples, e.resubmitOk, e.stopInData, e.stopInEnd);
            Owned(r) && Counting(r)
  {
    LiveIfPresent(s.slots, e.id);
    AcceptKeeps(setup, s.(empties := 0), e.samples, e.stopInData);
    var accepted := Accept(setup, s.(empties := 0), e.samples, e.stopInData);
    FreeKeeps(accepted, e.id, e.stopInEnd);
    FreeKeeps(Abort(accepted), e.id, e.stopInEnd);
  }

  lemma ReceiveKeeps(setup: Setup, s: State, e: Event)
    requires e.Completion? && Owned(s) && Counting(s) && Enabled(s, e)
    ensures Owned(Receive(setup, s, e)) && Counting(Receive(setup, s, e))
  {
    if s.numSamples == ABORTED {
      FreeKeeps(s, e.id, e.stopInEnd);
    } else if e.status == NoDevice {
      FreeKeeps(Abort(s), e.id, e.stopInEnd);
    } else if !Usable(e.status, e.samples) {
      ReceiveNothingKeeps(s, e.id, e.resubmitOk, e.stopInEnd);
    } else {
      ReceiveSamplesKeeps(setup, s, e);
    }
  }

  lemma {:induction false} LiveIfPresent(slots: Slots, id: nat)
    requires Some(id) in slots
    ensures Live(slots) > 0
  {
    if slots[0] != Some(id) {
      LiveIfPresent(slots[1..], id);
    }
  }

  lemma StepKeeps(setup: Setup, s: State, e: Event)
    requires Owned(s) && Counting(s) && Enabled(s, e)
    ensures Owned(Step(setup, s, e)) && Counting(Step(setup, s, e))
  {
    if e.Completion? {
      ReceiveKeeps(setup, s, e);
    }
  }

  /** A start, successful or not, leaves the books in order if and only if it has submitted a transfer. If
      the very first one is refused, nothing can complete, and END is never sent. */
  lemma OwnedAfterStart(s: State, ids: seq<nat>, submits: seq<bool>, startOk: bool)
    requires |submits| == |ids|
    requires forall i, j :: 0 <= i < j < |ids| ==> ids[i] != ids[j]
    ensures var r := StartOutcome(s, ids, submits, startOk).0;
            && Counting(r) && r.submitted == Live(r.slots) == FirstFailure(submits)
            && (Owned(r) <==> FirstFailure(submits) > 0)
            && (FirstFailure(submits) == 0 ==> End !in r.bus && forall e: Event :: Enabled(r, e) ==> e.Stop?)
  {
    var k := FirstFailure(submits);
    LiveUpTo(ids, k);
    NothingCompletes(StartOutcome(s, ids, submits, startOk).0);
    assert Distinct(SlotsUpTo(ids, k));
  }

  /** A start succeeds if and only if every submission and the hardware do. The transfers submitted are those up
      to the first that is refused; and after a failure the driver is stopping, and has cancelled them. */
  lemma FailedStartStops(s: State, ids: seq<nat>, submits: seq<bool>, startOk: bool)
    requires |submits| == |ids|
    ensures var (r, ok) := StartOutcome(s, ids, submits, startOk);
            && (ok <==> startOk && forall i :: 0 <= i < |submits| ==> submits[i])
            && (ok ==> r.numSamples == 0 && r.cancelRequests == {} && r.bus == [Header, MetaLogic])
            && (!ok ==> r.numSamples == ABORTED && r.cancelRequests == Ids(r.slots))
            && (forall i :: 0 <= i < |ids| && (forall j :: 0 <= j <= i ==> submits[j]) ==> r.slots[i] == Some(ids[i]))
            && (forall i, j :: 0 <= j <= i < |ids| && !submits[j] ==> r.slots[i] == None)
  {
  }

  lemma NothingCompletes(s: State)
    ensures Live(s.slots) == 0 ==> forall e: Event :: Enabled(s, e) ==> e.Stop?
  {
    forall e: Event | Enabled(s, e) && e.Completion?
      ensures Live(s.slots) > 0
    {
      LiveIfPresent(s.slots, e.id);
    }
  }

  lemma {:induction false} LiveUpTo(ids: seq<nat>, k: nat)
    requires k <= |ids|
    ensures Live(SlotsUpTo(ids, k)) == k
  {
    if ids != [] {
      var rest := if k == 0 then 0 else k - 1;
      assert SlotsUpTo(ids, k)[1..] == SlotsUpTo(ids[1..], rest);
      LiveUpTo(ids[1..], rest);
    }
  }

  lemma LegalPrefix(setup: Setup, s: State, events: seq<Event>, n: nat)
    requires Legal(setup, s, events) && n <= |events|
    ensures Legal(setup, s, events[..n])
  {
    assert forall i :: 0 <= i <= n ==> events[..n][..i] == events[..i];
  }

  lemma {:induction false} RunKeeps(setup: Setup, s: State, events: seq<Event>)
    requires Owned(s) && Counting(s) && Legal(setup, s, events)
    ensures Owned(Run(setup, s, events)) && Counting(Run(setup, s, events))
  {
    if events != [] {
      var n := |events| - 1;
      LegalPrefix(setup, s, events, n);
      RunKeeps(setup, s, events[..n]);
      StepKeeps(setup, Run(setup, s, events[..n]), events[n]);
    }
  }

  /** At every moment of every run, the count of submitted transfers is the number of occupied slots,
      END has been sent exactly if that count is 0, and then it is the last packet on the bus. */
  lemma BooksBalance(setup: Setup, s: State, events: seq<Event>)
    requires Started(setup, s) && Legal(setup, s, events)
    ensures var r := Run(setup, s, events);
            && r.submitted == Live(r.slots)
            && EndedOnce(r.bus, r.submitted == 0)
            && (r.numSamples == ABORTED ==> Ids(r.slots) <= r.cancelRequests)
  {
    AllLive(s.slots);
    RunKeeps(setup, s, events);
  }

  /** Once END is on the bus nothing more is sent, whatever happens. */
  lemma {:induction false} NothingAfterEnd(setup: Setup, s: State, events: seq<Event>)
    requires Owned(s) && s.submitted == 0 && Legal(setup, s, events)
    ensures var r := Run(setup, s, events); r.bus == s.bus && r.submitted == 0 && r.slots == []
  {
    if events != [] {
      var n := |events| - 1;
      LegalPrefix(setup, s, events, n);
      NothingAfterEnd(setup, s, events[..n]);
      assert Enabled(Run(setup, s, events[..n]), events[n]);
    }
  }

  function Completions(events: seq<Event>): nat {
    if events == [] then 0
    else Completions(events[..|events| - 1]) + (if events[|events| - 1].Completion? then 1 else 0)
  }

  /** After an abort every completion frees its transfer: no data is sent any more, the number of
      transfers still out bounds the number of completions to come, and the last one sends END. */
  lemma {:induction false} AbortDrains(setup: Setup, s: State, events: seq<Event>)
    requires Owned(s) && s.numSamples == ABORTED && Legal(setup, s, events)
    ensures var r := Run(setup, s, events);
            && Owned(r) && r.numSamples == ABORTED
            && r.submitted == s.submitted - Completions(events)
            && r.bus == s.bus + (if r.submitted == 0 < s.submitted then [End] else [])
  {
    if events != [] {
      var n := |events| - 1;
      var before := Run(setup, s, events[..n]);
      LegalPrefix(setup, s, events, n);
      AbortDrains(setup, s, events[..n]);
      if events[n].Completion? {
        assert Enabled(before, events[n]);
        LiveIfPresent(before.slots, events[n].id);
        FreeKeeps(before, events[n].id, events[n].stopInEnd);
      }
    }
  }

  /** A stop requested from inside a data packet does not stick: the counter that was set to -1 is
      then increased by the size of the transfer. The driver is stopping afterwards if and only if that,
      counted from -1, exceeds the sample limit, or this was the last transfer, cannot be submitted again,
      and a listener stops once more from inside END. */
  lemma StopInsideDataIsLost(setup: Setup, s: State, e: Event)
    requires Owned(s) && s.numSamples >= 0 && Enabled(s, e)
    requires Brings(e) && e.stopInData
    requires Accept(setup, s, e.samples, true).stage == TRIGGER_FIRED
    ensures var r := Step(setup, s, e);
            var limited := 0 < setup.limit < |e.samples| - 1;
            && Ids(s.slots) <= Accept(setup, s, e.samples, true).cancelRequests
            && (r.numSamples == ABORTED <==> limited || (!e.resubmitOk && s.submitted == 1 && e.stopInEnd))
            && (r.numSamples != ABORTED ==> r.numSamples == |e.samples| - 1)
            && (!limited && e.resubmitOk ==> r.slots == s.slots)
  {
    LiveIfPresent(s.slots, e.id);
    var s0 := s.(empties := 0);
    var accepted := Accept(setup, s0, e.samples, true);
    assert accepted.numSamples == |e.samples| - 1;
    AcceptKeeps(setup, s0, e.samples, true);
    if 0 < setup.limit < accepted.numSamples {
      FreeKeeps(Abort(accepted.(numSamples := 0)), e.id, e.stopInEnd);
    }
  }

  /** One transfer of two samples, without a trigger: the stop leaves the counter at 1, and the transfer in
      flight. */
  lemma StopIsForgotten(setup: Setup, s: State, e: Event)
    requires setup == Setup([Stage(0, 0)], 0)
    requires s == State(TRIGGER_FIRED, [], 0, 0, 1, [Some(0)], {}, [Header, MetaLogic])
    requires e == Completion(0, Completed, [1, 2], true, true, false)
    ensures Started(setup, s) && Enabled(s, e)
    ensures Step(setup, s, e).numSamples == 1 && Step(setup, s, e).slots == s.slots
  {
    assert Started(setup, s) && Enabled(s, e) by {
      assert s.slots[0] == Some(e.id);
    }
    assert Owned(s) by {
      AllLive(s.slots);
    }
    assert |e.samples| == 2;
    StopInsideDataIsLost(setup, s, e);
  }
}
