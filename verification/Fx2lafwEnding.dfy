/** What ends an fx2lafw acquisition, transfer by transfer and for the whole of it. */
module Fx2lafwEnding {
  import opened Options
  import opened Fx2lafwModel
  import opened Fx2lafwOwnership

  /** The completions without samples since the last one with some. */
  function EmptiesInRow(events: seq<Event>): nat {
    if events == [] then 0
    else
      var before, last := EmptiesInRow(events[..|events| - 1]), events[|events| - 1];
      if last.Stop? then before else if Brings(last) then 0 else before + 1
  }

  /** A driver that is not stopping has not been before, and has counted the empty completions in a row. */
  lemma {:induction false} RunCountsEmpties(setup: Setup, s: State, events: seq<Event>)
    requires Started(setup, s)
    ensures Run(setup, s, events).numSamples != ABORTED ==>
              Run(setup, s, events).empties == EmptiesInRow(events)
  {
    if events != [] {
      var init, last := events[..|events| - 1], events[|events| - 1];
      RunCountsEmpties(setup, s, init);
      StepCountsEmpties(setup, Run(setup, s, init), last);
    }
  }

  lemma StepCountsEmpties(setup: Setup, s: State, e: Event)
    ensures var r := Step(setup, s, e);
            r.numSamples != ABORTED ==>
              && s.numSamples != ABORTED && e.Completion?
              && r.empties == if Brings(e) then 0 else s.empties + 1
  {
    if e.Completion? && s.numSamples != ABORTED && Brings(e) {
      EmptiesAfterAccept(setup, s.(empties := 0), e);
    }
  }

  lemma EmptiesAfterAccept(setup: Setup, s: State, e: Event)
    requires e.Completion?
    ensures Accept(setup, s, e.samples, e.stopInData).empties == s.empties
  {
  }

  /** The driver once it has handled the samples of a completion. */
  ghost function WithSamples(setup: Setup, s: State, e: Event): State
    requires e.Completion?
  {
    Accept(setup, s.(empties := 0), e.samples, e.stopInData)
  }

  /** With this completion the driver gives the acquisition up: the device is gone, or it has sent nothing for
      the 65th time in a row, or the limit has been passed. */
  ghost predicate GivesUp(setup: Setup, s: State, e: Event) {
    e.Completion? &&
    (|| e.status == NoDevice
     || (!Brings(e) && s.empties >= 64)
     || (Brings(e) && var r := WithSamples(setup, s, e); r.stage == TRIGGER_FIRED && 0 < setup.limit < r.numSamples))
  }

  /** A transfer stays in flight if and only if the driver goes on and it can be submitted again; and whatever
      becomes of it, the other transfers stay where they are. */
  lemma StaysInFlightIff(setup: Setup, s: State, e: Event)
    requires e.Completion? && Owned(s) && Counting(s) && Enabled(s, e)
    ensures var r := Step(setup, s, e);
            && (e.id in Ids(r.slots) <==> s.numSamples != ABORTED && !GivesUp(setup, s, e) && e.resubmitOk)
            && Ids(r.slots) - {e.id} == Ids(s.slots) - {e.id}
  {
    LiveIfPresent(s.slots, e.id);
    if s.numSamples == ABORTED {
      FreedAlone(s, e.id, e.stopInEnd);
    } else if e.status == NoDevice {
      FreedAlone(Abort(s), e.id, e.stopInEnd);
    } else if !Brings(e) {
      var counted := s.(empties := s.empties + 1);
      FreedAlone(Abort(counted), e.id, e.stopInEnd);
      FreedAlone(counted, e.id, e.stopInEnd);
    } else {
      AcceptKeeps(setup, s.(empties := 0), e.samples, e.stopInData);
      FreedAlone(WithSamples(setup, s, e), e.id, e.stopInEnd);
      FreedAlone(Abort(WithSamples(setup, s, e)), e.id, e.stopInEnd);
    }
    assert e.id in Ids(s.slots);
  }

  /** A stop makes the driver stop, asks for every transfer in flight to be cancelled, and does nothing else. */
  lemma StopAborts(setup: Setup, s: State)
    ensures var r := Step(setup, s, Stop);
            && r.numSamples == ABORTED && r.slots == s.slots && r.submitted == s.submitted && r.bus == s.bus
            && (forall id :: id in r.cancelRequests <==> id in s.cancelRequests || Some(id) in s.slots)
  {
    forall id ensures id in Ids(s.slots) <==> Some(id) in s.slots {
      if Some(id) in s.slots {
        var i :| 0 <= i < |s.slots| && s.slots[i] == Some(id);
      }
    }
  }

  /** A freed transfer leaves its slot, and no other does. */
  lemma FreedAlone(s: State, id: nat, stopInEnd: bool)
    requires Some(id) in s.slots && Distinct(s.slots) && s.submitted == Live(s.slots)
    ensures Ids(Free(s, id, stopInEnd).slots) == Ids(s.slots) - {id}
  {
    ClearOne(s.slots, id);
    if s.submitted == 1 {
      NothingLive(ClearSlot(s.slots, id));
      NoIds(ClearSlot(s.slots, id));
    }
  }

  /** A completion makes the driver stop if and only if it gives up, or this was the last transfer, cannot be
      submitted again, and a listener stops from inside END. */
  lemma StopsIff(setup: Setup, s: State, e: Event)
    requires e.Completion? && Owned(s) && s.numSamples >= 0 && Enabled(s, e)
    ensures Step(setup, s, e).numSamples == ABORTED <==>
            GivesUp(setup, s, e) || (!e.resubmitOk && s.submitted == 1 && e.stopInEnd)
  {
    if Brings(e) {
      TakenIsNotAborted(setup, s.(empties := 0), e);
      LiveIfPresent(s.slots, e.id);
      AcceptKeeps(setup, s.(empties := 0), e.samples, e.stopInData);
    }
  }

  lemma TakenIsNotAborted(setup: Setup, s: State, e: Event)
    requires Brings(e) && s.numSamples >= 0
    ensures Accept(setup, s, e.samples, e.stopInData).numSamples >= 0
  {
  }

  /** In a run, a device that is present but sends nothing is given up with the 65th completion in a row that
      brings no samples, and with no earlier one. */
  lemma GivenUpAfter65(setup: Setup, s: State, events: seq<Event>, e: Event)
    requires Started(setup, s) && Run(setup, s, events).numSamples != ABORTED
    requires e.Completion? && !Brings(e) && e.status != NoDevice
    ensures GivesUp(setup, Run(setup, s, events), e) <==> EmptiesInRow(events + [e]) >= 65
  {
    RunCountsEmpties(setup, s, events);
    assert (events + [e])[..|events|] == events;
  }
}
