/** The acquisition protocol of the fx2lafw driver, as a function from events to states.

A state holds what `struct context` holds during an acquisition. A transfer is identified by a
number that stands for its pointer; a slot of `transfers[]` holds it, or is NULL. `bus` is everything
sent to the session bus so far, and `cancelRequests` the transfers libusb was asked to cancel. */
module Fx2lafwModel {
  import opened Options
  import opened SessionFeed
  import opened TriggerScan

  const TRIGGER_FIRED := -1
  const ABORTED := -1
  const MAX_EMPTY_TRANSFERS := 64

  type SamplePacket = Packet<Word16>

  datatype Status = Completed | TimedOut | NoDevice | OtherStatus

  /** A completion carries what libusb reports, whether a resubmission would succeed, and whether a
      listener on the bus calls `sr_session_stop` from inside a data packet (`stopInData`) or from
      inside the END packet (`stopInEnd`). `Stop` is a stop requested between completions. */
  datatype Event =
    | Completion(id: nat, status: Status, samples: seq<Word16>, resubmitOk: bool, stopInData: bool, stopInEnd: bool)
    | Stop

  /** A completion with samples: also one that ran into its time limit may bring some. */
  predicate Brings(e: Event) {
    e.Completion? && e.samples != [] && (e.status == Completed || e.status == TimedOut)
  }

  type Slots = seq<Option<nat>>

  datatype State = State(
    stage: int,
    window: seq<Word16>,
    numSamples: int,
    empties: nat,
    submitted: int,
    slots: Slots,
    cancelRequests: set<nat>,
    bus: seq<SamplePacket>)

  /** What stays fixed during an acquisition: the trigger stages in use, and the sample limit (0: none). */
  datatype Setup = Setup(pattern: seq<Stage>, limit: nat)

  function Ids(slots: Slots): set<nat> {
    set i | 0 <= i < |slots| && slots[i].Some? :: slots[i].value
  }

  function ClearSlot(slots: Slots, id: nat): Slots {
    if slots == [] then []
    else if slots[0] == Some(id) then [None] + slots[1..]
    else [slots[0]] + ClearSlot(slots[1..], id)
  }

  function Abort(s: State): State {
    s.(numSamples := ABORTED, cancelRequests := s.cancelRequests + Ids(s.slots))
  }

  function Finish(s: State, stopInEnd: bool): State {
    var ended := s.(bus := s.bus + [End]);
    (if stopInEnd then Abort(ended) else ended).(slots := [])
  }

  function Free(s: State, id: nat, stopInEnd: bool): State {
    var freed := s.(slots := ClearSlot(s.slots, id), submitted := s.submitted - 1);
    if freed.submitted == 0 then Finish(freed, stopInEnd) else freed
  }

  function Resubmit(s: State, id: nat, ok: bool, stopInEnd: bool): State {
    if ok then s else Free(s, id, stopInEnd)
  }

  /** Send `packets`; a listener may stop the session while it handles them. */
  function Send(s: State, packets: seq<SamplePacket>, stopInData: bool): State {
    var sent := s.(bus := s.bus + packets);
    if stopInData then Abort(sent) else sent
  }

  /** Search a transfer for the trigger; if it is found there are three packets to send. */
  ghost function Search(setup: Setup, s: State, samples: seq<Word16>): (State, seq<SamplePacket>) {
    match Scan(setup.pattern, s.window, samples)
    case Waiting(carry) => (s.(stage := |carry|, window := carry), [])
    case Fired(window, rest) =>
      (s.(stage := TRIGGER_FIRED, window := []), [Trigger, Logic(window), Logic(rest)])
  }

  /** Search a transfer for the trigger, or pass it on if the trigger is behind us. */
  ghost function Accept(setup: Setup, s: State, samples: seq<Word16>, stopInData: bool): State {
    if s.stage == TRIGGER_FIRED then
      Counted(Send(s, [Logic(samples)], stopInData), samples)
    else
      var (searched, packets) := Search(setup, s, samples);
      if packets == [] then searched else Counted(Send(searched, packets, stopInData), samples)
  }

  function Counted(s: State, samples: seq<Word16>): State {
    s.(numSamples := s.numSamples + |samples|)
  }

  predicate Usable(status: Status, samples: seq<Word16>) {
    (status == Completed || status == TimedOut) && samples != []
  }

  function ReceiveNothing(s: State, id: nat, resubmitOk: bool, stopInEnd: bool): State {
    var counted := s.(empties := s.empties + 1);
    if counted.empties > MAX_EMPTY_TRANSFERS then Free(Abort(counted), id, stopInEnd)
    else Resubmit(counted, id, resubmitOk, stopInEnd)
  }

  ghost function ReceiveSamples(setup: Setup, s: State, id: nat, samples: seq<Word16>,
                                resubmitOk: bool, stopInData: bool, stopInEnd: bool): State
  {
    Conclude(setup, Accept(setup, s.(empties := 0), samples, stopInData), id, resubmitOk, stopInEnd)
  }

  /** After its samples have been handled, a transfer is resubmitted, unless the limit has been reached. */
  function Conclude(setup: Setup, s: State, id: nat, resubmitOk: bool, stopInEnd: bool): State {
    if s.stage == TRIGGER_FIRED && 0 < setup.limit < s.numSamples then Free(Abort(s), id, stopInEnd)
    else Resubmit(s, id, resubmitOk, stopInEnd)
  }

  ghost function Receive(setup: Setup, s: State, e: Event): State
    requires e.Completion?
  {
    if s.numSamples == ABORTED then
      Free(s, e.id, e.stopInEnd)
    else if e.status == NoDevice then
      Free(Abort(s), e.id, e.stopInEnd)
    else if !Usable(e.status, e.samples) then
      ReceiveNothing(s, e.id, e.resubmitOk, e.stopInEnd)
    else
      ReceiveSamples(setup, s, e.id, e.samples, e.resubmitOk, e.stopInData, e.stopInEnd)
  }

  ghost function Step(setup: Setup, s: State, e: Event): State {
    match e
    case Stop => Abort(s)
    case Completion(_, _, _, _, _, _) => Receive(setup, s, e)
  }

  /** Only a transfer that is in flight, and so has a slot, can complete. */
  predicate Enabled(s: State, e: Event) {
    e.Completion? ==> Some(e.id) in s.slots
  }

  /** The state after all of `events`, the last one last. */
  ghost function Run(setup: Setup, s: State, events: seq<Event>): State {
    if events == [] then s
    else Step(setup, Run(setup, s, events[..|events| - 1]), events[|events| - 1])
  }

  ghost predicate Legal(setup: Setup, s: State, events: seq<Event>) {
    forall i :: 0 <= i < |events| ==> Enabled(Run(setup, s, events[..i]), events[i])
  }

  /** The number of transfers submitted before the first one libusb refuses. */
  function FirstFailure(submits: seq<bool>): (k: nat)
    ensures k <= |submits|
    ensures forall i :: 0 <= i < k ==> submits[i]
    ensures k < |submits| ==> !submits[k]
  {
    if submits == [] || !submits[0] then 0 else 1 + FirstFailure(submits[1..])
  }

  function SlotsUpTo(ids: seq<nat>, k: nat): Slots
    requires k <= |ids|
  {
    seq(|ids|, i requires 0 <= i < |ids| => if i < k then Some(ids[i]) else None)
  }

  /** The start loop after it has submitted the first `k` transfers. */
  function Submitted(s: State, ids: seq<nat>, k: nat): State
    requires k <= |ids|
  {
    State(s.stage, s.window, 0, 0, k, SlotsUpTo(ids, k), {}, [])
  }

  /** What a start leaves behind, and whether it succeeds: one refused submission, or a device that
      does not start, aborts what has been submitted. */
  function StartOutcome(s: State, ids: seq<nat>, submits: seq<bool>, startOk: bool): (State, bool)
    requires |submits| == |ids|
  {
    var k := FirstFailure(submits);
    var submitted := Submitted(s, ids, k).(bus := if k < |ids| then [] else [Header, MetaLogic]);
    if k == |ids| && startOk then (submitted, true) else (Abort(submitted), false)
  }

  /** The state in which a successful start leaves the driver: every slot filled by a transfer in
      flight, the counters cleared, the header on the bus. */
  ghost predicate Started(setup: Setup, s: State) {
    && setup.pattern != []
    && Ready(setup, s)
    && s.numSamples == 0 && s.empties == 0
    && s.slots != [] && (forall i :: 0 <= i < |s.slots| ==> s.slots[i].Some?)
    && Distinct(s.slots)
    && s.submitted == |s.slots| && s.cancelRequests == {}
    && s.bus == [Header, MetaLogic]
  }

  /** Before a start the trigger is off, or in the middle of a match: a start does not reset it, so samples
      of an earlier acquisition may be left in the window. */
  ghost predicate Ready(setup: Setup, s: State) {
    || (s.stage == TRIGGER_FIRED && s.window == [])
    || (s.stage == |s.window| < |setup.pattern| && Viable(setup.pattern, s.window, 0))
  }

  ghost predicate Distinct(slots: Slots) {
    forall i, j :: 0 <= i < j < |slots| && slots[i].Some? ==> slots[i] != slots[j]
  }

  lemma {:induction false} ClearSlotAt(slots: Slots, id: nat, i: nat)
    requires i < |slots| && slots[i] == Some(id)
    requires forall j :: 0 <= j < i ==> slots[j] != Some(id)
    ensures ClearSlot(slots, id) == slots[i := None]
    decreases i
  {
    if i > 0 {
      ClearSlotAt(slots[1..], id, i - 1);
    }
  }

  lemma {:induction false} ClearSlotAbsent(slots: Slots, id: nat)
    requires Some(id) !in slots
    ensures ClearSlot(slots, id) == slots
  {
    if slots != [] {
      ClearSlotAbsent(slots[1..], id);
    }
  }

  /** A successful start of at least one transfer. */
  lemma StartedAfterSuccess(setup: Setup, s: State, ids: seq<nat>, submits: seq<bool>, startOk: bool)
    requires |submits| == |ids| && StartOutcome(s, ids, submits, startOk).1
    requires setup.pattern != [] && ids != [] && Ready(setup, s)
    requires forall i, j :: 0 <= i < j < |ids| ==> ids[i] != ids[j]
    ensures Started(setup, StartOutcome(s, ids, submits, startOk).0)
  {
  }
}
