/** What an fx2lafw acquisition puts on the session bus, over every run: one TRIGGER packet, and then
the samples from the first one of the match on, without a gap; the whole stream if no trigger is set. */
module Fx2lafwOutput {
  import opened Bits
  import opened Options
  import opened SessionFeed
  import opened Streams
  import opened TriggerScan
  import opened Fx2lafwModel
  import opened Fx2lafwOwnership

  /** A completion with samples, for a driver that is not stopping. */
  predicate Accepts(s: State, e: Event) {
    s.numSamples != ABORTED && Brings(e)
  }

  /** The transfers a run takes samples from: those that are error-free, not empty, and not late. */
  ghost function AcceptedTransfers(setup: Setup, s: State, events: seq<Event>): seq<seq<Word16>> {
    if events == [] then []
    else
      var init, last := events[..|events| - 1], events[|events| - 1];
      AcceptedTransfers(setup, s, init) + (if Accepts(Run(setup, s, init), last) then [last.samples] else [])
  }

  /** The TRIGGER and LOGIC packets. */
  function DataPackets(bus: seq<SamplePacket>): seq<SamplePacket> {
    if bus == [] then []
    else
      var last := bus[|bus| - 1];
      DataPackets(bus[..|bus| - 1]) + (if last == Trigger || last.Logic? then [last] else [])
  }

  predicate AllLogic(packets: seq<SamplePacket>) {
    forall i :: 0 <= i < |packets| ==> packets[i].Logic?
  }

  lemma LoneHasNothingBefore(p: SamplePacket)
    ensures [p][..0] == []
  {
  }

  lemma {:induction false} DataPacketsOfJoin(bus: seq<SamplePacket>, more: seq<SamplePacket>)
    ensures DataPackets(bus + more) == DataPackets(bus) + DataPackets(more)
    decreases |more|
  {
    if more == [] {
      assert bus + more == bus;
    } else {
      assert (bus + more)[..|bus + more| - 1] == bus + more[..|more| - 1];
      DataPacketsOfJoin(bus, more[..|more| - 1]);
    }
  }

  /** What the bus says when the matcher stands at `m`: nothing until it fires; then TRIGGER, and the
      stream from the first sample of the match. */
  ghost predicate Reported(bus: seq<SamplePacket>, m: Matcher) {
    var data := DataPackets(bus);
    match m
    case Armed(_, _) => data == []
    case Triggered(seen, start) =>
      start <= |seen| && data != [] && data[0] == Trigger && AllLogic(data[1..]) && Payload(data) == seen[start..]
  }

  ghost predicate InStep(s: State, m: Matcher) {
    && Reported(s.bus, m)
    && match m
       case Armed(seen, carry) => s.stage == carry <= |seen| && s.window == seen[|seen| - carry..]
       case Triggered(_, _) => s.stage == TRIGGER_FIRED
  }

  /** The matcher has not moved, and no TRIGGER or LOGIC packet was sent. */
  ghost predicate SameReport(s: State, r: State) {
    r.stage == s.stage && r.window == s.window && DataPackets(r.bus) == DataPackets(s.bus)
  }

  lemma FreeKeepsReport(s: State, id: nat, stopInEnd: bool)
    ensures SameReport(s, Free(s, id, stopInEnd))
  {
    DataPacketsOfJoin(s.bus, [End]);
    LoneHasNothingBefore(End);
  }

  /** A completion without usable samples, or one that comes late, reports nothing. */
  lemma IgnoredKeepsReport(setup: Setup, s: State, e: Event)
    requires !Accepts(s, e)
    ensures SameReport(s, Step(setup, s, e))
  {
    if e.Completion? {
      if s.numSamples == ABORTED {
        FreeKeepsReport(s, e.id, e.stopInEnd);
      } else if e.status == NoDevice {
        FreeKeepsReport(Abort(s), e.id, e.stopInEnd);
      } else {
        var counted := s.(empties := s.empties + 1);
        FreeKeepsReport(counted, e.id, e.stopInEnd);
        FreeKeepsReport(Abort(counted), e.id, e.stopInEnd);
      }
    }
  }

  /** Of an accepted completion only its samples are reported, not what becomes of the transfer. */
  lemma AcceptedKeepsReport(setup: Setup, s: State, e: Event)
    requires Accepts(s, e)
    ensures SameReport(Accept(setup, s.(empties := 0), e.samples, e.stopInData), Step(setup, s, e))
  {
    ConcludeKeepsReport(setup, Accept(setup, s.(empties := 0), e.samples, e.stopInData), e);
  }

  lemma ConcludeKeepsReport(setup: Setup, s: State, e: Event)
    requires e.Completion?
    ensures SameReport(s, Conclude(setup, s, e.id, e.resubmitOk, e.stopInEnd))
  {
    FreeKeepsReport(s, e.id, e.stopInEnd);
    FreeKeepsReport(Abort(s), e.id, e.stopInEnd);
  }

  lemma DataOfOne(samples: seq<Word16>)
    ensures DataPackets([Logic(samples)]) == [Logic(samples)] && Payload([Logic(samples)]) == samples
  {
    assert [Logic(samples)][..0] == [];
  }

  lemma DataOfThree(window: seq<Word16>, rest: seq<Word16>)
    ensures var packets := [Trigger, Logic(window), Logic(rest)];
            DataPackets(packets) == packets && Payload(packets) == window + rest
  {
    var packets := [Trigger, Logic(window), Logic(rest)];
    assert packets == [Trigger] + [Logic(window)] + [Logic(rest)];
    DataOfOne(window);
    DataOfOne(rest);
    LoneHasNothingBefore(Trigger);
    DataPacketsOfJoin([Trigger], [Logic(window)]);
    DataPacketsOfJoin([Trigger] + [Logic(window)], [Logic(rest)]);
    PayloadOfJoin([Trigger], [Logic(window)]);
    PayloadOfJoin([Trigger] + [Logic(window)], [Logic(rest)]);
    PayloadSnoc<Word16>([], Trigger);
  }

  /** Taking a transfer moves the driver and the matcher alike. */
  lemma AcceptInStep(setup: Setup, s: State, m: Matcher, samples: seq<Word16>, stopInData: bool)
    requires setup.pattern != [] && ValidMatcher(setup.pattern, m) && InStep(s, m)
    ensures InStep(Accept(setup, s, samples, stopInData), Feed(setup.pattern, m, samples))
  {
    if m.Triggered? {
      ReportMore(s.bus, m, samples);
    } else {
      SearchInStep(setup, s, m, samples, stopInData);
    }
  }

  lemma SearchInStep(setup: Setup, s: State, m: Matcher, samples: seq<Word16>, stopInData: bool)
    requires setup.pattern != [] && ValidMatcher(setup.pattern, m) && InStep(s, m) && m.Armed?
    ensures InStep(Accept(setup, s, samples, stopInData), Feed(setup.pattern, m, samples))
  {
    var w := FeedIsScan(setup.pattern, m, samples);
    var (searched, packets) := Search(setup, s, samples);
    if packets != [] {
      SplitSuffix(m.seen + samples, w, w + |setup.pattern|);
      ReportMatch(s.bus, m, packets[1].samples, packets[2].samples, Feed(setup.pattern, m, samples));
    }
  }

  lemma ReportMore(bus: seq<SamplePacket>, m: Matcher, samples: seq<Word16>)
    requires m.Triggered? && Reported(bus, m)
    ensures Reported(bus + [Logic(samples)], Triggered(m.seen + samples, m.start))
  {
    DataPacketsSnoc(bus, samples);
    PayloadSnoc(DataPackets(bus), Logic(samples));
    LogicAfterTrigger(DataPackets(bus), samples);
    SliceOfFirst(m.seen, samples, m.start);
  }

  lemma LogicAfterTrigger(data: seq<SamplePacket>, samples: seq<Word16>)
    requires data != [] && AllLogic(data[1..])
    ensures AllLogic((data + [Logic(samples)])[1..]) && (data + [Logic(samples)])[0] == data[0]
  {
  }

  lemma ReportMatch(bus: seq<SamplePacket>, m: Matcher, window: seq<Word16>, rest: seq<Word16>, r: Matcher)
    requires m.Armed? && Reported(bus, m)
    requires r.Triggered? && r.start <= |r.seen| && window + rest == r.seen[r.start..]
    ensures Reported(bus + [Trigger, Logic(window), Logic(rest)], r)
  {
    DataOfThree(window, rest);
    DataPacketsOfJoin(bus, [Trigger, Logic(window), Logic(rest)]);
    assert [] + [Trigger, Logic(window), Logic(rest)] == [Trigger, Logic(window), Logic(rest)];
  }

  lemma StepInStep(setup: Setup, s: State, m: Matcher, e: Event)
    requires setup.pattern != [] && ValidMatcher(setup.pattern, m) && InStep(s, m)
    ensures InStep(Step(setup, s, e), if Accepts(s, e) then Feed(setup.pattern, m, e.samples) else m)
  {
    if Accepts(s, e) {
      AcceptInStep(setup, s.(empties := 0), m, e.samples, e.stopInData);
      AcceptedKeepsReport(setup, s, e);
    } else {
      IgnoredKeepsReport(setup, s, e);
    }
  }

  /** What the matcher is fed: the samples an earlier acquisition has left in the window count as a first
      transfer, and then come the transfers of the run. */
  ghost function Fed(setup: Setup, s: State, events: seq<Event>): seq<seq<Word16>> {
    Leftover(s.window) + AcceptedTransfers(setup, s, events)
  }

  function Leftover(window: seq<Word16>): seq<seq<Word16>> {
    if window == [] then [] else [window]
  }

  lemma FedSnoc(setup: Setup, s: State, events: seq<Event>)
    requires events != []
    ensures var init, last := events[..|events| - 1], events[|events| - 1];
            Fed(setup, s, events) ==
            Fed(setup, s, init) + (if Accepts(Run(setup, s, init), last) then [last.samples] else [])
  {
    var init, last := events[..|events| - 1], events[|events| - 1];
    Associate(Leftover(s.window), AcceptedTransfers(setup, s, init),
              if Accepts(Run(setup, s, init), last) then [last.samples] else []);
  }

  lemma FlattenFed(setup: Setup, s: State, events: seq<Event>)
    ensures Flatten(Fed(setup, s, events)) == s.window + Flatten(AcceptedTransfers(setup, s, events))
  {
    FlattenConcat(Leftover(s.window), AcceptedTransfers(setup, s, events));
    if s.window != [] {
      assert [s.window][..0] == [];
    }
  }

  lemma FeedSnoc(pattern: seq<Stage>, transfers: seq<seq<Word16>>, more: seq<Word16>)
    requires pattern != []
    ensures FeedAll(pattern, transfers + [more]) == Feed(pattern, FeedAll(pattern, transfers), more)
  {
    assert (transfers + [more])[..|transfers|] == transfers;
  }

  /** At the start the matcher is in the middle of what was left. */
  lemma StartInStep(setup: Setup, s: State)
    requires Started(setup, s) && s.stage != TRIGGER_FIRED
    ensures FeedAll(setup.pattern, Leftover(s.window)) == Armed(s.window, |s.window|)
    ensures InStep(s, Armed(s.window, |s.window|))
  {
    if s.window != [] {
      CarriedWhole(setup.pattern, s.window);
    }
    assert s.bus == [Header] + [MetaLogic];
    DataPacketsOfJoin([Header], [MetaLogic]);
    LoneHasNothingBefore(Header);
    LoneHasNothingBefore(MetaLogic);
  }

  lemma {:induction false} RunInStep(setup: Setup, s: State, events: seq<Event>)
    requires Started(setup, s) && s.stage != TRIGGER_FIRED
    ensures InStep(Run(setup, s, events), FeedAll(setup.pattern, Fed(setup, s, events)))
  {
    if events == [] {
      assert Fed(setup, s, []) == Leftover(s.window);
      StartInStep(setup, s);
    } else {
      var init, last := events[..|events| - 1], events[|events| - 1];
      var before, fed := Run(setup, s, init), Fed(setup, s, init);
      RunInStep(setup, s, init);
      FedSnoc(setup, s, events);
      StepInStep(setup, before, FeedAll(setup.pattern, fed), last);
      if Accepts(before, last) {
        FeedSnoc(setup.pattern, fed, last.samples);
      } else {
        assert fed + [] == fed;
      }
    }
  }

  /** The whole run with a trigger set: nothing is reported unless the matcher fires; then TRIGGER is the
      first data packet and the only one of its kind, and the samples sent are the stream from the first
      sample of a complete match on. The stream is what was left in the window and the accepted samples. */
  lemma OutputFromTrigger(setup: Setup, s: State, events: seq<Event>)
    requires Started(setup, s) && s.stage != TRIGGER_FIRED
    ensures var stream := s.window + Flatten(AcceptedTransfers(setup, s, events));
            var data := DataPackets(Run(setup, s, events).bus);
            match FeedAll(setup.pattern, Fed(setup, s, events))
            case Armed(_, _) => data == []
            case Triggered(_, start) =>
              && FullMatch(setup.pattern, stream, start)
              && data != [] && data[0] == Trigger && AllLogic(data[1..])
              && Payload(data) == stream[start..]
  {
    RunInStep(setup, s, events);
    FlattenFed(setup, s, events);
  }

  /** Samples of an earlier acquisition are sent if and only if they are the start of a complete match: then
      everything is sent, beginning with what was left; otherwise only accepted samples are, from some
      point on. */
  lemma LeftoverIsSentIff(setup: Setup, s: State, events: seq<Event>)
    requires Started(setup, s) && s.window != []
    ensures var fed := FeedAll(setup.pattern, Fed(setup, s, events));
            var stream := s.window + Flatten(AcceptedTransfers(setup, s, events));
            && (fed.Triggered? && fed.start < |s.window| <==> FullMatch(setup.pattern, stream, 0))
            && (fed.Triggered? && fed.start < |s.window| ==> fed.start == 0)
    ensures var accepted := Flatten(AcceptedTransfers(setup, s, events));
            var sent := Payload(DataPackets(Run(setup, s, events).bus));
            if FullMatch(setup.pattern, s.window + accepted, 0) then sent == s.window + accepted
            else |sent| <= |accepted| && sent == accepted[|accepted| - |sent|..]
  {
    LeftoverMatches(setup, s, events);
    OutputFromTrigger(setup, s, events);
    var fed, accepted := FeedAll(setup.pattern, Fed(setup, s, events)), Flatten(AcceptedTransfers(setup, s, events));
    if fed.Triggered? && |s.window| <= fed.start <= |s.window + accepted| {
      EndOfSecond(s.window, accepted, fed.start);
    }
  }

  lemma EndOfSecond<T>(a: seq<T>, b: seq<T>, i: nat)
    requires |a| <= i <= |a + b|
    ensures (a + b)[i..] == b[i - |a|..]
  {
  }

  /** A match that begins in what was left begins at its start. */
  lemma LeftoverMatches(setup: Setup, s: State, events: seq<Event>)
    requires Started(setup, s) && s.window != []
    ensures var fed := FeedAll(setup.pattern, Fed(setup, s, events));
            var stream := s.window + Flatten(AcceptedTransfers(setup, s, events));
            && (fed.Triggered? && fed.start < |s.window| <==> FullMatch(setup.pattern, stream, 0))
            && (fed.Triggered? && fed.start < |s.window| ==> fed.start == 0)
  {
    var transfers := Fed(setup, s, events);
    FlattenFed(setup, s, events);
    CarriedWhole(setup.pattern, s.window);
    NeverInsideCarried(setup.pattern, s.window, transfers);
    if FullMatch(setup.pattern, Flatten(transfers), 0) {
      MatchAtStart(setup.pattern, transfers);
    }
  }

  /** A match does not start inside what was carried from the start, except at its start. */
  lemma {:induction false} NeverInsideCarried(pattern: seq<Stage>, window: seq<Word16>, transfers: seq<seq<Word16>>)
    requires transfers != [] && transfers[0] == window && |window| < |pattern| && Viable(pattern, window, 0)
    ensures match FeedAll(pattern, transfers)
            case Armed(seen, carry) => carry == |seen| || |window| <= |seen| - carry
            case Triggered(_, start) => start == 0 || |window| <= start
    decreases |transfers|
  {
    if |transfers| == 1 {
      assert transfers == [window];
      CarriedWhole(pattern, window);
    } else {
      var init := transfers[..|transfers| - 1];
      NeverInsideCarried(pattern, window, init);
      FlattenPrefix(init, 1);
      CarriedWhole(pattern, window);
      assert init[..1] == [window];
    }
  }

  /** The whole run without a trigger: every accepted sample is sent, in order, and no TRIGGER. */
  lemma {:induction false} OutputWithoutTrigger(setup: Setup, s: State, events: seq<Event>)
    requires Started(setup, s) && s.stage == TRIGGER_FIRED
    ensures var r := Run(setup, s, events);
            && r.stage == TRIGGER_FIRED && AllLogic(DataPackets(r.bus))
            && Payload(DataPackets(r.bus)) == Flatten(AcceptedTransfers(setup, s, events))
  {
    if events == [] {
      assert s.bus == [Header] + [MetaLogic];
      DataPacketsOfJoin([Header], [MetaLogic]);
      LoneHasNothingBefore(Header);
      LoneHasNothingBefore(MetaLogic);
    } else {
      var init, last := events[..|events| - 1], events[|events| - 1];
      OutputWithoutTrigger(setup, s, init);
      StepWithoutTrigger(setup, Run(setup, s, init), last);
      if Accepts(Run(setup, s, init), last) {
        FlattenSnoc(AcceptedTransfers(setup, s, init), last.samples);
      } else {
        assert AcceptedTransfers(setup, s, init) + [] == AcceptedTransfers(setup, s, init);
      }
    }
  }

  lemma StepWithoutTrigger(setup: Setup, s: State, e: Event)
    requires s.stage == TRIGGER_FIRED && AllLogic(DataPackets(s.bus))
    ensures var r := Step(setup, s, e);
            && r.stage == TRIGGER_FIRED && AllLogic(DataPackets(r.bus))
            && Payload(DataPackets(r.bus)) == Payload(DataPackets(s.bus)) + (if Accepts(s, e) then e.samples else [])
  {
    if Accepts(s, e) {
      AcceptWithoutTrigger(setup, s, e);
    } else {
      IgnoredKeepsReport(setup, s, e);
    }
  }

  lemma AcceptWithoutTrigger(setup: Setup, s: State, e: Event)
    requires s.stage == TRIGGER_FIRED && AllLogic(DataPackets(s.bus)) && Accepts(s, e)
    ensures var r := Step(setup, s, e);
            && r.stage == TRIGGER_FIRED && AllLogic(DataPackets(r.bus))
            && Payload(DataPackets(r.bus)) == Payload(DataPackets(s.bus)) + e.samples
  {
    AcceptedKeepsReport(setup, s, e);
    OneMoreLogic(s.bus, e.samples);
  }

  lemma OneMoreLogic(bus: seq<SamplePacket>, samples: seq<Word16>)
    requires AllLogic(DataPackets(bus))
    ensures AllLogic(DataPackets(bus + [Logic(samples)]))
    ensures Payload(DataPackets(bus + [Logic(samples)])) == Payload(DataPackets(bus)) + samples
  {
    DataPacketsSnoc(bus, samples);
    PayloadSnoc(DataPackets(bus), Logic(samples));
  }

  lemma DataPacketsSnoc(bus: seq<SamplePacket>, samples: seq<Word16>)
    ensures DataPackets(bus + [Logic(samples)]) == DataPackets(bus) + [Logic(samples)]
  {
    assert (bus + [Logic(samples)])[..|bus|] == bus;
  }

  // The sample limit.

  /** No listener stops the session from inside a data packet, and no transfer holds more than `size` samples. */
  predicate Ordinary(events: seq<Event>, size: nat) {
    forall i :: 0 <= i < |events| && events[i].Completion? ==> !events[i].stopInData && |events[i].samples| <= size
  }

  /** The samples sent so far against the driver's counter: the matched window may reach back, by less
      than its length, into transfers that were not counted. */
  ghost predicate WithinLimit(setup: Setup, s: State, size: nat) {
    var sent := |Payload(DataPackets(s.bus))|;
    && Counting(s)
    && (s.stage != TRIGGER_FIRED ==> s.numSamples <= 0 && sent == 0)
    && (s.numSamples == ABORTED ==> sent < |setup.pattern| + setup.limit + size)
    && (s.numSamples != ABORTED ==> sent < |setup.pattern| + s.numSamples && s.numSamples <= setup.limit)
  }

  lemma ScanCounts(pattern: seq<Stage>, carry: seq<Word16>, samples: seq<Word16>)
    requires |carry| < |pattern|
    ensures match Scan(pattern, carry, samples)
            case Waiting(_) => true
            case Fired(window, rest) => |window| + |rest| < |pattern| + |samples|
  {
  }

  lemma AcceptCounts(setup: Setup, s: State, samples: seq<Word16>)
    requires setup.pattern != [] && s.numSamples != ABORTED && |s.window| < |setup.pattern|
    requires s.stage != TRIGGER_FIRED ==> s.numSamples == 0 && Payload(DataPackets(s.bus)) == []
    requires |Payload(DataPackets(s.bus))| < |setup.pattern| + s.numSamples
    ensures var r := Accept(setup, s, samples, false);
            && |Payload(DataPackets(r.bus))| < |setup.pattern| + r.numSamples
            && (r.stage != TRIGGER_FIRED ==> r.numSamples == 0 && Payload(DataPackets(r.bus)) == [])
            && (r.stage == TRIGGER_FIRED ==> r.numSamples == s.numSamples + |samples|)
  {
    if s.stage == TRIGGER_FIRED {
      DataOfOne(samples);
      DataPacketsOfJoin(s.bus, [Logic(samples)]);
      PayloadOfJoin(DataPackets(s.bus), [Logic(samples)]);
    } else {
      ScanCounts(setup.pattern, s.window, samples);
      var (_, packets) := Search(setup, s, samples);
      if packets != [] {
        DataOfThree(packets[1].samples, packets[2].samples);
        DataPacketsOfJoin(s.bus, packets);
        PayloadOfJoin(DataPackets(s.bus), packets);
      }
    }
  }

  lemma FreeCounter(s: State, id: nat, stopInEnd: bool)
    ensures Free(s, id, stopInEnd).numSamples in {s.numSamples, ABORTED}
  {
  }

  lemma IgnoredCounter(setup: Setup, s: State, e: Event)
    requires !Accepts(s, e)
    ensures Step(setup, s, e).numSamples in {s.numSamples, ABORTED}
  {
    if e.Completion? && !(s.numSamples == ABORTED || e.status == NoDevice) {
      FreeCounter(s.(empties := s.empties + 1), e.id, e.stopInEnd);
    }
  }

  lemma AcceptedCounter(setup: Setup, s: State, e: Event)
    requires Accepts(s, e)
    ensures var accepted := Accept(setup, s.(empties := 0), e.samples, e.stopInData);
            var r := Step(setup, s, e);
            && r.numSamples in {accepted.numSamples, ABORTED}
            && (accepted.stage == TRIGGER_FIRED && r.numSamples != ABORTED && setup.limit > 0 ==>
                  accepted.numSamples <= setup.limit)
  {
    FreeCounter(Accept(setup, s.(empties := 0), e.samples, e.stopInData), e.id, e.stopInEnd);
  }

  lemma StepWithinLimit(setup: Setup, s: State, e: Event, size: nat)
    requires setup.pattern != [] && setup.limit > 0 && |s.window| < |setup.pattern|
    requires e.Completion? ==> !e.stopInData && |e.samples| <= size
    requires WithinLimit(setup, s, size)
    ensures WithinLimit(setup, Step(setup, s, e), size)
  {
    if Accepts(s, e) {
      AcceptCounts(setup, s.(empties := 0), e.samples);
      AcceptedKeepsReport(setup, s, e);
      AcceptedCounter(setup, s, e);
    } else {
      IgnoredKeepsReport(setup, s, e);
      IgnoredCounter(setup, s, e);
    }
  }

  /** With a sample limit, and no stop from inside a data packet, a run sends at most `limit` samples,
      plus one transfer, plus what the matched window reaches back; and as long as the driver is not
      stopping, its counter is within the limit. */
  lemma {:induction false} LimitIsKept(setup: Setup, s: State, events: seq<Event>, size: nat)
    requires Started(setup, s) && setup.limit > 0 && Ordinary(events, size)
    ensures var r := Run(setup, s, events);
            && WithinLimit(setup, r, size)
            && |Payload(DataPackets(r.bus))| < |setup.pattern| + setup.limit + size
            && |r.window| < |setup.pattern|
  {
    if events == [] {
      assert s.bus == [Header] + [MetaLogic];
      DataPacketsOfJoin([Header], [MetaLogic]);
      LoneHasNothingBefore(Header);
      LoneHasNothingBefore(MetaLogic);
    } else {
      var init, last := events[..|events| - 1], events[|events| - 1];
      LimitIsKept(setup, s, init, size);
      StepWithinLimit(setup, Run(setup, s, init), last, size);
      StepKeepsWindow(setup, Run(setup, s, init), last);
    }
  }

  lemma StepKeepsWindow(setup: Setup, s: State, e: Event)
    requires setup.pattern != [] && |s.window| < |setup.pattern|
    ensures |Step(setup, s, e).window| < |setup.pattern|
  {
    if Accepts(s, e) {
      AcceptedKeepsReport(setup, s, e);
    } else {
      IgnoredKeepsReport(setup, s, e);
    }
  }

  // The counter and the samples sent.

  /** The samples fed before the transfer the matcher fires in; if it has not fired, all of them. */
  ghost function FedBefore(pattern: seq<Stage>, transfers: seq<seq<Word16>>): nat
    requires pattern != []
  {
    if transfers == [] then 0
    else
      var init := transfers[..|transfers| - 1];
      if FeedAll(pattern, init).Triggered? then FedBefore(pattern, init) else |Flatten(init)|
  }

  /** The driver counts from the start of the transfer that fires, not from the match. */
  ghost predicate CountsFrom(setup: Setup, s: State, transfers: seq<seq<Word16>>)
    requires setup.pattern != []
  {
    s.numSamples != ABORTED ==>
      match FeedAll(setup.pattern, transfers)
      case Armed(_, _) => s.numSamples == 0
      case Triggered(seen, _) => s.numSamples == |seen| - FedBefore(setup.pattern, transfers)
  }

  predicate Undisturbed(events: seq<Event>) {
    forall i :: 0 <= i < |events| && events[i].Completion? ==> !events[i].stopInData
  }

  lemma FedBeforeSnoc(pattern: seq<Stage>, transfers: seq<seq<Word16>>, samples: seq<Word16>)
    requires pattern != []
    ensures FedBefore(pattern, transfers + [samples]) ==
            if FeedAll(pattern, transfers).Triggered? then FedBefore(pattern, transfers) else |Flatten(transfers)|
  {
    assert (transfers + [samples])[..|transfers|] == transfers;
  }

  lemma AcceptedCount(setup: Setup, s: State, m: Matcher, samples: seq<Word16>)
    requires setup.pattern != [] && ValidMatcher(setup.pattern, m) && InStep(s, m)
    ensures Accept(setup, s, samples, false).numSamples ==
            s.numSamples + (if Feed(setup.pattern, m, samples).Triggered? then |samples| else 0)
  {
    if m.Armed? {
      var w := FeedIsScan(setup.pattern, m, samples);
    }
  }

  lemma AcceptCountsFrom(setup: Setup, s: State, transfers: seq<seq<Word16>>, samples: seq<Word16>)
    requires setup.pattern != [] && InStep(s, FeedAll(setup.pattern, transfers))
    requires s.numSamples != ABORTED && CountsFrom(setup, s, transfers)
    ensures CountsFrom(setup, Accept(setup, s, samples, false), transfers + [samples])
  {
    AcceptedCount(setup, s, FeedAll(setup.pattern, transfers), samples);
    FeedSnoc(setup.pattern, transfers, samples);
    FedBeforeSnoc(setup.pattern, transfers, samples);
  }

  lemma {:induction false} RunCountsFrom(setup: Setup, s: State, events: seq<Event>)
    requires Started(setup, s) && s.stage != TRIGGER_FIRED && Undisturbed(events)
    ensures Counting(Run(setup, s, events)) && CountsFrom(setup, Run(setup, s, events), Fed(setup, s, events))
  {
    if events == [] {
      assert Fed(setup, s, []) == Leftover(s.window);
      StartInStep(setup, s);
    } else {
      var init, last := events[..|events| - 1], events[|events| - 1];
      var before, fed := Run(setup, s, init), Fed(setup, s, init);
      RunCountsFrom(setup, s, init);
      RunInStep(setup, s, init);
      FedSnoc(setup, s, events);
      StepCountsFrom(setup, before, fed, last);
      assert fed + [] == fed;
    }
  }

  lemma StepCountsFrom(setup: Setup, s: State, fed: seq<seq<Word16>>, e: Event)
    requires setup.pattern != [] && InStep(s, FeedAll(setup.pattern, fed)) && CountsFrom(setup, s, fed) && Counting(s)
    requires e.Completion? ==> !e.stopInData
    ensures Counting(Step(setup, s, e))
    ensures CountsFrom(setup, Step(setup, s, e), if Accepts(s, e) then fed + [e.samples] else fed)
  {
    if Accepts(s, e) {
      AcceptCountsFrom(setup, s.(empties := 0), fed, e.samples);
      AcceptedCounter(setup, s, e);
    } else {
      IgnoredCounter(setup, s, e);
    }
  }

  /** How many samples the driver has counted, once the matcher has fired; and how many of them lie before
      the match. The match may also have begun before the transfer that fires. */
  ghost function CountedBy(pattern: seq<Stage>, fed: seq<seq<Word16>>): int
    requires pattern != []
  {
    |Flatten(fed)| - FedBefore(pattern, fed)
  }

  ghost function Skipped(pattern: seq<Stage>, fed: seq<seq<Word16>>): int
    requires pattern != [] && FeedAll(pattern, fed).Triggered?
  {
    FeedAll(pattern, fed).start - FedBefore(pattern, fed)
  }

  lemma SentIsCountedLessSkipped(setup: Setup, s: State, fed: seq<seq<Word16>>)
    requires setup.pattern != [] && InStep(s, FeedAll(setup.pattern, fed)) && CountsFrom(setup, s, fed)
    requires s.numSamples != ABORTED && FeedAll(setup.pattern, fed).Triggered?
    ensures s.numSamples == CountedBy(setup.pattern, fed)
    ensures |Payload(DataPackets(s.bus))| == s.numSamples - Skipped(setup.pattern, fed)
  {
  }

  /** While the driver is not stopping, what it has counted and not sent is what lies before the match in
      the transfer that fired. */
  lemma SentAgainstCounted(setup: Setup, s: State, events: seq<Event>)
    requires Started(setup, s) && s.stage != TRIGGER_FIRED && Undisturbed(events)
    requires Run(setup, s, events).numSamples != ABORTED && FeedAll(setup.pattern, Fed(setup, s, events)).Triggered?
    ensures var r, fed := Run(setup, s, events), Fed(setup, s, events);
            && r.numSamples == CountedBy(setup.pattern, fed)
            && |Payload(DataPackets(r.bus))| == r.numSamples - Skipped(setup.pattern, fed)
  {
    RunCountsFrom(setup, s, events);
    RunInStep(setup, s, events);
    SentIsCountedLessSkipped(setup, Run(setup, s, events), Fed(setup, s, events));
  }

  /** The completion with which the limit ends a run. */
  ghost predicate EndsRun(setup: Setup, s: State, e: Event) {
    && Accepts(s, e) && !e.stopInData
    && var accepted := Accept(setup, s.(empties := 0), e.samples, false);
       accepted.stage == TRIGGER_FIRED && 0 < setup.limit < accepted.numSamples
  }

  /** The limit has been passed, as far as the transfers tell. */
  ghost predicate Over(pattern: seq<Stage>, limit: nat, fed: seq<seq<Word16>>)
    requires pattern != []
  {
    FeedAll(pattern, fed).Triggered? && 0 < limit < CountedBy(pattern, fed)
  }

  /** The driver's counter after one more transfer, in terms of the transfers. */
  lemma AcceptedIsCounted(setup: Setup, s: State, fed: seq<seq<Word16>>, samples: seq<Word16>)
    requires setup.pattern != [] && InStep(s, FeedAll(setup.pattern, fed)) && CountsFrom(setup, s, fed)
    requires s.numSamples >= 0
    ensures var after, accepted := fed + [samples], Accept(setup, s, samples, false);
            && InStep(accepted, FeedAll(setup.pattern, after)) && CountsFrom(setup, accepted, after)
            && (accepted.stage == TRIGGER_FIRED <==> FeedAll(setup.pattern, after).Triggered?)
            && accepted.numSamples >= 0
            && (accepted.stage == TRIGGER_FIRED ==> accepted.numSamples == CountedBy(setup.pattern, after))
  {
    FeedSnoc(setup.pattern, fed, samples);
    AcceptedCount(setup, s, FeedAll(setup.pattern, fed), samples);
    AcceptCountsFrom(setup, s, fed, samples);
    AcceptInStep(setup, s, FeedAll(setup.pattern, fed), samples, false);
  }

  /** Whether the limit ends the run with a completion can be told from the transfers. */
  lemma LimitEndsRunIff(setup: Setup, s: State, events: seq<Event>, e: Event)
    requires Started(setup, s) && s.stage != TRIGGER_FIRED && Undisturbed(events)
    requires Accepts(Run(setup, s, events), e) && !e.stopInData
    ensures EndsRun(setup, Run(setup, s, events), e) <==>
            Over(setup.pattern, setup.limit, Fed(setup, s, events) + [e.samples])
  {
    RunCountsFrom(setup, s, events);
    RunInStep(setup, s, events);
    AcceptedIsCounted(setup, Run(setup, s, events).(empties := 0), Fed(setup, s, events), e.samples);
  }

  /** When the limit ends a run, everything from the match on has been sent. That is fewer samples than the
      limit if and only if the driver has counted less beyond the limit than it has skipped before the match. */
  lemma LimitEndsRun(setup: Setup, s: State, events: seq<Event>, e: Event)
    requires Started(setup, s) && s.stage != TRIGGER_FIRED && Undisturbed(events)
    requires EndsRun(setup, Run(setup, s, events), e)
    ensures var before, fed := Run(setup, s, events), Fed(setup, s, events) + [e.samples];
            var numSamples := Accept(setup, before.(empties := 0), e.samples, false).numSamples;
            var r := Step(setup, before, e);
            && FeedAll(setup.pattern, fed).Triggered?
            && numSamples == CountedBy(setup.pattern, fed) && r.numSamples == ABORTED
            && |Payload(DataPackets(r.bus))| == |Flatten(fed)| - FeedAll(setup.pattern, fed).start
            && (|Payload(DataPackets(r.bus))| < setup.limit <==>
                  numSamples - setup.limit < Skipped(setup.pattern, fed))
  {
    RunCountsFrom(setup, s, events);
    RunInStep(setup, s, events);
    StepEndsRun(setup, Run(setup, s, events), Fed(setup, s, events), e);
  }

  lemma StepEndsRun(setup: Setup, s: State, fed: seq<seq<Word16>>, e: Event)
    requires setup.pattern != [] && InStep(s, FeedAll(setup.pattern, fed)) && CountsFrom(setup, s, fed)
    requires s.numSamples >= 0 && EndsRun(setup, s, e)
    ensures var after := fed + [e.samples];
            && FeedAll(setup.pattern, after).Triggered? && Step(setup, s, e).numSamples == ABORTED
            && Accept(setup, s.(empties := 0), e.samples, false).numSamples == CountedBy(setup.pattern, after)
            && |Payload(DataPackets(Step(setup, s, e).bus))| ==
               CountedBy(setup.pattern, after) - Skipped(setup.pattern, after)
  {
    var accepted := Accept(setup, s.(empties := 0), e.samples, false);
    AcceptedIsCounted(setup, s.(empties := 0), fed, e.samples);
    SentIsCountedLessSkipped(setup, accepted, fed + [e.samples]);
    AcceptedKeepsReport(setup, s, e);
    EndsAborted(setup, s, e);
  }

  lemma EndsAborted(setup: Setup, s: State, e: Event)
    requires EndsRun(setup, s, e)
    ensures Step(setup, s, e).numSamples == ABORTED
  {
    FreeCounter(Abort(Accept(setup, s.(empties := 0), e.samples, false)), e.id, e.stopInEnd);
  }

  // A run in which nothing goes wrong.

  /** Every completion brings samples and is submitted again, and nobody stops. */
  predicate Plain(events: seq<Event>) {
    events == [] || (IsPlain(events[|events| - 1]) && Plain(events[..|events| - 1]))
  }

  predicate IsPlain(e: Event) {
    Brings(e) && e.resubmitOk && !e.stopInData
  }

  function Brought(events: seq<Event>): seq<seq<Word16>>
    requires Plain(events)
  {
    if events == [] then [] else Brought(events[..|events| - 1]) + [events[|events| - 1].samples]
  }

  /** The transfers up to the one that passes the limit. */
  ghost function Taken(pattern: seq<Stage>, limit: nat, first: seq<seq<Word16>>, more: seq<seq<Word16>>): seq<seq<Word16>>
    requires pattern != []
  {
    if more == [] then first
    else
      var taken := Taken(pattern, limit, first, more[..|more| - 1]);
      if Over(pattern, limit, taken) then taken else taken + [more[|more| - 1]]
  }

  /** The limit is passed by the last transfer taken, and not before. */
  lemma {:induction false} TakenIsLeast(pattern: seq<Stage>, limit: nat, first: seq<seq<Word16>>, more: seq<seq<Word16>>)
    requires pattern != [] && !Over(pattern, limit, first)
    ensures var taken := Taken(pattern, limit, first, more);
            Over(pattern, limit, taken) ==> |first| < |taken| && !Over(pattern, limit, taken[..|taken| - 1])
  {
    if more != [] {
      var taken, last := Taken(pattern, limit, first, more[..|more| - 1]), more[|more| - 1];
      TakenIsLeast(pattern, limit, first, more[..|more| - 1]);
      TakenGrows(pattern, limit, first, more[..|more| - 1]);
      if !Over(pattern, limit, taken) {
        assert (taken + [last])[..|taken + [last]| - 1] == taken;
      }
    }
  }

  lemma {:induction false} TakenGrows(pattern: seq<Stage>, limit: nat, first: seq<seq<Word16>>, more: seq<seq<Word16>>)
    requires pattern != []
    ensures |first| <= |Taken(pattern, limit, first, more)|
  {
    if more != [] {
      TakenGrows(pattern, limit, first, more[..|more| - 1]);
    }
  }

  lemma {:induction false} PlainIsUndisturbed(events: seq<Event>)
    requires Plain(events)
    ensures Undisturbed(events)
  {
    if events != [] {
      PlainIsUndisturbed(events[..|events| - 1]);
    }
  }

  /** The samples from the match on. */
  function FromMatch(m: Matcher): seq<Word16> {
    if m.Triggered? && m.start <= |m.seen| then m.seen[m.start..] else []
  }

  /** In such a run the transfers alone decide which of them ends it, and what has been sent. */
  lemma PlainRun(setup: Setup, s: State, events: seq<Event>)
    requires Started(setup, s) && s.stage != TRIGGER_FIRED && Plain(events)
    ensures var r := Run(setup, s, events);
            var taken := Taken(setup.pattern, setup.limit, Leftover(s.window), Brought(events));
            && (r.numSamples == ABORTED <==> Over(setup.pattern, setup.limit, taken))
            && Payload(DataPackets(r.bus)) == FromMatch(FeedAll(setup.pattern, taken))
  {
    PlainRunTakes(setup, s, events);
    RunInStep(setup, s, events);
  }

  lemma {:induction false} PlainRunTakes(setup: Setup, s: State, events: seq<Event>)
    requires Started(setup, s) && s.stage != TRIGGER_FIRED && Plain(events)
    ensures var taken := Taken(setup.pattern, setup.limit, Leftover(s.window), Brought(events));
            && Fed(setup, s, events) == taken
            && (Run(setup, s, events).numSamples == ABORTED <==> Over(setup.pattern, setup.limit, taken))
  {
    if events == [] {
      assert Fed(setup, s, []) == Leftover(s.window);
      StartInStep(setup, s);
    } else {
      var init, last := events[..|events| - 1], events[|events| - 1];
      PlainRunTakes(setup, s, init);
      FedSnoc(setup, s, events);
      PlainStep(setup, s, init, last);
    }
  }

  lemma PlainStep(setup: Setup, s: State, events: seq<Event>, e: Event)
    requires Started(setup, s) && s.stage != TRIGGER_FIRED && Plain(events) && IsPlain(e)
    ensures var before := Run(setup, s, events);
            var r := Step(setup, before, e);
            && (before.numSamples == ABORTED ==> !Accepts(before, e) && r.numSamples == ABORTED)
            && (before.numSamples != ABORTED ==>
                  && Accepts(before, e)
                  && (r.numSamples == ABORTED <==>
                        Over(setup.pattern, setup.limit, Fed(setup, s, events) + [e.samples])))
  {
    var before := Run(setup, s, events);
    if before.numSamples == ABORTED {
      IgnoredCounter(setup, before, e);
    } else {
      PlainIsUndisturbed(events);
      LimitEndsRunIff(setup, s, events, e);
      if EndsRun(setup, before, e) {
        EndsAborted(setup, before, e);
      } else {
        RunCountsFrom(setup, s, events);
        RunInStep(setup, s, events);
        AcceptedIsCounted(setup, before.(empties := 0), Fed(setup, s, events), e.samples);
      }
    }
  }

  /** The samples of the first `n` transfers. */
  function EndOf(transfers: seq<seq<Word16>>, n: nat): nat
    requires n <= |transfers|
  {
    |Flatten(transfers[..n])|
  }

  /** A transfer ends after more than `low` samples, and fewer than `high`. */
  ghost predicate EndsBetween(transfers: seq<seq<Word16>>, low: int, high: int) {
    exists n :: 0 <= n <= |transfers| && low < EndOf(transfers, n) < high
  }

  /** A transfer ends late enough for the limit as it is counted, from the start of the transfer that fired, and
      too early for the limit as it is meant, from the match. */
  ghost predicate EndsTooEarly(limit: nat, before: nat, m: Matcher, transfers: seq<seq<Word16>>)
    requires m.Triggered?
  {
    EndsBetween(transfers, before + limit, m.start + limit)
  }

  /** A run that the limit has ended has sent fewer samples than the limit if and only if some transfer ends in
      between. */
  lemma FallsShortIff(setup: Setup, s: State, events: seq<Event>)
    requires Started(setup, s) && s.stage != TRIGGER_FIRED && Plain(events)
    requires Over(setup.pattern, setup.limit, Taken(setup.pattern, setup.limit, Leftover(s.window), Brought(events)))
    ensures var all := Leftover(s.window) + Brought(events);
            var taken := Taken(setup.pattern, setup.limit, Leftover(s.window), Brought(events));
            && Run(setup, s, events).numSamples == ABORTED
            && (|Payload(DataPackets(Run(setup, s, events).bus))| < setup.limit <==>
                  EndsTooEarly(setup.limit, FedBefore(setup.pattern, taken), FeedAll(setup.pattern, taken), all))
  {
    StartInStep(setup, s);
    TakenFallsShort(setup.pattern, setup.limit, Leftover(s.window), Brought(events));
    PlainRun(setup, s, events);
  }

  lemma TakenFallsShort(pattern: seq<Stage>, limit: nat, first: seq<seq<Word16>>, more: seq<seq<Word16>>)
    requires pattern != [] && !Over(pattern, limit, first) && Over(pattern, limit, Taken(pattern, limit, first, more))
    ensures var taken := Taken(pattern, limit, first, more);
            |FromMatch(FeedAll(pattern, taken))| < limit <==>
              EndsTooEarly(limit, FedBefore(pattern, taken), FeedAll(pattern, taken), first + more)
  {
    var taken, all := Taken(pattern, limit, first, more), first + more;
    assert taken != [] && !Over(pattern, limit, taken[..|taken| - 1]) by {
      TakenIsLeast(pattern, limit, first, more);
    }
    LimitInLast(pattern, limit, taken);
    assert taken <= all by {
      TakenIsPrefix(pattern, limit, first, more);
    }
    LeastFallsShort(limit, FedBefore(pattern, taken), FeedAll(pattern, taken), taken, all);
  }

  lemma LeastFallsShort(limit: nat, before: nat, m: Matcher, taken: seq<seq<Word16>>, all: seq<seq<Word16>>)
    requires m.Triggered? && m.start <= |m.seen| && m.seen == Flatten(taken)
    requires taken != [] && taken <= all && |Flatten(taken[..|taken| - 1])| <= before + limit < |m.seen|
    ensures |FromMatch(m)| < limit <==> EndsTooEarly(limit, before, m, all)
  {
    EndsWithLeast(taken, all, before + limit, m.start + limit);
  }

  lemma EndsWithLeast(taken: seq<seq<Word16>>, all: seq<seq<Word16>>, low: int, high: int)
    requires taken != [] && taken <= all && |Flatten(taken[..|taken| - 1])| <= low < |Flatten(taken)|
    ensures EndsBetween(all, low, high) <==> |Flatten(taken)| < high
  {
    var k := |taken|;
    assert all[..k] == taken && all[..k - 1] == taken[..k - 1];
    assert EndOf(all, k) == |Flatten(taken)| && EndOf(all, k - 1) <= low;
    forall n | 0 <= n <= |all| && low < EndOf(all, n)
      ensures EndOf(all, k) <= EndOf(all, n)
    {
      EndGrows(all, n, k - 1);
      EndGrows(all, k, n);
    }
  }

  lemma EndGrows(all: seq<seq<Word16>>, n: nat, m: nat)
    requires n <= |all| && m <= |all|
    ensures n <= m ==> EndOf(all, n) <= EndOf(all, m)
  {
    if n <= m {
      FlattenPrefix(all[..m], n);
      assert all[..m][..n] == all[..n];
    }
  }

  lemma {:induction false} TakenIsPrefix(pattern: seq<Stage>, limit: nat, first: seq<seq<Word16>>, more: seq<seq<Word16>>)
    requires pattern != []
    ensures var taken := Taken(pattern, limit, first, more); taken <= first + more
  {
    if more != [] {
      TakenIsPrefix(pattern, limit, first, more[..|more| - 1]);
      TakenAllUnlessOver(pattern, limit, first, more[..|more| - 1]);
      LastLast(first, more);
    }
  }

  lemma {:induction false} TakenAllUnlessOver(pattern: seq<Stage>, limit: nat, first: seq<seq<Word16>>, more: seq<seq<Word16>>)
    requires pattern != []
    ensures var taken := Taken(pattern, limit, first, more); Over(pattern, limit, taken) || taken == first + more
  {
    if more == [] {
      assert first + more == first;
    } else {
      TakenAllUnlessOver(pattern, limit, first, more[..|more| - 1]);
      LastLast(first, more);
    }
  }

  /** Before the transfer that passes the limit, it had not been passed. */
  lemma LimitInLast(pattern: seq<Stage>, limit: nat, taken: seq<seq<Word16>>)
    requires pattern != [] && taken != [] && Over(pattern, limit, taken) && !Over(pattern, limit, taken[..|taken| - 1])
    ensures |Flatten(taken[..|taken| - 1])| <= FedBefore(pattern, taken) + limit < |Flatten(taken)|
  {
  }

  /** One stage, a limit of 3, and one transfer with the match on its fourth sample: one sample is sent. */
  lemma LimitFallsShort(setup: Setup, s: State, e: Event)
    requires setup == Setup([Stage(1, 1)], 3)
    requires s == State(0, [], 0, 0, 1, [Some(0)], {}, [Header, MetaLogic])
    requires e == Completion(0, Completed, [0, 0, 0, 1], true, false, false)
    ensures Started(setup, s) && Enabled(s, e)
    ensures Step(setup, s, e).numSamples == ABORTED
    ensures |Payload(DataPackets(Step(setup, s, e).bus))| == 1 < setup.limit
  {
    assert Started(setup, s) && Accepts(s, e) by {
      assert Viable(setup.pattern, s.window, 0);
    }
    assert Feed(setup.pattern, Armed([], 0), e.samples) == Triggered(e.samples, 3) by {
      FourthMatches(setup.pattern, e.samples);
    }
    FirstTransferEndsRun(setup, s, e, 3);
  }

  lemma FirstTransferEndsRun(setup: Setup, s: State, e: Event, start: nat)
    requires Started(setup, s) && s.stage == 0 && Accepts(s, e) && !e.stopInData
    requires Feed(setup.pattern, Armed([], 0), e.samples) == Triggered(e.samples, start)
    requires 0 < setup.limit < |e.samples|
    ensures Step(setup, s, e).numSamples == ABORTED
    ensures |Payload(DataPackets(Step(setup, s, e).bus))| == |e.samples| - start
  {
    StartInStep(setup, s);
    AcceptedCount(setup, s.(empties := 0), Armed([], 0), e.samples);
    AcceptInStep(setup, s.(empties := 0), Armed([], 0), e.samples, false);
    StepEndsRun(setup, s, [], e);
    FirstTransferFires(setup.pattern, e.samples, start);
  }

  lemma FirstTransferFires(pattern: seq<Stage>, samples: seq<Word16>, start: nat)
    requires pattern != [] && Feed(pattern, Armed([], 0), samples) == Triggered(samples, start)
    ensures var fed := [] + [samples];
            FeedAll(pattern, fed).Triggered? && CountedBy(pattern, fed) == |samples| && Skipped(pattern, fed) == start
  {
    FeedSnoc(pattern, [], samples);
    FedBeforeSnoc(pattern, [], samples);
    FlattenSnoc([], samples);
  }

  lemma FourthMatches(pattern: seq<Stage>, samples: seq<Word16>)
    requires pattern == [Stage(1, 1)] && samples == [0, 0, 0, 1]
    ensures Feed(pattern, Armed([], 0), samples) == Triggered(samples, 3)
  {
    assert And(0, 1) == 0 && And(1, 1) == 1;
    var w := FirstStart(pattern, samples, 0, 0, 0);
    assert !Hits(pattern[0], samples[0]) && !Hits(pattern[0], samples[1]) && !Hits(pattern[0], samples[2]);
    assert !Viable(pattern, samples, 0) && !Viable(pattern, samples, 1) && !Viable(pattern, samples, 2);
    assert Viable(pattern, samples, 3);
    assert [] + samples == samples;
  }

  /** Without a trigger every sample counted is sent. */
  lemma {:induction false} CountedIsSent(setup: Setup, s: State, events: seq<Event>)
    requires Started(setup, s) && s.stage == TRIGGER_FIRED && Undisturbed(events)
    ensures var r := Run(setup, s, events);
            Counting(r) && (r.numSamples != ABORTED ==> |Payload(DataPackets(r.bus))| == r.numSamples)
  {
    OutputWithoutTrigger(setup, s, events);
    if events == [] {
      assert Flatten(AcceptedTransfers(setup, s, [])) == [];
    } else {
      var init, last := events[..|events| - 1], events[|events| - 1];
      var before := Run(setup, s, init);
      CountedIsSent(setup, s, init);
      OutputWithoutTrigger(setup, s, init);
      StepWithoutTrigger(setup, before, last);
      if Accepts(before, last) {
        AcceptedCounter(setup, before, last);
      } else {
        IgnoredCounter(setup, before, last);
      }
    }
  }
}
