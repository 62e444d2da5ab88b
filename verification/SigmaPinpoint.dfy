/** The trigger settings of the ASIX Sigma, and the search for the exact sample after the hardware has
fired. The hardware asks for one of the edges, the search for all of them: they agree because no more than
one can be set. */
module SigmaPinpoint {
  import opened Bits
  import opened Options
  import opened Probes
  import opened SigmaTrigger

  // The settings.

  /** The first character of the trigger string, which is 0 if that is empty. */
  function Char(probe: Probe): Option<char> {
    if !probe.enabled || probe.trigger == None then None
    else if probe.trigger.value == "" then Some('\0')
    else Some(probe.trigger.value[0])
  }

  predicate IsEdge(probe: Probe) {
    Char(probe) == Some('r') || Char(probe) == Some('f')
  }

  function EdgeCount(probes: seq<Probe>): nat {
    if probes == [] then 0 else EdgeCount(probes[..|probes| - 1]) + (if IsEdge(probes[|probes| - 1]) then 1 else 0)
  }

  predicate AsksFor(probes: seq<Probe>, pin: nat, c: char) {
    probes != []
    && (AsksFor(probes[..|probes| - 1], pin, c)
        || (Char(probes[|probes| - 1]) == Some(c) && probes[|probes| - 1].index == pin + 1))
  }

  /** The level asked for on a pin. */
  function LevelOf(probes: seq<Probe>, pin: nat): Option<bool> {
    if probes == [] then None
    else
      var last := probes[|probes| - 1];
      if last.index == pin + 1 && Char(last) == Some('1') then Some(true)
      else if last.index == pin + 1 && Char(last) == Some('0') then Some(false)
      else LevelOf(probes[..|probes| - 1], pin)
  }

  ghost predicate IsSetup(t: Trigger, probes: seq<Probe>) {
    forall pin: nat :: PinIsSetup(t, probes, pin)
  }

  ghost predicate PinIsSetup(t: Trigger, probes: seq<Probe>, pin: nat) {
    && (Bit(t.risingMask, pin) <==> AsksFor(probes, pin, 'r'))
    && (Bit(t.fallingMask, pin) <==> AsksFor(probes, pin, 'f'))
    && (Bit(t.simpleMask, pin) <==> LevelOf(probes, pin).Some?)
    && (Bit(t.simpleValue, pin) <==> LevelOf(probes, pin) == Some(true))
  }

  /** At 100 MHz and above there are no level triggers. */
  predicate Acceptable(fast: bool, probes: seq<Probe>) {
    && EdgeCount(probes) <= 1
    && (fast ==> forall i :: 0 <= i < |probes| ==> Char(probes[i]) == None || IsEdge(probes[i]))
  }

  lemma {:induction false} EdgeCountGrows(probes: seq<Probe>, n: nat)
    requires n <= |probes|
    ensures EdgeCount(probes[..n]) <= EdgeCount(probes)
    decreases |probes|
  {
    if n == |probes| {
      assert probes[..n] == probes;
    } else {
      var init := probes[..|probes| - 1];
      assert probes[..n] == init[..n];
      EdgeCountGrows(init, n);
    }
  }

  /** An enabled probe's trigger begins with this character. */
  predicate Asks(probe: Probe, c: char) {
    probe.enabled && probe.trigger.Some? && probe.trigger.value != "" && probe.trigger.value[0] == c
  }

  predicate SomeAsks(probes: seq<Probe>, pin: nat, c: char) {
    exists n :: 0 <= n < |probes| && probes[n].index == pin + 1 && Asks(probes[n], c)
  }

  /** The masks have a bit for each pin that is asked for; and if no pin is named twice, the value has one for
      each that shall be high. */
  ghost predicate IsAsked(t: Trigger, probes: seq<Probe>) {
    forall pin: nat :: PinIsAsked(t, probes, pin)
  }

  ghost predicate PinIsAsked(t: Trigger, probes: seq<Probe>, pin: nat) {
    && (Bit(t.risingMask, pin) <==> SomeAsks(probes, pin, 'r'))
    && (Bit(t.fallingMask, pin) <==> SomeAsks(probes, pin, 'f'))
    && (Bit(t.simpleMask, pin) <==> SomeAsks(probes, pin, '0') || SomeAsks(probes, pin, '1'))
    && (DistinctIndices(probes) ==> (Bit(t.simpleValue, pin) <==> SomeAsks(probes, pin, '1')))
  }

  /** No two probes ask for an edge; and at high rates every trigger is an edge. */
  ghost predicate EdgesAreFew(fast: bool, probes: seq<Probe>) {
    && (forall i, j :: 0 <= i < j < |probes| ==> !(AsksEdge(probes[i]) && AsksEdge(probes[j])))
    && (fast ==> forall i :: 0 <= i < |probes| && probes[i].enabled && probes[i].trigger.Some? ==> AsksEdge(probes[i]))
  }

  predicate AsksEdge(probe: Probe) {
    Asks(probe, 'r') || Asks(probe, 'f')
  }

  lemma {:induction false} EdgesCounted(probes: seq<Probe>)
    ensures EdgeCount(probes) == 0 <==> forall i :: 0 <= i < |probes| ==> !AsksEdge(probes[i])
    ensures EdgeCount(probes) <= 1 <==>
              forall i, j :: 0 <= i < j < |probes| ==> !(AsksEdge(probes[i]) && AsksEdge(probes[j]))
  {
    if probes != [] {
      var init, last := probes[..|probes| - 1], probes[|probes| - 1];
      EdgesCounted(init);
      assert IsEdge(last) <==> AsksEdge(last);
      assert forall i :: 0 <= i < |init| ==> init[i] == probes[i];
    }
  }

  lemma AcceptableIff(fast: bool, probes: seq<Probe>)
    ensures Acceptable(fast, probes) <==> EdgesAreFew(fast, probes)
  {
    EdgesCounted(probes);
  }

  lemma {:induction false} AsksForIff(probes: seq<Probe>, pin: nat, c: char)
    requires c != '\0'
    ensures AsksFor(probes, pin, c) <==> SomeAsks(probes, pin, c)
  {
    if probes != [] {
      var init, last := probes[..|probes| - 1], probes[|probes| - 1];
      AsksForIff(init, pin, c);
      assert forall n :: 0 <= n < |init| ==> init[n] == probes[n];
    }
  }

  lemma {:induction false} LevelOfIff(probes: seq<Probe>, pin: nat)
    ensures LevelOf(probes, pin).Some? <==> SomeAsks(probes, pin, '0') || SomeAsks(probes, pin, '1')
    ensures DistinctIndices(probes) ==> (LevelOf(probes, pin) == Some(true) <==> SomeAsks(probes, pin, '1'))
  {
    if probes != [] {
      var init, last := probes[..|probes| - 1], probes[|probes| - 1];
      LevelOfIff(init, pin);
      assert forall n :: 0 <= n < |init| ==> init[n] == probes[n];
    }
  }

  lemma SetupIsAsked(t: Trigger, probes: seq<Probe>)
    requires IsSetup(t, probes)
    ensures IsAsked(t, probes)
  {
    forall pin: nat ensures PinIsAsked(t, probes, pin) {
      assert PinIsSetup(t, probes, pin);
      AsksForIff(probes, pin, 'r');
      AsksForIff(probes, pin, 'f');
      LevelOfIff(probes, pin);
    }
  }

  /** The settings with one more probe. */
  function Added(t: Trigger, probe: Probe): Trigger
    requires probe.index >= 1
  {
    var pin := probe.index - 1;
    match Char(probe)
    case None => t
    case Some(c) =>
      if c == '1' then t.(simpleMask := SetBit(t.simpleMask, pin), simpleValue := SetBit(t.simpleValue, pin))
      else if c == '0' then t.(simpleMask := SetBit(t.simpleMask, pin), simpleValue := ClearBit(t.simpleValue, pin))
      else if c == 'f' then t.(fallingMask := SetBit(t.fallingMask, pin))
      else if c == 'r' then t.(risingMask := SetBit(t.risingMask, pin))
      else t
  }

  lemma AddedIsSetup(t: Trigger, probes: seq<Probe>, probe: Probe)
    requires IsSetup(t, probes) && t.Valid() && 1 <= probe.index <= 16
    ensures IsSetup(Added(t, probe), probes + [probe]) && Added(t, probe).Valid()
  {
    assert (probes + [probe])[..|probes|] == probes;
    var at := probe.index - 1;
    Pow2Of16();
    SetBitBelow(t.simpleMask, at, 16);
    SetBitBelow(t.fallingMask, at, 16);
    SetBitBelow(t.risingMask, at, 16);
    forall pin: nat ensures PinIsSetup(Added(t, probe), probes + [probe], pin) {
      assert PinIsSetup(t, probes, pin);
      BitOfSetBit(t.simpleMask, at, pin);
      BitOfSetBit(t.simpleValue, at, pin);
      BitOfClearBit(t.simpleValue, at, pin);
      BitOfSetBit(t.fallingMask, at, pin);
      BitOfSetBit(t.risingMask, at, pin);
    }
  }

  /** Take the trigger settings from the probes. They are refused if more than one edge is asked for. */
  method ConfigureProbes(probes: seq<Probe>, fast: bool, oldUseTriggers: bool)
    returns (ok: bool, t: Trigger, useTriggers: bool)
    requires Wired(probes)
    ensures ok <==> EdgesAreFew(fast, probes)
    ensures ok ==> IsSetup(t, probes) && IsAsked(t, probes) && t.Valid() && AtMostOneEdge(t)
    ensures ok ==> (useTriggers <==> oldUseTriggers || exists i :: 0 <= i < |probes| && AsksEdge(probes[i]))
  {
    t := Trigger(0, 0, 0, 0);
    useTriggers := oldUseTriggers;
    var triggerSet := 0;
    AcceptableIff(fast, probes);
    forall pin: nat ensures !Bit(0, pin) {
      ZeroHasNoBits(pin);
    }
    for i := 0 to |probes|
      invariant IsSetup(t, probes[..i]) && t.Valid()
      invariant triggerSet == EdgeCount(probes[..i]) && Acceptable(fast, probes[..i])
      invariant useTriggers <==> oldUseTriggers || triggerSet == 1
    {
      var probe := probes[i];
      assert probes[..i + 1] == probes[..i] + [probe];
      assert probes[..i + 1][..i] == probes[..i];
      AddedIsSetup(t, probes[..i], probe);
      EdgeCountGrows(probes, i + 1);
      if Char(probe) == None {
        continue;
      }
      t := Added(t, probe);
      if fast {
        if triggerSet != 0 || !IsEdge(probe) {
          return false, t, useTriggers;
        }
        triggerSet := triggerSet + 1;
      } else {
        if IsEdge(probe) {
          triggerSet := triggerSet + 1;
        }
        if triggerSet > 1 {
          return false, t, useTriggers;
        }
      }
      if triggerSet != 0 {
        useTriggers := true;
      }
    }
    assert probes[..|probes|] == probes;
    OneEdge(t, probes);
    SetupIsAsked(t, probes);
    EdgesCounted(probes);
    ok := true;
  }

  ghost predicate AtMostOneEdge(t: Trigger) {
    forall a, b: Edge :: t.Requests(a) && t.Requests(b) ==> a == b
  }

  function CharOf(e: Edge): char {
    if e.rising then 'r' else 'f'
  }

  lemma {:induction false} EdgesCount(probes: seq<Probe>, e: Edge)
    requires AsksFor(probes, e.pin, CharOf(e))
    ensures EdgeCount(probes) >= 1
  {
    var init := probes[..|probes| - 1];
    if AsksFor(init, e.pin, CharOf(e)) {
      EdgesCount(init, e);
    }
  }

  lemma {:induction false} TwoEdgesCount(probes: seq<Probe>, a: Edge, b: Edge)
    requires AsksFor(probes, a.pin, CharOf(a)) && AsksFor(probes, b.pin, CharOf(b)) && a != b
    ensures EdgeCount(probes) >= 2
  {
    var init := probes[..|probes| - 1];
    if AsksFor(init, a.pin, CharOf(a)) {
      EdgesCount(init, a);
      if AsksFor(init, b.pin, CharOf(b)) {
        TwoEdgesCount(init, a, b);
      }
    } else {
      EdgesCount(init, b);
    }
  }

  lemma OneEdge(t: Trigger, probes: seq<Probe>)
    requires IsSetup(t, probes) && EdgeCount(probes) <= 1
    ensures AtMostOneEdge(t)
  {
    forall a, b: Edge | t.Requests(a) && t.Requests(b) ensures a == b {
      assert PinIsSetup(t, probes, a.pin) && PinIsSetup(t, probes, b.pin);
      if a != b {
        TwoEdgesCount(probes, a, b);
      }
    }
  }

  // The search.

  /** A sample that the search stops at. */
  predicate Stops(t: Trigger, last: nat, sample: nat) {
    && And(sample, t.simpleMask) == t.simpleValue
    && And(last, t.risingMask) == 0 && And(sample, t.risingMask) == t.risingMask
    && And(last, t.fallingMask) == t.fallingMask && And(sample, t.fallingMask) == 0
  }

  predicate StopsAt(t: Trigger, last: nat, samples: seq<nat>, i: nat)
    requires i < |samples|
  {
    Stops(t, if i == 0 then last else samples[i - 1], samples[i])
  }

  /** The first of `n` samples that the search stops at. */
  function FirstStop(t: Trigger, last: nat, samples: seq<nat>, n: nat): (first: Option<nat>)
    requires n <= |samples|
    ensures first.Some? ==> first.value < n
  {
    if n == 0 then None
    else
      var before := FirstStop(t, last, samples, n - 1);
      if before == None && StopsAt(t, last, samples, n - 1) then Some(n - 1) else before
  }

  /** Where the search puts the trigger: at the first of all if it does not stop. */
  function Search(t: Trigger, last: nat, samples: seq<nat>): (offset: nat)
    ensures offset < |samples| || offset == 0
  {
    var first := FirstStop(t, last, samples, |samples|);
    if first.Some? then first.value else 0
  }

  lemma {:induction false} FirstStopIsFirst(t: Trigger, last: nat, samples: seq<nat>, n: nat)
    requires n <= |samples|
    ensures
      match FirstStop(t, last, samples, n)
      case Some(i) => StopsAt(t, last, samples, i) && NeverStops(t, last, samples, i)
      case None => NeverStops(t, last, samples, n)
  {
    if n > 0 {
      FirstStopIsFirst(t, last, samples, n - 1);
    }
  }

  /** The search stops at no earlier sample than the one it gives, and if it stops at none, it gives the first. */
  lemma SearchIsFirst(t: Trigger, last: nat, samples: seq<nat>)
    requires samples != []
    ensures
      var offset := Search(t, last, samples);
      && NeverStops(t, last, samples, offset)
      && (StopsAt(t, last, samples, offset) || (offset == 0 && NeverStops(t, last, samples, |samples|)))
  {
    FirstStopIsFirst(t, last, samples, |samples|);
  }

  ghost predicate NeverStops(t: Trigger, last: nat, samples: seq<nat>, n: nat)
    requires n <= |samples|
  {
    forall i :: 0 <= i < n ==> !StopsAt(t, last, samples, i)
  }

  lemma {:induction false} FirstStopStays(t: Trigger, last: nat, samples: seq<nat>, m: nat, n: nat)
    requires m <= n <= |samples| && FirstStop(t, last, samples, m).Some?
    ensures FirstStop(t, last, samples, n) == FirstStop(t, last, samples, m)
  {
    if m < n {
      FirstStopStays(t, last, samples, m, n - 1);
    }
  }

  method GetTriggerOffset(samples: array<nat>, last: nat, t: Trigger) returns (offset: nat)
    requires samples.Length >= 8
    ensures offset == Search(t, last, samples[..8])
  {
    var lastSample := last;
    for i := 0 to 8
      invariant lastSample == if i <= 1 then last else samples[i - 2]
      invariant FirstStop(t, last, samples[..8], i) == None
    {
      if i > 0 {
        lastSample := samples[i - 1];
      }
      assert Stops(t, lastSample, samples[i]) <==> StopsAt(t, last, samples[..8], i);
      if And(samples[i], t.simpleMask) != t.simpleValue {
        continue;
      }
      if And(lastSample, t.risingMask) != 0 || And(samples[i], t.risingMask) != t.risingMask {
        continue;
      }
      if And(lastSample, t.fallingMask) != t.fallingMask || And(samples[i], t.fallingMask) != 0 {
        continue;
      }
      FirstStopStays(t, last, samples[..8], i + 1, 8);
      return i;
    }
    return 0;
  }

  lemma AndSelf(x: nat)
    ensures And(x, x) == x
  {
    forall i: nat ensures Bit(And(x, x), i) <==> Bit(x, i) {
      BitOfAnd(x, x, i);
    }
    SameBits(And(x, x), x);
  }

  /** `x & mask` is 0, or all of `mask`, if `x` has none, or all, of its bits. */
  lemma NoneOrAll(x: nat, mask: nat)
    ensures And(x, mask) == 0 <==> NoBitsOf(mask, x)
    ensures And(x, mask) == mask <==> AllBitsOf(mask, x)
  {
    AgreeUnderMask(x, 0, mask);
    AgreeUnderMask(x, mask, mask);
    AndSelf(mask);
    forall i: nat ensures !Bit(0, i) {
      ZeroHasNoBits(i);
    }
  }

  ghost predicate NoBitsOf(mask: nat, x: nat) {
    forall i: nat :: Bit(mask, i) ==> !Bit(x, i)
  }

  ghost predicate AllBitsOf(mask: nat, x: nat) {
    forall i: nat :: Bit(mask, i) ==> Bit(x, i)
  }

  /** The search stops where the levels match and every edge that was asked for occurs. */
  lemma SearchStops(t: Trigger, last: nat, sample: nat)
    ensures Stops(t, last, sample) <==> And(sample, t.simpleMask) == t.simpleValue && EveryEdge(t, last, sample)
  {
    NoneOrAll(last, t.risingMask);
    NoneOrAll(sample, t.risingMask);
    NoneOrAll(last, t.fallingMask);
    NoneOrAll(sample, t.fallingMask);
    if EveryEdge(t, last, sample) {
      EveryEdgeBits(t, last, sample);
    }
  }

  lemma EveryEdgeBits(t: Trigger, last: nat, sample: nat)
    requires EveryEdge(t, last, sample)
    ensures NoBitsOf(t.risingMask, last) && AllBitsOf(t.risingMask, sample)
    ensures AllBitsOf(t.fallingMask, last) && NoBitsOf(t.fallingMask, sample)
  {
    forall i: nat
      ensures Bit(t.risingMask, i) ==> !Bit(last, i) && Bit(sample, i)
      ensures Bit(t.fallingMask, i) ==> Bit(last, i) && !Bit(sample, i)
    {
      assert t.Requests(Edge(i, true)) ==> Edge(i, true).Occurs(last, sample);
      assert t.Requests(Edge(i, false)) ==> Edge(i, false).Occurs(last, sample);
    }
  }

  /** The edges the hardware fires on, and those the search stops at. */
  ghost predicate HardwareAgrees(t: Trigger) {
    forall before, now: nat ::
      EveryEdge(t, before, now) <==> NoEdgeRequested(t) || SomeEdge(t, before, now)
  }

  /** The hardware and the search look for the same if and only if no two edges are asked for. */
  lemma HardwareAgreesIff(t: Trigger)
    ensures HardwareAgrees(t) <==> AtMostOneEdge(t)
  {
    if AtMostOneEdge(t) {
      forall before, now: nat ensures EveryEdge(t, before, now) <==> NoEdgeRequested(t) || SomeEdge(t, before, now) {
        OneEdgeAgrees(t, before, now);
      }
    } else {
      var a: Edge, b: Edge :| t.Requests(a) && t.Requests(b) && a != b;
      TwoEdgesDisagree(t, a, b);
    }
  }

  lemma OneEdgeAgrees(t: Trigger, before: nat, now: nat)
    requires AtMostOneEdge(t)
    ensures EveryEdge(t, before, now) <==> NoEdgeRequested(t) || SomeEdge(t, before, now)
  {
    if NoEdgeRequested(t) {
      forall e: Edge ensures !t.Requests(e) {
        ZeroHasNoBits(e.pin);
      }
    } else {
      var e := SomeRequested(t);
    }
  }

  lemma SomeRequested(t: Trigger) returns (e: Edge)
    requires !NoEdgeRequested(t)
    ensures t.Requests(e)
  {
    if t.risingMask > 0 {
      var p := SomeBit(t.risingMask);
      e := Edge(p, true);
    } else {
      var p := SomeBit(t.fallingMask);
      e := Edge(p, false);
    }
  }

  /** Two edges asked for: when just the one occurs, the hardware fires, but the search goes on. */
  lemma TwoEdgesDisagree(t: Trigger, a: Edge, b: Edge)
    requires t.Requests(a) && t.Requests(b) && a != b
    ensures !HardwareAgrees(t)
  {
    var before, now := if a.rising then 0 else Pow2(a.pin), if a.rising then Pow2(a.pin) else 0;
    ZeroHasNoBits(a.pin);
    ZeroHasNoBits(b.pin);
    BitOfOnly(a.pin, a.pin);
    BitOfOnly(a.pin, b.pin);
    assert a.Occurs(before, now) && SomeEdge(t, before, now);
    assert !b.Occurs(before, now) && !EveryEdge(t, before, now);
  }

  /** Settings taken from the probes have at most one pin for the edge tables. */
  lemma {:induction false} FewPins(t: Trigger, n: nat)
    requires AtMostOneEdge(t)
    ensures |Pins(t, n)| <= 1
  {
    if n > 0 {
      FewPins(t, n - 1);
      if Pins(t, n - 1) != [] {
        var p := Pins(t, n - 1)[0];
        PinsAre(t, n - 1, p);
        NotTwoPins(t, p, n - 1);
      }
    }
  }

  lemma NotTwoPins(t: Trigger, p: nat, q: nat)
    requires AtMostOneEdge(t) && p < q && (Bit(t.risingMask, p) || Bit(t.fallingMask, p))
    ensures !Bit(t.risingMask, q) && !Bit(t.fallingMask, q)
  {
    var e := Edge(p, Bit(t.risingMask, p));
    assert t.Requests(e);
    assert !t.Requests(Edge(q, true)) && !t.Requests(Edge(q, false));
  }

  /** With settings taken from the probes, the search stops at a sample if and only if the hardware fires
      on it. */
  lemma SearchFindsWhatFired(t: Trigger, probes: seq<Probe>, luts: Luts, before: nat, now: nat)
    requires IsSetup(t, probes) && EdgeCount(probes) <= 1
    requires |luts.m0d| == 4 && |luts.m1d| == 4 && |luts.m2d| == 4
    requires Fires(luts, before, now) <==> LevelsMatch(t, now) && (NoEdgeRequested(t) || SomeEdge(t, before, now))
    ensures Fires(luts, before, now) <==> Stops(t, before, now)
  {
    OneEdge(t, probes);
    OneEdgeAgrees(t, before, now);
    SearchStops(t, before, now);
    forall i: nat ensures Bit(And(t.simpleValue, t.simpleMask), i) <==> Bit(t.simpleValue, i) {
      BitOfAnd(t.simpleValue, t.simpleMask, i);
      assert PinIsSetup(t, probes, i);
    }
    SameBits(And(t.simpleValue, t.simpleMask), t.simpleValue);
  }
}
