/** The events of the ASIX Sigma: words that hold a few samples of each probe. */
module SigmaUnpack {
  import opened Bits

  /** How many samples of how many probes an event holds. */
  datatype Layout = Layout(samplesPerEvent: nat, numProbes: nat) {
    predicate Valid() {
      samplesPerEvent >= 1
    }
  }

  /** In an event the samples of a probe are together: the bit that sample `k` of probe `l` is in. */
  function Place(y: Layout, k: nat, l: nat): (bit: nat)
  {
    if l == 0 then k else Place(y, k, l - 1) + y.samplesPerEvent
  }

  lemma {:induction false} PlaceIs(y: Layout, k: nat, l: nat)
    ensures Place(y, k, l) == l * y.samplesPerEvent + k
  {
    if l > 0 {
      PlaceIs(y, k, l - 1);
      MoreTimes(l, y.samplesPerEvent);
    }
  }

  lemma MoreTimes(n: nat, s: nat)
    requires n > 0
    ensures n * s == (n - 1) * s + s
  {
  }

  /** Sample `k` of an event, the first `n` probes of it. */
  function SampleOf(y: Layout, event: nat, k: nat, n: nat): nat {
    if n == 0 then 0
    else
      var rest := SampleOf(y, event, k, n - 1);
      if Bit(event, Place(y, k, n - 1)) then SetBit(rest, n - 1) else rest
  }

  lemma {:induction false} BitOfSample(y: Layout, event: nat, k: nat, n: nat, l: nat)
    ensures Bit(SampleOf(y, event, k, n), l) <==> l < n && Bit(event, l * y.samplesPerEvent + k)
  {
    if n == 0 {
      ZeroHasNoBits(l);
    } else {
      BitOfSample(y, event, k, n - 1, l);
      BitOfSetBit(SampleOf(y, event, k, n - 1), n - 1, l);
      PlaceIs(y, k, n - 1);
    }
  }

  /** The first `n` samples of an event. */
  function EventSamples(y: Layout, event: nat, n: nat): (samples: seq<nat>)
    ensures |samples| == n
  {
    if n == 0 then [] else EventSamples(y, event, n - 1) + [SampleOf(y, event, n - 1, y.numProbes)]
  }

  function SamplesOf(y: Layout, events: seq<nat>): seq<nat> {
    if events == [] then []
    else SamplesOf(y, events[..|events| - 1]) + EventSamples(y, events[|events| - 1], y.samplesPerEvent)
  }

  lemma {:induction false} LengthOfSamples(y: Layout, events: seq<nat>)
    ensures |SamplesOf(y, events)| == |events| * y.samplesPerEvent
  {
    if events != [] {
      LengthOfSamples(y, events[..|events| - 1]);
    }
  }
}
