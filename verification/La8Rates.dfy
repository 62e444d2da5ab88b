/** The sample rates of the ChronoVu LA8: 100 MHz divided by 1 to 255. */
module La8Rates {
  import opened FloorDivision
  import opened Products

  const NO_DIVCOUNT: nat := 0xff

  function RateOf(divcount: nat): nat {
    100_000_000 / (divcount + 1)
  }

  ghost predicate Supported(rate: nat) {
    exists d :: 0 <= d < 255 && RateOf(d) == rate
  }

  /** Dividing the clock by a supported rate gives its divider back. */
  lemma DividerOfRate(divcount: nat)
    requires divcount < 255
    ensures RateOf(divcount) > 0 && 100_000_000 / RateOf(divcount) - 1 == divcount
  {
    SquareIsBelow(divcount + 1);
    QuotientOfQuotient(100_000_000, divcount + 1);
  }

  lemma SquareIsBelow(k: nat)
    requires k <= 255
    ensures k * k <= 100_000_000
  {
    Monotone(k, 255, k);
  }

  class Rates {
    const supportedSamplerates: array<nat>

    /** The table holds the rates in ascending order and ends with a 0. */
    ghost predicate Filled()
      reads supportedSamplerates
    {
      && supportedSamplerates.Length == 256
      && supportedSamplerates[255] == 0
      && forall i :: 0 <= i < 255 ==> supportedSamplerates[i] == RateOf(254 - i)
    }

    ghost predicate Valid()
      reads supportedSamplerates
    {
      supportedSamplerates.Length == 256 && (supportedSamplerates[0] != 0 ==> Filled())
    }

    constructor ()
      ensures Valid() && fresh(supportedSamplerates)
    {
      supportedSamplerates := new nat[256](_ => 0);
    }

    method FillIfNeeded()
      requires Valid()
      modifies supportedSamplerates
      ensures Filled()
    {
      if supportedSamplerates[0] != 0 {
        return;
      }
      for i := 0 to 255
        invariant forall k :: 255 - i <= k < 255 ==> supportedSamplerates[k] == RateOf(254 - k)
      {
        supportedSamplerates[254 - i] := 100_000_000 / (i + 1);
      }
      supportedSamplerates[255] := 0;
    }

    method IsValidSamplerate(samplerate: nat) returns (valid: bool)
      requires Valid()
      modifies supportedSamplerates
      ensures Filled()
      ensures valid <==> Supported(samplerate)
    {
      FillIfNeeded();
      for i := 0 to 255
        invariant Filled()
        invariant forall d :: 255 - i <= d < 255 ==> RateOf(d) != samplerate
      {
        assert supportedSamplerates[i] == RateOf(254 - i);
        if supportedSamplerates[i] == samplerate {
          return true;
        }
      }
      return false;
    }

    /** Every divider count is found from its rate, and nothing else gets one. */
    method SamplerateToDivcount(samplerate: nat) returns (divcount: nat)
      requires Valid()
      modifies supportedSamplerates
      ensures Valid()
      ensures forall d :: 0 <= d < 255 ==> (RateOf(d) == samplerate <==> divcount == d)
      ensures divcount == NO_DIVCOUNT <==> !Supported(samplerate)
    {
      forall d | 0 <= d < 255 ensures RateOf(d) > 0 && 100_000_000 / RateOf(d) - 1 == d {
        DividerOfRate(d);
      }
      if samplerate == 0 {
        return NO_DIVCOUNT;
      }
      var valid := IsValidSamplerate(samplerate);
      if !valid {
        return NO_DIVCOUNT;
      }
      return 100_000_000 / samplerate - 1;
    }
  }

  /** Higher counts give lower rates, so the table is in order and no rate occurs twice. */
  lemma RatesDescend(a: nat, b: nat)
    requires a < b < 255
    ensures RateOf(a) > RateOf(b)
  {
    DividerOfRate(a);
    DividerOfRate(b);
    AtLeastQuotient(100_000_000, b + 1, RateOf(b));
    AtLeastQuotient(100_000_000, a + 1, RateOf(b));
    Monotone(a + 1, b + 1, RateOf(b));
  }
}
