/** Clock division: the rates a divider can make from a clock are the floors of its quotients. */
module FloorDivision {
  import opened Products

  /** The divider chosen for a rate, and the rate it gives. */
  function Achieved(clock: nat, rate: nat): nat
    requires 1 <= rate <= clock
  {
    DividerIsPositive(clock, rate);
    clock / (clock / rate)
  }

  lemma DividerIsPositive(clock: nat, rate: nat)
    requires 1 <= rate <= clock
    ensures clock / rate >= 1
  {
    AtLeastQuotient(clock, rate, 1);
  }

  /** `k` divides the clock no finer than the quotient: `k <= c / s` exactly if `k * s <= c`. */
  lemma AtLeastQuotient(c: nat, s: nat, k: nat)
    requires s >= 1
    ensures k <= c / s <==> k * s <= c
  {
    var q, r := c / s, c % s;
    assert c == q * s + r;
    if k <= q {
      Monotone(k, q, s);
    } else {
      Monotone(q + 1, k, s);
    }
  }

  /** The achieved rate is the smallest achievable one that is not below the wish: it is not below it,
      and no divider gives a rate in between. */
  lemma AchievedIsNextAbove(clock: nat, rate: nat, k: nat)
    requires 1 <= rate <= clock && k >= 1
    ensures rate <= Achieved(clock, rate)
    ensures rate <= clock / k ==> Achieved(clock, rate) <= clock / k
  {
    var d := clock / rate;
    DividerIsPositive(clock, rate);
    AtLeastQuotient(clock, rate, d);
    AtLeastQuotient(clock, d, rate);
    if rate <= clock / k {
      AtLeastQuotient(clock, k, rate);
      AtLeastQuotient(clock, rate, k);
      AtLeastQuotient(clock, d, Achieved(clock, rate));
      AtLeastQuotient(clock, k, Achieved(clock, rate));
      Monotone(k, d, Achieved(clock, rate));
    }
  }

  lemma AchievedIsInRange(clock: nat, rate: nat)
    requires 1 <= rate <= clock
    ensures 1 <= Achieved(clock, rate) <= clock
  {
    AchievedIsNextAbove(clock, rate, 1);
    AtLeastQuotient(clock, clock / rate, clock);
  }

  /** Asking for an achieved rate gives the same divider again. */
  lemma AchievedIsStable(clock: nat, rate: nat)
    requires 1 <= rate <= clock
    ensures 1 <= Achieved(clock, rate) <= clock
    ensures clock / Achieved(clock, rate) == clock / rate
    ensures Achieved(clock, Achieved(clock, rate)) == Achieved(clock, rate)
  {
    var d, f := clock / rate, Achieved(clock, rate);
    AchievedIsInRange(clock, rate);
    AchievedIsNextAbove(clock, rate, 1);
    AtLeastQuotient(clock, d, f);
    AtLeastQuotient(clock, f, d);
    AtLeastQuotient(clock, f, d + 1);
    AtLeastQuotient(clock, rate, d + 1);
    Monotone(rate, f, d + 1);
  }

  /** Small dividers can be told apart by the rates they give. */
  lemma QuotientOfQuotient(c: nat, k: nat)
    requires k >= 1 && k * k <= c
    ensures c / k >= k && c / (c / k) == k
  {
    var q := c / k;
    AtLeastQuotient(c, k, k);
    AtLeastQuotient(c, k, q);
    AtLeastQuotient(c, k, q + 1);
    AtLeastQuotient(c, q, k);
    AtLeastQuotient(c, q, k + 1);
  }
}
