/** Products of natural numbers. */
module Products {

  lemma Monotone(a: nat, b: nat, u: nat)
    requires a <= b
    ensures a * u <= b * u
  {
  }

  lemma Distribute(a: nat, b: nat, sum: nat, u: nat)
    requires a + b == sum
    ensures a * u + b * u == sum * u
  {
  }
}
