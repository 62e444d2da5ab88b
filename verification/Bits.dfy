/** Machine words as natural numbers, and what C's operators do to their bits. Everything here holds
for every word width, so a word is not given one. */
module Bits {

  function Pow2(n: nat): (p: nat)
    ensures p > 0
  {
    if n == 0 then 1 else 2 * Pow2(n - 1)
  }

  /** `x & (1 << i)` is not 0. */
  predicate Bit(x: nat, i: nat) {
    if i == 0 then x % 2 == 1 else Bit(x / 2, i - 1)
  }

  /** `x | (1 << i)` */
  function SetBit(x: nat, i: nat): nat {
    if i == 0 then x / 2 * 2 + 1 else x % 2 + 2 * SetBit(x / 2, i - 1)
  }

  /** `x & ~(1 << i)` */
  function ClearBit(x: nat, i: nat): nat {
    if i == 0 then x / 2 * 2 else x % 2 + 2 * ClearBit(x / 2, i - 1)
  }

  /** `x & y` */
  function And(x: nat, y: nat): nat {
    if x == 0 || y == 0 then 0
    else (if x % 2 == 1 && y % 2 == 1 then 1 else 0) + 2 * And(x / 2, y / 2)
  }

  /** `x | y` */
  function Or(x: nat, y: nat): nat
    decreases x + y
  {
    if x == 0 then y else if y == 0 then x
    else (if x % 2 == 1 || y % 2 == 1 then 1 else 0) + 2 * Or(x / 2, y / 2)
  }

  /** `x ^ y` */
  function Xor(x: nat, y: nat): nat
    decreases x + y
  {
    if x == 0 then y else if y == 0 then x
    else (if x % 2 != y % 2 then 1 else 0) + 2 * Xor(x / 2, y / 2)
  }

  lemma {:induction false} ZeroHasNoBits(i: nat)
    ensures !Bit(0, i)
  {
    if i > 0 {
      ZeroHasNoBits(i - 1);
    }
  }

  lemma {:induction false} BitOfSetBit(x: nat, i: nat, j: nat)
    ensures Bit(SetBit(x, i), j) <==> i == j || Bit(x, j)
  {
    if i > 0 && j > 0 {
      BitOfSetBit(x / 2, i - 1, j - 1);
    }
  }

  lemma {:induction false} BitOfClearBit(x: nat, i: nat, j: nat)
    ensures Bit(ClearBit(x, i), j) <==> i != j && Bit(x, j)
  {
    if i > 0 && j > 0 {
      BitOfClearBit(x / 2, i - 1, j - 1);
    }
  }

  lemma {:induction false} BitOfAnd(x: nat, y: nat, i: nat)
    ensures Bit(And(x, y), i) <==> Bit(x, i) && Bit(y, i)
    decreases i
  {
    if x == 0 || y == 0 {
      ZeroHasNoBits(i);
    } else if i > 0 {
      BitOfAnd(x / 2, y / 2, i - 1);
    }
  }

  lemma {:induction false} BitOfOr(x: nat, y: nat, i: nat)
    ensures Bit(Or(x, y), i) <==> Bit(x, i) || Bit(y, i)
    decreases i
  {
    if x == 0 || y == 0 {
      ZeroHasNoBits(i);
    } else if i > 0 {
      BitOfOr(x / 2, y / 2, i - 1);
    }
  }

  lemma {:induction false} BitOfXor(x: nat, y: nat, i: nat)
    ensures Bit(Xor(x, y), i) <==> (Bit(x, i) != Bit(y, i))
    decreases i
  {
    if x == 0 || y == 0 {
      ZeroHasNoBits(i);
    } else if i > 0 {
      BitOfXor(x / 2, y / 2, i - 1);
    }
  }

  /** Words below `2^n` have no bits from `n` on. */
  lemma {:induction false} NoHighBits(x: nat, n: nat, i: nat)
    requires x < Pow2(n) && n <= i
    ensures !Bit(x, i)
  {
    if n == 0 {
      ZeroHasNoBits(i);
    } else {
      NoHighBits(x / 2, n - 1, i - 1);
    }
  }

  lemma {:induction false} BelowPow2(x: nat, n: nat)
    requires forall i :: n <= i ==> !Bit(x, i)
    ensures x < Pow2(n)
    decreases x, n
  {
    if n == 0 {
      if x > 0 {
        var i := SomeBit(x);
      }
    } else if x > 0 {
      forall i | n - 1 <= i ensures !Bit(x / 2, i) {
        assert !Bit(x, i + 1);
      }
      BelowPow2(x / 2, n - 1);
    }
  }

  /** A word that is not 0 has a bit. */
  lemma {:induction false} SomeBit(x: nat) returns (i: nat)
    requires x > 0
    ensures Bit(x, i)
  {
    if x % 2 == 1 {
      i := 0;
    } else {
      var j := SomeBit(x / 2);
      i := j + 1;
    }
  }

  lemma {:induction false} SetBitBelow(x: nat, i: nat, n: nat)
    requires x < Pow2(n) && i < n
    ensures SetBit(x, i) < Pow2(n)
    decreases n
  {
    if i > 0 {
      SetBitBelow(x / 2, i - 1, n - 1);
    }
  }

  /** A word is determined by its bits. */
  lemma {:induction false} SameBits(x: nat, y: nat)
    requires forall i: nat :: Bit(x, i) <==> Bit(y, i)
    ensures x == y
    decreases x + y
  {
    assert Bit(x, 0) <==> Bit(y, 0);
    if x + y > 0 {
      forall i: nat ensures Bit(x / 2, i) <==> Bit(y / 2, i) {
        assert Bit(x, i + 1) <==> Bit(y, i + 1);
      }
      SameBits(x / 2, y / 2);
    }
  }

  /** The bits of `x` and `y` agree where the mask has one. */
  ghost predicate AgreeWhere(mask: nat, x: nat, y: nat) {
    forall i: nat :: Bit(mask, i) ==> (Bit(x, i) <==> Bit(y, i))
  }

  lemma AgreeUnderMask(x: nat, y: nat, mask: nat)
    ensures And(x, mask) == And(y, mask) <==> AgreeWhere(mask, x, y)
  {
    forall i: nat
      ensures Bit(And(x, mask), i) <==> Bit(x, i) && Bit(mask, i)
      ensures Bit(And(y, mask), i) <==> Bit(y, i) && Bit(mask, i)
    {
      BitOfAnd(x, mask, i);
      BitOfAnd(y, mask, i);
    }
    if AgreeWhere(mask, x, y) {
      SameBits(And(x, mask), And(y, mask));
    }
  }

  /** Testing a bit with a shifted one. */
  lemma {:induction false} BitOfPow2(x: nat, i: nat)
    ensures And(x, Pow2(i)) != 0 <==> Bit(x, i)
    decreases i
  {
    if x == 0 {
      ZeroHasNoBits(i);
    } else if i > 0 {
      BitOfPow2(x / 2, i - 1);
    }
  }

  lemma {:induction false} Pow2Grows(m: nat, n: nat)
    requires m < n
    ensures Pow2(m) < Pow2(n)
  {
    if m < n - 1 {
      Pow2Grows(m, n - 1);
    }
  }

  lemma {:induction false} BitOfOnly(p: nat, i: nat)
    ensures Bit(Pow2(p), i) <==> i == p
  {
    if p == 0 {
      if i > 0 {
        ZeroHasNoBits(i - 1);
      }
    } else if i > 0 {
      BitOfOnly(p - 1, i - 1);
    }
  }

  /** All bits below `i`. */
  lemma {:induction false} BitOfOnes(i: nat, j: nat)
    ensures Bit(Pow2(i) - 1, j) <==> j < i
  {
    if i == 0 {
      ZeroHasNoBits(j);
    } else if j > 0 {
      assert (Pow2(i) - 1) / 2 == Pow2(i - 1) - 1;
      BitOfOnes(i - 1, j - 1);
    }
  }

  lemma Pow2Of16()
    ensures Pow2(8) == 0x100 && Pow2(16) == 0x10000
  {
    assert Pow2(2) == 4;
    assert Pow2(4) == 16;
    assert Pow2(6) == 64;
    assert Pow2(8) == 256;
    assert Pow2(10) == 1024;
    assert Pow2(12) == 4096;
    assert Pow2(14) == 16384;
  }
}
