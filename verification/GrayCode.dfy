/** The trigger offset of the Hantek DSO: a loop that turns the device's number into a sample position. Going
from the lowest bit up and negating everything below a bit that is set undoes the Gray code x ^ (x >> 1), for
every width; the driver uses 24 bits. */
module GrayCode {
  import opened Bits

  /** The reflected Gray code. */
  function Encode(x: nat): nat {
    Xor(x, x / 2)
  }

  /** The parity of the bits `i..n` of `x`. */
  predicate SuffixParity(x: nat, i: nat, n: nat)
    decreases n - i
  {
    i < n && Bit(x, i) != SuffixParity(x, i + 1, n)
  }

  /** The loop after `i` of its rounds. */
  function Rounds(toff: nat, i: nat): nat {
    if i == 0 then toff
    else
      var before := Rounds(toff, i - 1);
      if Bit(before, i - 1) then Xor(before, Pow2(i - 1) - 1) else before
  }

  method ConvertTriggerOffset(toff: nat, width: nat) returns (offset: nat)
    ensures offset == Rounds(toff, width)
    ensures toff < Pow2(width) ==> offset < Pow2(width) && Encode(offset) == toff
  {
    offset := toff;
    var bitvalue := 1;
    var i := 0;
    while i < width
      invariant i <= width && bitvalue == Pow2(i) && offset == Rounds(toff, i)
    {
      BitOfPow2(offset, i);
      if And(offset, bitvalue) != 0 {
        offset := Xor(offset, bitvalue - 1);
      }
      bitvalue := bitvalue * 2;
      i := i + 1;
    }
    if toff < Pow2(width) {
      EncodesDecoded(toff, width);
    }
  }

  /** Round `i` tests a bit that no earlier round has touched, so after `i` rounds bit `j` has been
      inverted once for each set bit of the original between `j` and `i`. */
  lemma {:induction false} BitOfRounds(toff: nat, i: nat, j: nat)
    ensures Bit(Rounds(toff, i), j) <==> (Bit(toff, j) != SuffixParity(toff, j + 1, i))
  {
    if i > 0 {
      BitOfRounds(toff, i - 1, j);
      BitOfRounds(toff, i - 1, i - 1);
      BitOfXor(Rounds(toff, i - 1), Pow2(i - 1) - 1, j);
      BitOfOnes(i - 1, j);
      ParityOfLonger(toff, j + 1, i);
    }
  }

  lemma {:induction false} ParityOfLonger(x: nat, i: nat, n: nat)
    requires n > 0
    ensures SuffixParity(x, i, n) <==> (SuffixParity(x, i, n - 1) != (i < n && Bit(x, n - 1)))
    decreases n - i
  {
    if i < n {
      ParityOfLonger(x, i + 1, n);
    }
  }

  lemma BitOfEncode(x: nat, i: nat)
    ensures Bit(Encode(x), i) <==> (Bit(x, i) != Bit(x, i + 1))
  {
    BitOfXor(x, x / 2, i);
  }

  /** In a Gray-coded word the parity of the bits from `i` up is bit `i` of the original. */
  lemma {:induction false} ParityOfEncode(x: nat, i: nat, n: nat)
    requires i <= n && x < Pow2(n)
    ensures SuffixParity(Encode(x), i, n) <==> Bit(x, i)
    decreases n - i
  {
    if i == n {
      NoHighBits(x, n, n);
    } else {
      ParityOfEncode(x, i + 1, n);
      BitOfEncode(x, i);
    }
  }

  /** The loop decodes. */
  lemma DecodesEncoded(x: nat, n: nat)
    requires x < Pow2(n)
    ensures Rounds(Encode(x), n) == x
  {
    forall i: nat ensures Bit(Rounds(Encode(x), n), i) <==> Bit(x, i) {
      BitOfRounds(Encode(x), n, i);
      if i < n {
        ParityOfEncode(x, i, n);
      } else {
        NoHighBits(x, n, i);
        NoHighBits(x, n, i + 1);
        BitOfEncode(x, i);
      }
    }
    SameBits(Rounds(Encode(x), n), x);
  }

  /** Encoding what the loop computes gives back what the device sent, and the loop keeps the width:
      between words of `n` bits both are bijections. */
  lemma EncodesDecoded(toff: nat, n: nat)
    requires toff < Pow2(n)
    ensures Rounds(toff, n) < Pow2(n)
    ensures Encode(Rounds(toff, n)) == toff
  {
    var x := Rounds(toff, n);
    forall i: nat
      ensures Bit(x, i) <==> SuffixParity(toff, i, n)
    {
      BitOfRounds(toff, n, i);
      if n <= i {
        NoHighBits(toff, n, i);
      }
    }
    forall i | n <= i ensures !Bit(x, i) {
      assert !SuffixParity(toff, i, n);
    }
    BelowPow2(x, n);
    forall i: nat ensures Bit(Encode(x), i) <==> Bit(toff, i) {
      BitOfEncode(x, i);
      assert Bit(x, i) <==> SuffixParity(toff, i, n);
      assert Bit(x, i + 1) <==> SuffixParity(toff, i + 1, n);
      if n <= i {
        NoHighBits(toff, n, i);
      }
    }
    SameBits(Encode(x), toff);
  }

  /** Distinct device numbers give distinct offsets. */
  lemma DecodingIsInjective(a: nat, b: nat, n: nat)
    requires a < Pow2(n) && b < Pow2(n) && Rounds(a, n) == Rounds(b, n)
    ensures a == b
  {
    EncodesDecoded(a, n);
    EncodesDecoded(b, n);
  }
}
