/** Bytes in memory, and the little-endian words that `memcpy` reads from and writes to them. */
module Bytes {
  import opened Bits
  import opened Products

  type Byte = x: nat | x < 0x100

  /** The word `old` after `memcpy` has overwritten its first bytes. */
  function Overlay(old_: nat, bytes: seq<Byte>): nat {
    if bytes == [] then old_ else bytes[0] + 0x100 * Overlay(old_ / 0x100, bytes[1..])
  }

  function Word(bytes: seq<Byte>): nat {
    Overlay(0, bytes)
  }

  /** The first `n` bytes of a word. */
  function LowBytes(x: nat, n: nat): (bytes: seq<Byte>)
    ensures |bytes| == n
  {
    if n == 0 then [] else [x % 0x100] + LowBytes(x / 0x100, n - 1)
  }

  /** The bits of a word put together from a low part of `n` bits and the rest. */
  lemma {:induction false} BitOfParts(low: nat, high: nat, n: nat, i: nat)
    requires low < Pow2(n)
    ensures Bit(low + Pow2(n) * high, i) <==> if i < n then Bit(low, i) else Bit(high, i - n)
    decreases n
  {
    if n > 0 {
      var p := Pow2(n - 1);
      HalfOfParts(low, p, high);
      if i > 0 {
        BitOfParts(low / 2, high, n - 1, i - 1);
      }
    }
  }

  lemma HalfOfParts(low: nat, p: nat, high: nat)
    ensures (low + 2 * p * high) / 2 == low / 2 + p * high
    ensures (low + 2 * p * high) % 2 == low % 2
  {
    var q := p * high;
    assert 2 * p * high == 2 * q;
  }

  lemma BitOfByte(low: Byte, high: nat, i: nat)
    ensures Bit(low + 0x100 * high, i) <==> if i < 8 then Bit(low, i) else Bit(high, i - 8)
  {
    Pow2Of16();
    BitOfParts(low, high, 8, i);
  }

  /** Overwriting the first bytes of a word changes the bits they hold, and no others. */
  lemma {:induction false} BitOfOverlay(old_: nat, bytes: seq<Byte>, i: nat)
    ensures Bit(Overlay(old_, bytes), i) <==> if i < 8 * |bytes| then Bit(Word(bytes), i) else Bit(old_, i)
  {
    if bytes == [] {
    } else {
      BitOfByte(bytes[0], Overlay(old_ / 0x100, bytes[1..]), i);
      BitOfByte(bytes[0], Word(bytes[1..]), i);
      BitOfByte(old_ % 0x100, old_ / 0x100, i);
      if 8 <= i {
        BitOfOverlay(old_ / 0x100, bytes[1..], i - 8);
      }
    }
  }

  /** The bytes of a word in memory: the first one has the lowest bits. */
  lemma {:induction false} BitOfWord(bytes: seq<Byte>, i: nat)
    requires i < 8 * |bytes|
    ensures Bit(Word(bytes), i) <==> Bit(bytes[i / 8], i % 8)
  {
    BitOfByte(bytes[0], Word(bytes[1..]), i);
    if 8 <= i {
      BitOfWord(bytes[1..], i - 8);
      assert (i - 8) / 8 == i / 8 - 1 && (i - 8) % 8 == i % 8;
    }
  }

  lemma WordHasNoHighBits(bytes: seq<Byte>, i: nat)
    requires 8 * |bytes| <= i
    ensures !Bit(Word(bytes), i)
  {
    BitOfOverlay(0, bytes, i);
    ZeroHasNoBits(i);
  }

  lemma {:induction false} BitOfLowBytes(x: nat, n: nat, i: nat)
    ensures Bit(Word(LowBytes(x, n)), i) <==> i < 8 * n && Bit(x, i)
  {
    if n == 0 {
      ZeroHasNoBits(i);
    } else {
      BitOfByte(x % 0x100, Word(LowBytes(x / 0x100, n - 1)), i);
      BitOfByte(x % 0x100, x / 0x100, i);
      assert LowBytes(x, n)[1..] == LowBytes(x / 0x100, n - 1);
      if 8 <= i {
        BitOfLowBytes(x / 0x100, n - 1, i - 8);
      }
    }
  }

  /** As many bytes with the same word are the same bytes. */
  lemma {:induction false} WordIsInjective(a: seq<Byte>, b: seq<Byte>)
    requires |a| == |b| && Word(a) == Word(b)
    ensures a == b
  {
    if a != [] {
      assert a[0] == Word(a) % 0x100 && b[0] == Word(b) % 0x100;
      WordIsInjective(a[1..], b[1..]);
    }
  }

  /** The `n`th unit of a buffer of units of `u` bytes. */
  function Unit<T>(data: seq<T>, u: nat, n: nat): (unit: seq<T>)
    requires n * u + u <= |data|
    ensures |unit| == u
  {
    data[n * u..n * u + u]
  }

  function NumUnits(length: nat, u: nat): nat
    requires u > 0
  {
    length / u
  }

  lemma UnitFits(length: nat, u: nat, n: nat)
    requires u > 0
    ensures n < NumUnits(length, u) <==> n * u + u <= length
  {
    var q, r := length / u, length % u;
    assert length == q * u + r;
    if n < q {
      Monotone(n + 1, q, u);
    } else {
      Monotone(q, n, u);
    }
  }

  /** A loop that takes units of `u` bytes while there is a whole one left has taken them all. */
  lemma AllUnitsTaken(length: nat, u: nat, n: nat)
    requires u > 0 && n * u <= length < n * u + u
    ensures n == NumUnits(length, u)
  {
    UnitFits(length, u, n);
    if n > 0 {
      UnitFits(length, u, n - 1);
    }
  }

  /** memcpy */
  method CopyInto(dest: array<Byte>, at: nat, bytes: seq<Byte>)
    requires at + |bytes| <= dest.Length
    modifies dest
    ensures dest[..] == old(dest[..at]) + bytes + old(dest[at + |bytes|..])
  {
    forall i | 0 <= i < |bytes| {
      dest[at + i] := bytes[i];
    }
  }
}
