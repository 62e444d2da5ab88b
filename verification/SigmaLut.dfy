/** The look-up tables of the ASIX Sigma trigger. A table of 16 bits stands for a function of four inputs;
four of them, one for each four probes, together compare a sample with a masked value. */
module SigmaLut {
  import opened Bits
  import opened Bytes

  /** The four bits from bit `4 * i` on. */
  function Quad(x: nat, i: nat): (quad: nat)
    ensures quad < 16
  {
    if i == 0 then x % 16 else Quad(x / 16, i - 1)
  }

  lemma {:induction false} BitOfQuad(x: nat, i: nat, k: nat)
    requires k < 4
    ensures Bit(Quad(x, i), k) <==> Bit(x, 4 * i + k)
  {
    assert Pow2(4) == 16;
    BitOfParts(x % 16, x / 16, 4, 4 * i + k);
    if i > 0 {
      BitOfQuad(x / 16, i - 1, k);
    }
  }

  /** Input `j` of table `i` agrees with the value on the probes of that quad that are in the mask, so
      far as the first `n` of them are concerned. */
  predicate QuadAgrees(value: nat, mask: nat, i: nat, j: nat, n: nat) {
    forall k :: 0 <= k < n && Bit(mask, i * 4 + k) ==> (Bit(value, i * 4 + k) <==> Bit(j, k))
  }

  /** The entries of the tables that are set. */
  ghost predicate IsLut(entry: seq<nat>, value: nat, mask: nat) {
    && |entry| == 4
    && forall i, j :: 0 <= i < 4 && 0 <= j < 16 ==> (Bit(entry[i], j) <==> QuadAgrees(value, mask, i, j, 4))
  }

  /** All four tables say yes. */
  predicate Lookup(entry: seq<nat>, sample: nat)
    requires |entry| == 4
  {
    forall i :: 0 <= i < 4 ==> Bit(entry[i], Quad(sample, i))
  }

  method BuildLutEntry(value: nat, mask: nat, entry: array<nat>)
    requires entry.Length == 4
    modifies entry
    ensures IsLut(entry[..], value, mask)
  {
    for i := 0 to 4
      invariant forall h, j :: 0 <= h < i && 0 <= j < 16 ==> (Bit(entry[h], j) <==> QuadAgrees(value, mask, h, j, 4))
    {
      var word := BuildLutWord(value, mask, i);
      entry[i] := word;
    }
  }

  method BuildLutWord(value: nat, mask: nat, i: nat) returns (word: nat)
    ensures forall j :: 0 <= j < 16 ==> (Bit(word, j) <==> QuadAgrees(value, mask, i, j, 4))
  {
    word := 0xffff;
    AllOnes();
    for j := 0 to 16
      invariant forall h :: 0 <= h < 16 ==> (Bit(word, h) <==> h >= j || QuadAgrees(value, mask, i, h, 4))
    {
      for k := 0 to 4
        invariant forall h :: 0 <= h < 16 ==>
          (Bit(word, h) <==> h > j || QuadAgrees(value, mask, i, h, if h == j then k else 4))
      {
        if Bit(mask, i * 4 + k) && (!Bit(value, i * 4 + k) != !Bit(j, k)) {
          ClearOne(word, j);
          word := ClearBit(word, j);
        }
      }
    }
  }

  lemma AllOnes()
    ensures forall h :: 0 <= h < 16 ==> Bit(0xffff, h)
  {
    Pow2Of16();
    forall h | 0 <= h < 16 ensures Bit(0xffff, h) {
      BitOfOnes(16, h);
    }
  }

  lemma ClearOne(word: nat, j: nat)
    ensures forall h: nat :: Bit(ClearBit(word, j), h) <==> h != j && Bit(word, h)
  {
    forall h: nat ensures Bit(ClearBit(word, j), h) <==> h != j && Bit(word, h) {
      BitOfClearBit(word, j, h);
    }
  }

  /** The tables compare: they all say yes to a sample if and only if it has the value where the mask is set. */
  lemma LookupCompares(entry: seq<nat>, value: nat, mask: nat, sample: nat)
    requires IsLut(entry, value, mask) && mask < 0x1_0000
    ensures Lookup(entry, sample) <==> And(sample, mask) == And(value, mask)
  {
    AgreeUnderMask(sample, value, mask);
    if Lookup(entry, sample) {
      forall p: nat ensures Bit(mask, p) ==> (Bit(sample, p) <==> Bit(value, p)) {
        if p < 16 {
          assert p / 4 * 4 + p % 4 == p;
          AcceptedAgrees(entry, value, mask, sample, p / 4, p % 4);
        } else {
          Pow2Of16();
          NoHighBits(mask, 16, p);
        }
      }
    }
    if AgreeWhere(mask, sample, value) {
      forall i | 0 <= i < 4 ensures Bit(entry[i], Quad(sample, i)) {
        AgreeingIsAccepted(value, mask, sample, i);
      }
    }
  }

  lemma AcceptedAgrees(entry: seq<nat>, value: nat, mask: nat, sample: nat, i: nat, k: nat)
    requires IsLut(entry, value, mask) && Lookup(entry, sample) && i < 4 && k < 4
    ensures Bit(mask, i * 4 + k) ==> (Bit(sample, i * 4 + k) <==> Bit(value, i * 4 + k))
  {
    assert QuadAgrees(value, mask, i, Quad(sample, i), 4);
    BitOfQuad(sample, i, k);
  }

  lemma AgreeingIsAccepted(value: nat, mask: nat, sample: nat, i: nat)
    requires AgreeWhere(mask, sample, value)
    ensures QuadAgrees(value, mask, i, Quad(sample, i), 4)
  {
    forall k | 0 <= k < 4 && Bit(mask, i * 4 + k)
      ensures Bit(value, i * 4 + k) <==> Bit(Quad(sample, i), k)
    {
      BitOfQuad(sample, i, k);
    }
  }
}
