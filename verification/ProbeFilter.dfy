/** sr_filter_probes: samples cut down to the enabled probes. Whatever path is taken, each output
sample is the projection of its input sample; the copying shortcut is right exactly for the identity. */
module ProbeFilter {
  import opened Bits
  import opened Bytes
  import opened Products

  /** Output bit `b` is input bit `probelist[b] - 1`, and the bits after the list are 0. */
  ghost predicate Projects(probelist: seq<nat>, input: seq<Byte>, output: seq<Byte>) {
    forall b :: 0 <= b < 8 * |output| ==> (Bit(Word(output), b) <==> ProjectedBit(probelist, Word(input), b))
  }

  predicate ProjectedBit(probelist: seq<nat>, word: nat, b: nat) {
    b < |probelist| && probelist[b] >= 1 && Bit(word, probelist[b] - 1)
  }

  /** Every output unit of the first `count` projects its input unit. */
  ghost predicate ProjectsAll(probelist: seq<nat>, data: seq<Byte>, u: nat, output: seq<Byte>, v: nat, count: nat) {
    forall n :: 0 <= n < count ==>
      n * u + u <= |data| && n * v + v <= |output| && Projects(probelist, Unit(data, u, n), Unit(output, v, n))
  }

  /** 1-based probe numbers that a sample of `u` bytes has. */
  predicate InRange(probelist: seq<nat>, u: nat) {
    forall i :: 0 <= i < |probelist| ==> 1 <= probelist[i] <= 8 * u
  }

  /** Probe numbers, and places in the list, that `1 << (number - 1)` and `1 << place` can be computed
      for as a C int. */
  predicate Shiftable(probelist: seq<nat>) {
    |probelist| <= 31 && forall i :: 0 <= i < |probelist| ==> probelist[i] <= 31
  }

  /** The loop over the probes of one sample. */
  function PackedWord(probelist: seq<nat>, word: nat, k: nat): nat
    requires k <= |probelist| && forall i :: 0 <= i < |probelist| ==> 1 <= probelist[i]
  {
    if k == 0 then 0
    else if Bit(word, probelist[k - 1] - 1) then SetBit(PackedWord(probelist, word, k - 1), k - 1)
    else PackedWord(probelist, word, k - 1)
  }

  lemma {:induction false} BitOfPackedWord(probelist: seq<nat>, word: nat, k: nat, b: nat)
    requires k <= |probelist| && forall i :: 0 <= i < |probelist| ==> 1 <= probelist[i]
    ensures Bit(PackedWord(probelist, word, k), b) <==> b < k && ProjectedBit(probelist, word, b)
  {
    if k == 0 {
      ZeroHasNoBits(b);
    } else {
      BitOfPackedWord(probelist, word, k - 1, b);
      BitOfSetBit(PackedWord(probelist, word, k - 1), k - 1, b);
    }
  }

  /** The bytes stored for a sample project the bytes read for it, whatever the rest of the word held. */
  lemma PackedProjects(probelist: seq<nat>, stale: nat, input: seq<Byte>, v: nat)
    requires InRange(probelist, |input|)
    ensures Projects(probelist, input, LowBytes(PackedWord(probelist, Overlay(stale, input), |probelist|), v))
  {
    var word := Overlay(stale, input);
    var packed := PackedWord(probelist, word, |probelist|);
    forall b | 0 <= b < 8 * v
      ensures Bit(Word(LowBytes(packed, v)), b) <==> ProjectedBit(probelist, Word(input), b)
    {
      BitOfLowBytes(packed, v, b);
      BitOfPackedWord(probelist, word, |probelist|, b);
      if b < |probelist| {
        BitOfOverlay(stale, input, probelist[b] - 1);
      }
    }
  }

  method PackSample(probelist: seq<nat>, sampleIn: nat) returns (sampleOut: nat)
    requires forall i :: 0 <= i < |probelist| ==> 1 <= probelist[i]
    ensures sampleOut == PackedWord(probelist, sampleIn, |probelist|)
  {
    sampleOut := 0;
    var i := 0;
    while i < |probelist|
      invariant i <= |probelist| && sampleOut == PackedWord(probelist, sampleIn, i)
    {
      if Bit(sampleIn, probelist[i] - 1) {
        sampleOut := SetBit(sampleOut, i);
      }
      i := i + 1;
    }
  }

  lemma KeepsUnits(probelist: seq<nat>, data: seq<Byte>, u: nat, before: seq<Byte>, after: seq<Byte>, v: nat, n: nat)
    requires ProjectsAll(probelist, data, u, before, v, n)
    requires |before| == |after| && n * v + v <= |before| && before[..n * v] == after[..n * v]
    requires n * u + u <= |data| && Projects(probelist, Unit(data, u, n), after[n * v..n * v + v])
    ensures ProjectsAll(probelist, data, u, after, v, n + 1)
  {
    forall m | 0 <= m < n + 1
      ensures m * u + u <= |data| && m * v + v <= |after| && Projects(probelist, Unit(data, u, m), Unit(after, v, m))
    {
      if m < n {
        EndOfUnit(m, n, v);
        UnitOfPrefix(after, v, m, n * v);
        UnitOfPrefix(before, v, m, n * v);
      }
    }
  }

  /** The buffer is allocated with the length of the input, so it holds the output if that has no larger
      units; `length_in` must hold a sample, for the loop bound is computed without a sign. */
  method FilterProbes(inUnitsize: nat, outUnitsize: nat, probelist: seq<nat>, dataIn: seq<Byte>)
    returns (ok: bool, dataOut: array<Byte>, lengthOut: nat)
    requires 1 <= outUnitsize <= inUnitsize <= 8 && inUnitsize <= |dataIn|
    requires InRange(probelist, inUnitsize) && (Shiftable(probelist) || |probelist| == 8 * inUnitsize)
    ensures ok <==> |probelist| <= 8 * outUnitsize
    ensures ok ==> lengthOut <= dataOut.Length
    ensures ok && (|probelist| == 8 * inUnitsize ==> Identity(probelist)) ==>
              && NumUnits(lengthOut, outUnitsize) == NumUnits(|dataIn|, inUnitsize)
              && ProjectsAll(probelist, dataIn, inUnitsize, dataOut[..lengthOut], outUnitsize, NumUnits(|dataIn|, inUnitsize))
    ensures ok && |probelist| != 8 * inUnitsize ==> lengthOut == NumUnits(|dataIn|, inUnitsize) * outUnitsize
    ensures ok && |probelist| == 8 * inUnitsize ==> outUnitsize == inUnitsize && dataOut[..lengthOut] == dataIn
  {
    lengthOut := 0;
    if |probelist| > outUnitsize * 8 {
      dataOut := new Byte[0];
      return false, dataOut, 0;
    }
    dataOut := new Byte[|dataIn|];
    if |probelist| == inUnitsize * 8 {
      CopyInto(dataOut, 0, dataIn);
      assert dataOut[..|dataIn|] == dataIn;
      if Identity(probelist) {
        CopyProjects(probelist, dataIn, inUnitsize);
      }
      return true, dataOut, |dataIn|;
    }
    lengthOut := CompressAll(inUnitsize, outUnitsize, probelist, dataIn, dataOut);
    WholeProduct(NumUnits(|dataIn|, inUnitsize), outUnitsize);
    return true, dataOut, lengthOut;
  }

  /** One round of the loop over the samples. `sampleIn` still holds the previous sample. */
  method CompressSample(probelist: seq<nat>, unit: seq<Byte>, stale: nat, dataOut: array<Byte>, outOffset: nat, v: nat)
    returns (sampleIn: nat)
    requires outOffset + v <= dataOut.Length && InRange(probelist, |unit|)
    modifies dataOut
    ensures dataOut[..outOffset] == old(dataOut[..outOffset])
    ensures Projects(probelist, unit, dataOut[outOffset..outOffset + v])
  {
    sampleIn := Overlay(stale, unit);
    var sampleOut := PackSample(probelist, sampleIn);
    PackedProjects(probelist, stale, unit, v);
    CopyInto(dataOut, outOffset, LowBytes(sampleOut, v));
    assert dataOut[outOffset..outOffset + v] == LowBytes(sampleOut, v);
  }

  /** The loop over the samples. `sampleIn` starts with whatever is on the stack. */
  method CompressAll(inUnitsize: nat, outUnitsize: nat, probelist: seq<nat>, dataIn: seq<Byte>, dataOut: array<Byte>)
    returns (outOffset: nat)
    requires 1 <= outUnitsize <= inUnitsize <= 8 && inUnitsize <= |dataIn| == dataOut.Length
    requires InRange(probelist, inUnitsize) && Shiftable(probelist)
    modifies dataOut
    ensures outOffset == NumUnits(|dataIn|, inUnitsize) * outUnitsize <= dataOut.Length
    ensures ProjectsAll(probelist, dataIn, inUnitsize, dataOut[..outOffset], outUnitsize, NumUnits(|dataIn|, inUnitsize))
  {
    ghost var n := 0;
    var sampleIn: nat := *;
    var inOffset := 0;
    outOffset := 0;
    while inOffset <= |dataIn| - inUnitsize
      invariant 0 <= inOffset == n * inUnitsize <= |dataIn| && 0 <= outOffset == n * outUnitsize <= inOffset
      invariant ProjectsAll(probelist, dataIn, inUnitsize, dataOut[..], outUnitsize, n)
      decreases |dataIn| - inOffset
    {
      ghost var before := dataOut[..];
      sampleIn := CompressSample(probelist, dataIn[inOffset..inOffset + inUnitsize], sampleIn, dataOut, outOffset, outUnitsize);
      OneMore(probelist, dataIn, inUnitsize, before, dataOut[..], outUnitsize, n);
      inOffset := inOffset + inUnitsize;
      outOffset := outOffset + outUnitsize;
      n := n + 1;
    }
    UnitFits(|dataIn|, inUnitsize, n);
    if n > 0 {
      UnitFits(|dataIn|, inUnitsize, n - 1);
    }
    assert n == NumUnits(|dataIn|, inUnitsize);
    Truncate(probelist, dataIn, inUnitsize, dataOut[..], outUnitsize, n);
  }

  lemma OneMore(probelist: seq<nat>, data: seq<Byte>, u: nat, before: seq<Byte>, after: seq<Byte>, v: nat, n: nat)
    requires ProjectsAll(probelist, data, u, before, v, n)
    requires |before| == |after| && n * v + v <= |before| && n * u + u <= |data|
    requires before[..n * v] == after[..n * v]
    requires Projects(probelist, data[n * u..n * u + u], after[n * v..n * v + v])
    ensures ProjectsAll(probelist, data, u, after, v, n + 1)
    ensures (n + 1) * u == n * u + u && (n + 1) * v == n * v + v
  {
    KeepsUnits(probelist, data, u, before, after, v, n);
  }

  lemma Truncate(probelist: seq<nat>, data: seq<Byte>, u: nat, output: seq<Byte>, v: nat, n: nat)
    requires ProjectsAll(probelist, data, u, output, v, n) && n * v <= |output|
    ensures ProjectsAll(probelist, data, u, output[..n * v], v, n)
  {
    forall m | 0 <= m < n
      ensures m * v + v <= |output[..n * v]| && Projects(probelist, Unit(data, u, m), Unit(output[..n * v], v, m))
    {
      EndOfUnit(m, n, v);
      UnitOfPrefix(output, v, m, n * v);
    }
  }

  lemma EndOfUnit(m: nat, n: nat, v: nat)
    requires m < n
    ensures m * v + v <= n * v
  {
    Monotone(m + 1, n, v);
  }

  lemma UnitOfPrefix(output: seq<Byte>, v: nat, m: nat, end: nat)
    requires m * v + v <= end <= |output|
    ensures Unit(output[..end], v, m) == Unit(output, v, m)
  {
    var start := m * v;
    assert output[..end][start..start + v] == output[start..start + v];
  }

  // The copying shortcut.

  ghost predicate Increasing(probelist: seq<nat>) {
    forall i, j :: 0 <= i < j < |probelist| ==> probelist[i] < probelist[j]
  }

  ghost predicate Identity(probelist: seq<nat>) {
    forall i :: 0 <= i < |probelist| ==> probelist[i] == i + 1
  }

  lemma {:induction false} AtLeast(probelist: seq<nat>, i: nat)
    requires Increasing(probelist) && i < |probelist| && probelist[0] >= 1
    ensures probelist[i] >= i + 1
  {
    if i > 0 {
      AtLeast(probelist, i - 1);
    }
  }

  lemma {:induction false} AtMost(probelist: seq<nat>, i: nat, top: nat)
    requires Increasing(probelist) && i < |probelist| && probelist[|probelist| - 1] <= top
    ensures probelist[i] + (|probelist| - 1 - i) <= top
    decreases |probelist| - i
  {
    if i < |probelist| - 1 {
      AtMost(probelist, i + 1, top);
    }
  }

  /** As many increasing numbers as there are probes: every probe, in order. */
  lemma AllProbesInOrder(probelist: seq<nat>, u: nat)
    requires InRange(probelist, u) && Increasing(probelist) && |probelist| == 8 * u
    ensures Identity(probelist)
  {
    forall i | 0 <= i < |probelist| ensures probelist[i] == i + 1 {
      AtLeast(probelist, i);
      AtMost(probelist, i, 8 * u);
    }
  }

  lemma WholeProduct(n: nat, v: nat)
    requires v > 0
    ensures NumUnits(n * v, v) == n
  {
    AllUnitsTaken(n * v, v, n);
  }

  lemma IdentityProjects(probelist: seq<nat>, unit: seq<Byte>)
    requires Identity(probelist) && |probelist| == 8 * |unit|
    ensures Projects(probelist, unit, unit)
  {
  }

  /** For the identity, what is copied is projected. */
  lemma CopyProjects(probelist: seq<nat>, data: seq<Byte>, u: nat)
    requires u > 0 && Identity(probelist) && |probelist| == 8 * u
    ensures ProjectsAll(probelist, data, u, data, u, NumUnits(|data|, u))
  {
    forall n | 0 <= n < NumUnits(|data|, u)
      ensures n * u + u <= |data| && Projects(probelist, Unit(data, u, n), Unit(data, u, n))
    {
      UnitFits(|data|, u, n);
      IdentityProjects(probelist, Unit(data, u, n));
    }
  }

  /** A projection has no freedom: the output is determined by the input. */
  lemma ProjectionIsUnique(probelist: seq<nat>, input: seq<Byte>, a: seq<Byte>, b: seq<Byte>)
    requires |a| == |b| && Projects(probelist, input, a) && Projects(probelist, input, b)
    ensures a == b
  {
    forall i: nat ensures Bit(Word(a), i) <==> Bit(Word(b), i) {
      if 8 * |a| <= i {
        WordHasNoHighBits(a, i);
        WordHasNoHighBits(b, i);
      }
    }
    SameBits(Word(a), Word(b));
    WordIsInjective(a, b);
  }

  lemma {:induction false} AllProjectionsAgree(probelist: seq<nat>, data: seq<Byte>, u: nat, a: seq<Byte>, b: seq<Byte>, v: nat, n: nat)
    requires |a| == |b| && n * v <= |a|
    requires ProjectsAll(probelist, data, u, a, v, n) && ProjectsAll(probelist, data, u, b, v, n)
    ensures a[..n * v] == b[..n * v]
    decreases n
  {
    if n > 0 {
      Monotone(n - 1, n, v);
      AllProjectionsAgree(probelist, data, u, a, b, v, n - 1);
      ProjectionIsUnique(probelist, Unit(data, u, n - 1), Unit(a, v, n - 1), Unit(b, v, n - 1));
      LastUnit(a, v, n);
      LastUnit(b, v, n);
    }
  }

  lemma LastUnit(a: seq<Byte>, v: nat, n: nat)
    requires n > 0 && n * v <= |a|
    ensures (n - 1) * v + v == n * v
    ensures a[..n * v] == a[..(n - 1) * v] + Unit(a, v, n - 1)
  {
  }

  /** For whole samples and an increasing list of all probes, what the bit-packing loop would produce is
      the input: the shortcut returns exactly that. */
  lemma FastPathRefinesSlowPath(probelist: seq<nat>, data: seq<Byte>, u: nat, slow: seq<Byte>)
    requires u > 0 && InRange(probelist, u) && Increasing(probelist) && |probelist| == 8 * u
    requires |data| == NumUnits(|data|, u) * u == |slow|
    requires ProjectsAll(probelist, data, u, slow, u, NumUnits(|data|, u))
    ensures slow == data
  {
    var count := NumUnits(|data|, u);
    AllProbesInOrder(probelist, u);
    CopyProjects(probelist, data, u);
    AllProjectionsAgree(probelist, data, u, slow, data, u, count);
    assert slow[..count * u] == slow && data[..count * u] == data;
  }

  /** All probes of a byte with the first two swapped: a sample in which only the first is set is copied,
      but its projection has only the second bit set. */
  lemma SwappedIsNotCopied()
    ensures !Projects([2, 1, 3, 4, 5, 6, 7, 8], [1], [1])
    ensures Projects([2, 1, 3, 4, 5, 6, 7, 8], [1], [2])
  {
    var list: seq<nat> := [2, 1, 3, 4, 5, 6, 7, 8];
    assert Word([1]) == 1 && Word([2]) == 2;
    forall b | 0 <= b < 8
      ensures Bit(2, b) <==> ProjectedBit(list, 1, b)
    {
      BitOfOnly(0, list[b] - 1);
      BitOfOnly(1, b);
    }
    assert Bit(Word([1]), 0) && !ProjectedBit(list, Word([1]), 0) by {
      BitOfOnly(0, 1);
    }
  }

  /** For any list of that length, copying is right for every sample if and only if the list is the identity. */
  lemma CopyingIsRightIffIdentity(probelist: seq<nat>, u: nat)
    requires InRange(probelist, u) && |probelist| == 8 * u
    ensures (forall unit: seq<Byte> :: |unit| == u ==> Projects(probelist, unit, unit)) <==> Identity(probelist)
  {
    if Identity(probelist) {
      forall unit: seq<Byte> | |unit| == u ensures Projects(probelist, unit, unit) {
        IdentityProjects(probelist, unit);
      }
    } else {
      var i :| 0 <= i < |probelist| && probelist[i] != i + 1;
      var unit := LowBytes(Pow2(i), u);
      BitOfLowBytes(Pow2(i), u, i);
      BitOfLowBytes(Pow2(i), u, probelist[i] - 1);
      BitOfOnly(i, i);
      BitOfOnly(i, probelist[i] - 1);
      assert Bit(Word(unit), i) && !ProjectedBit(probelist, Word(unit), i);
      assert !Projects(probelist, unit, unit);
    }
  }
}
