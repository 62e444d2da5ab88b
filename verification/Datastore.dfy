/** The datastore: sample data kept in a list of chunks of fixed size. It refines one flat string of
bytes, to which every put appends its whole units; saving a session writes out that string. */
module Datastore {
  import opened Bytes
  import opened Products
  import opened Streams

  const CHUNKSIZE: nat := 524288

  /** The bytes in `n` chunks. */
  function Span(n: int): int {
    n * 524288
  }

  /** The first CHUNKSIZE bytes of every chunk, in order. */
  ghost function Joined(chunks: seq<array<Byte>>): (bytes: seq<Byte>)
    requires forall i :: 0 <= i < |chunks| ==> chunks[i].Length >= CHUNKSIZE
    reads chunks
    ensures |bytes| == Span(|chunks|)
  {
    if chunks == [] then [] else Joined(chunks[..|chunks| - 1]) + chunks[|chunks| - 1][..CHUNKSIZE]
  }

  /** The number of chunks that hold `total` bytes. */
  function ChunksFor(total: nat): nat {
    (total + 524287) / 524288
  }

  function Max(a: nat, b: nat): nat {
    if a < b then b else a
  }

  /** The bytes of the whole units of a put. */
  function WholeUnits(length: nat, u: nat): (bytes: nat)
    requires u > 0
    ensures bytes <= length
  {
    length / u * u
  }

  lemma SpliceExtends<T>(init: seq<T>, last: seq<T>, offset: nat, part: seq<T>, after: seq<T>)
    requires offset + |part| <= |last| == |after|
    requires after[..offset + |part|] == last[..offset] + part
    ensures (init + after)[..|init| + offset + |part|] == (init + last)[..|init| + offset] + part
  {
  }

  class Datastore {
    const unitsize: nat
    var numUnits: nat
    var chunklist: seq<array<Byte>>

    function StoredBytes(): nat
      reads this`numUnits
    {
      numUnits * unitsize
    }

    ghost predicate Sized()
      reads this
    {
      && unitsize >= 1
      && (forall i :: 0 <= i < |chunklist| ==> chunklist[i].Length == unitsize * 524288)
      && (forall i, j :: 0 <= i < j < |chunklist| ==> chunklist[i] != chunklist[j])
      && StoredBytes() <= Span(|chunklist|)
    }

    /** The stored bytes reach into the last chunk, so the next put knows where to go on. */
    ghost predicate Valid()
      reads this
    {
      && Sized()
      && (chunklist == [] || Span(|chunklist| - 1) <= StoredBytes())
    }

    ghost function Contents(): (bytes: seq<Byte>)
      requires Sized()
      reads this, chunklist
      ensures |bytes| == StoredBytes()
    {
      ChunksAreLarge(chunklist, unitsize);
      Joined(chunklist)[..StoredBytes()]
    }

    constructor (unitsize: nat)
      requires unitsize >= 1
      ensures Valid() && Contents() == [] && this.unitsize == unitsize && chunklist == []
    {
      this.unitsize, numUnits, chunklist := unitsize, 0, [];
    }

    method NewChunk() returns (chunk: array<Byte>)
      requires Sized()
      modifies this`chunklist
      ensures fresh(chunk) && chunk.Length >= CHUNKSIZE && chunklist == old(chunklist) + [chunk]
      ensures Sized() && Joined(chunklist) == old(Joined(chunklist)) + chunk[..CHUNKSIZE]
    {
      chunk := new Byte[unitsize * 524288](_ => 0);
      chunklist := chunklist + [chunk];
      assert chunklist[..|chunklist| - 1] == old(chunklist);
    }

    /** memcpy into the last chunk. */
    method WriteLast(ghost before: seq<Byte>, offset: nat, bytes: seq<Byte>)
      requires Sized() && chunklist != [] && offset + |bytes| <= CHUNKSIZE
      requires |before| == Span(|chunklist| - 1) + offset && Joined(chunklist)[..|before|] == before
      modifies chunklist[|chunklist| - 1]
      ensures Sized() && Joined(chunklist)[..|before| + |bytes|] == before + bytes
    {
      var last := chunklist[|chunklist| - 1];
      ghost var init := chunklist[..|chunklist| - 1];
      ghost var first, whole := Joined(init), last[..CHUNKSIZE];
      CopyInto(last, offset, bytes);
      assert last[..CHUNKSIZE][..offset + |bytes|] == whole[..offset] + bytes by {
        assert last[..offset + |bytes|] == whole[..offset] + bytes;
      }
      assert Joined(chunklist) == first + last[..CHUNKSIZE] by {
        assert Joined(init) == first;
      }
      SpliceExtends(first, whole, offset, bytes, last[..CHUNKSIZE]);
    }

    /** Append data. Whole units are appended; the bytes after the last whole unit are lost, and if they
        had reached into a further chunk the datastore can no longer be appended to. */
    method Put(data: seq<Byte>, inUnitsize: int) returns (ok: bool)
      requires Valid()
      modifies this`numUnits, this`chunklist, chunklist
      ensures ok <==> inUnitsize >= 1
      ensures !ok ==> Valid() && Contents() == old(Contents())
      ensures ok ==> Sized() && Contents() == old(Contents()) + data[..WholeUnits(|data|, unitsize)]
      ensures ok ==> (Valid() <==> LeftoverStays(|old(chunklist)|, |old(Contents())|, |data|, unitsize))
      ensures Extends(old(chunklist), chunklist)
    {
      if inUnitsize < 1 {
        return false;
      }
      Append(data);
      TightCount(Max(1, |old(chunklist)|), |chunklist|, old(StoredBytes()) + |data|);
      return true;
    }

    method Append(data: seq<Byte>)
      requires Valid()
      modifies this`numUnits, this`chunklist, chunklist
      ensures Sized() && Contents() == old(Contents()) + data[..WholeUnits(|data|, unitsize)]
      ensures StoredBytes() == old(StoredBytes()) + WholeUnits(|data|, unitsize)
      ensures Tight(Max(1, |old(chunklist)|), |chunklist|, old(StoredBytes()) + |data|)
      ensures Extends(old(chunklist), chunklist)
    {
      ghost var base := Contents();
      EnsureChunk();
      var free, offset := FreeBytes(|chunklist|, StoredBytes()), ChunkOffset(|chunklist|, StoredBytes());
      var stored := StoreAll(base, data, free, offset);
      ghost var joined := Joined(chunklist);
      CountUnits(stored);
      assert Joined(chunklist) == joined;
      PrefixOfJoin(joined, base, data, WholeUnits(|data|, unitsize));
    }

    method CountUnits(stored: nat)
      requires unitsize >= 1
      modifies this`numUnits
      ensures StoredBytes() == old(StoredBytes()) + WholeUnits(stored, unitsize)
    {
      UnitsAdd(numUnits, stored, unitsize);
      numUnits := numUnits + stored / unitsize;
    }

    /** A put needs a chunk to go on in; the first one makes it. */
    method EnsureChunk()
      requires Valid()
      modifies this`chunklist
      ensures Valid() && Contents() == old(Contents()) && |chunklist| == Max(1, |old(chunklist)|)
      ensures Extends(old(chunklist), chunklist)
    {
      if chunklist == [] {
        assert StoredBytes() == 0;
        var chunk := NewChunk();
        assert StoredBytes() == 0 && Contents() == [];
      }
    }

    /** The loop of a put: fill the last chunk, then go on with new ones. */
    method StoreAll(ghost base: seq<Byte>, data: seq<Byte>, free0: nat, offset0: nat) returns (stored: nat)
      requires Sized() && chunklist != [] && |base| == StoredBytes()
      requires free0 == Span(|chunklist|) - |base| && offset0 == CHUNKSIZE - free0
      requires Joined(chunklist)[..|base|] == base
      modifies this`chunklist, chunklist
      ensures stored == |data| && Sized() && chunklist != []
      ensures Tight(|old(chunklist)|, |chunklist|, |base| + |data|)
      ensures Joined(chunklist)[..|base| + |data|] == base + data
      ensures Extends(old(chunklist), chunklist)
    {
      var free, offset := free0, offset0;
      stored := 0;
      ghost var before := base;
      while stored < |data|
        invariant stored <= |data| && before == base + data[..stored]
        invariant Filled(before, free) && (0 < free && stored < |data| ==> offset == CHUNKSIZE - free)
        invariant Tight(|old(chunklist)|, |chunklist|, |before|)
        invariant Extends(old(chunklist), chunklist)
      {
        var size;
        size, free, offset := StorePart(before, data[stored..], free, offset);
        before := before + data[stored..][..size];
        assert before == base + data[..stored + size] by {
          NextSlice(base, data, stored, size);
        }
        stored := stored + size;
      }
      assert data[..stored] == data;
    }

    /** The chunks begin with `bytes`, and have room for `free` more. */
    ghost predicate Filled(bytes: seq<Byte>, free: nat)
      reads this, chunklist
    {
      && Sized() && chunklist != []
      && free == Span(|chunklist|) - |bytes|
      && Joined(chunklist)[..|bytes|] == bytes
    }

    /** Take a new chunk if the last one is full, and copy as much as there is room for. */
    method StorePart(ghost before: seq<Byte>, rest: seq<Byte>, free0: nat, offset0: nat)
      returns (size: nat, free: nat, offset: nat)
      requires Filled(before, free0) && rest != [] && (free0 > 0 ==> offset0 == CHUNKSIZE - free0)
      modifies this`chunklist, chunklist
      ensures |chunklist| == |old(chunklist)| + (if free0 == 0 then 1 else 0) && Extends(old(chunklist), chunklist)
      ensures 0 < size <= |rest| && Filled(before + rest[..size], free)
      ensures free > 0 && size < |rest| ==> offset == CHUNKSIZE - free
    {
      free, offset := free0, offset0;
      if free == 0 {
        NextChunk(before);
        free, offset := CHUNKSIZE, 0;
      }
      size := StoreSome(before, rest, free, offset);
      free := free - size;
    }

    method NextChunk(ghost before: seq<Byte>)
      requires Sized() && |before| <= Span(|chunklist|) && Joined(chunklist)[..|before|] == before
      modifies this`chunklist
      ensures Sized() && |chunklist| == |old(chunklist)| + 1 && Extends(old(chunklist), chunklist)
      ensures Joined(chunklist)[..|before|] == before
    {
      var chunk := NewChunk();
    }

    /** Copy as much as the last chunk has room for. */
    method StoreSome(ghost before: seq<Byte>, rest: seq<Byte>, free: nat, offset: nat) returns (size: nat)
      requires Sized() && chunklist != [] && rest != []
      requires 0 < free == Span(|chunklist|) - |before| && offset == CHUNKSIZE - free
      requires Joined(chunklist)[..|before|] == before
      modifies chunklist[|chunklist| - 1]
      ensures Sized() && 0 < size <= |rest| && size <= free && (size == |rest| || size == free)
      ensures Joined(chunklist)[..|before| + size] == before + rest[..size]
    {
      size := if |rest| > free then free else |rest|;
      WriteLast(before, offset, rest[..size]);
    }

    /** The chunks there were are still there, and the others are new. */
    twostate predicate Extends(before: seq<array<Byte>>, new after: seq<array<Byte>>) {
      && |before| <= |after|
      && (forall i :: 0 <= i < |before| ==> after[i] == before[i])
      && (forall i :: |before| <= i < |after| ==> fresh(after[i]))
    }
  }

  /** `m` chunks, of which none was added without need, hold `total` bytes. */
  predicate Tight(n: nat, m: nat, total: nat) {
    n <= m && total <= Span(m) && (n < m ==> Span(m - 1) < total)
  }

  lemma TightCount(n: nat, m: nat, total: nat)
    requires Tight(n, m, total)
    ensures m == Max(n, ChunksFor(total))
  {
  }

  /** A caller's test: after a put of `length` bytes, the stored units still reach into the last chunk. */
  predicate LeftoverStays(chunks: nat, stored: nat, length: nat, u: nat)
    requires u > 0
  {
    Span(Max(Max(1, chunks), ChunksFor(stored + length)) - 1) <= stored + WholeUnits(length, u)
  }

  /** The whole units are the most units that the length has room for. */
  lemma WholeUnitsIs(length: nat, u: nat)
    requires u > 0
    ensures WholeUnits(length, u) % u == 0 && length - u < WholeUnits(length, u) <= length
  {
    RemainderOfMultiple(length / u, u);
  }

  /** It always does if the length is a multiple of the unit size. */
  lemma MultiplesStay(chunks: nat, stored: nat, length: nat, u: nat)
    requires u > 0 && length % u == 0 && (chunks == 0 || Span(chunks - 1) <= stored)
    ensures WholeUnits(length, u) == length && LeftoverStays(chunks, stored, length, u)
  {
  }

  /** What a put computes first: the bytes free, and where in the last chunk to go on. */
  function FreeBytes(chunks: nat, stored: nat): int {
    Span(chunks) - stored
  }

  function ChunkOffset(chunks: nat, stored: nat): int {
    Span(chunks) - Span(chunks - 1) - FreeBytes(chunks, stored)
  }

  /** If the stored units end before the last chunk, a put of anything writes before that chunk; otherwise
      it goes on inside it, or takes a new one. */
  lemma OffsetIsOutsideIff(chunks: nat, stored: nat)
    requires chunks >= 1 && stored <= Span(chunks)
    ensures ChunkOffset(chunks, stored) < 0 <==> stored < Span(chunks - 1)
    ensures ChunkOffset(chunks, stored) < 0 ==> FreeBytes(chunks, stored) > 524288
    ensures ChunkOffset(chunks, stored) >= 0 ==>
              ChunkOffset(chunks, stored) + FreeBytes(chunks, stored) == 524288
  {
  }

  /** Units of three bytes: one byte more than two chunks takes a third one, of which nothing is kept. */
  lemma LeftoverMayBeLost()
    ensures !LeftoverStays(0, 0, 1048577, 3)
    ensures ChunkOffset(ChunksFor(1048577), WholeUnits(1048577, 3)) < 0
    ensures Span(ChunksFor(1048577)) == WholeUnits(1048577, 3) + 524288 + 1
  {
    assert 1048577 / 3 == 349525;
    assert WholeUnits(1048577, 3) == 1048575;
  }

  lemma MultipleBelow(m: nat, n: nat, u: nat)
    requires u > 0 && m % u == 0 && m <= n
    ensures m <= WholeUnits(n, u)
  {
    var q := m / u;
    assert m == q * u;
    if q > 0 {
      UnitFits(n, u, q - 1);
    }
    Monotone(q, n / u, u);
  }

  lemma MultipleOfChunk(k: nat, u: nat)
    requires u > 0 && 524288 % u == 0
    ensures Span(k) % u == 0
  {
    var c := 524288 / u;
    assert Span(k) == (k * c) * u;
    RemainderOfMultiple(k * c, u);
  }

  lemma RemainderOfMultiple(q: nat, u: nat)
    requires u > 0
    ensures (q * u) % u == 0
  {
    var x := q * u;
    AllUnitsTaken(x, u, q);
    assert x == x / u * u + x % u;
  }

  /** Units that divide a chunk always stay, whatever was stored before. */
  lemma DividingUnitsStay(chunks: nat, units: nat, length: nat, u: nat)
    requires u > 0 && 524288 % u == 0 && (chunks == 0 || Span(chunks - 1) <= units * u)
    ensures LeftoverStays(chunks, units * u, length, u)
  {
    var total, needed := units * u + length, Max(Max(1, chunks), ChunksFor(units * u + length));
    if needed > Max(1, chunks) {
      MultipleOfChunk(needed - 1, u);
      MultipleBelow(Span(needed - 1), total, u);
      UnitsAdd(units, length, u);
      WholeUnitsOfSum(units, length, u);
    }
  }

  lemma WholeUnitsOfSum(units: nat, length: nat, u: nat)
    requires u > 0
    ensures WholeUnits(units * u + length, u) == units * u + WholeUnits(length, u)
  {
    UnitsAdd(units, length, u);
    AllUnitsTaken(units * u + length, u, units + length / u);
  }

  /** The bytes after the last whole unit of a first put do no harm, for any length, if and only if the
      unit size divides the chunk size. */
  lemma AlwaysStaysIff(u: nat)
    requires u > 0
    ensures StaysAlways(u) <==> 524288 % u == 0
  {
    if 524288 % u == 0 {
      forall length: nat ensures LeftoverStays(0, 0, length, u) {
        DividingUnitsStay(0, 0, length, u);
      }
    } else {
      var length := LosingLength(u);
    }
  }

  ghost predicate StaysAlways(u: nat)
    requires u > 0
  {
    forall length: nat :: LeftoverStays(0, 0, length, u)
  }

  lemma LosingLength(u: nat) returns (length: nat)
    requires u > 0 && 524288 % u != 0
    ensures !LeftoverStays(0, 0, length, u)
  {
    var q, r := 524288 / u, 524288 % u;
    assert 524288 == q * u + r;
    if r + 1 < u {
      length := 524289;
      AllUnitsTaken(length, u, q);
    } else {
      length := 1048577;
      assert length == (2 * q + 1) * u + (u - 1);
      AllUnitsTaken(length, u, 2 * q + 1);
    }
  }

  lemma ChunksAreLarge(chunks: seq<array<Byte>>, u: nat)
    requires u >= 1 && forall i :: 0 <= i < |chunks| ==> chunks[i].Length == CHUNKSIZE * u
    ensures forall i :: 0 <= i < |chunks| ==> chunks[i].Length >= CHUNKSIZE
  {
  }

  lemma NextSlice<T>(base: seq<T>, data: seq<T>, stored: nat, size: nat)
    requires stored + size <= |data|
    ensures (base + data[..stored]) + data[stored..][..size] == base + data[..stored + size]
  {
  }

  /** Units counted one put at a time are the units of the whole. */
  lemma UnitsAdd(units: nat, length: nat, u: nat)
    requires u > 0
    ensures (units + length / u) * u == units * u + WholeUnits(length, u)
  {
  }

  lemma PrefixOfJoin<T>(whole: seq<T>, base: seq<T>, data: seq<T>, n: nat)
    requires n <= |data| && |base| + |data| <= |whole| && whole[..|base| + |data|] == base + data
    ensures whole[..|base| + n] == base + data[..n]
  {
    assert whole[..|base| + n] == whole[..|base| + |data|][..|base| + n];
  }

  // A session: many puts, then one save.

  /** Puts whose lengths are multiples of the unit size, one after another, append all of their data. */
  method PutAll(ds: Datastore, parts: seq<seq<Byte>>)
    requires ds.Valid()
    requires forall i :: 0 <= i < |parts| ==> |parts[i]| % ds.unitsize == 0
    modifies ds`numUnits, ds`chunklist, ds.chunklist
    ensures ds.Valid() && ds.Contents() == old(ds.Contents()) + Flatten(parts)
  {
    ghost var base := ds.Contents();
    var i := 0;
    while i < |parts|
      invariant i <= |parts| && ds.Valid()
      invariant ds.Contents() == base + Flatten(parts[..i])
      invariant ds.Extends(old(ds.chunklist), ds.chunklist)
    {
      MultiplesStay(|ds.chunklist|, ds.StoredBytes(), |parts[i]|, ds.unitsize);
      var ok := ds.Put(parts[i], 1);
      FlattenNext(base, parts, i);
      i := i + 1;
    }
    assert parts[..i] == parts;
  }

  lemma FlattenNext<T>(base: seq<T>, parts: seq<seq<T>>, i: nat)
    requires i < |parts|
    ensures (base + Flatten(parts[..i])) + parts[i][..|parts[i]|] == base + Flatten(parts[..i + 1])
  {
    FlattenSnoc(parts[..i], parts[i]);
    assert parts[..i + 1] == parts[..i] + [parts[i]];
  }

  /** The copies of whole chunks fit into the buffer if and only if the stored units reach into the last chunk. */
  lemma CopiesFitIff(ds: Datastore)
    requires ds.Sized()
    ensures Span(|ds.chunklist|) <= ds.StoredBytes() + CHUNKSIZE <==> ds.Valid()
  {
  }

  /** The buffer handed to the archive when a session is saved. It has room for one chunk more than the
      stored bytes, and the loop copies whole chunks into it. */
  method SaveBuffer(ds: Datastore) returns (buf: array<Byte>, length: nat)
    requires ds.Valid()
    ensures length <= buf.Length && buf[..length] == ds.Contents()
  {
    length := ds.StoredBytes();
    buf := new Byte[length + CHUNKSIZE](_ => 0);
    var bufcnt, i := 0, 0;
    while i < |ds.chunklist|
      invariant i <= |ds.chunklist| && bufcnt == Span(i)
      invariant bufcnt <= buf.Length && buf[..bufcnt] == Joined(ds.chunklist[..i])
    {
      assert ds.chunklist[..i + 1][..i] == ds.chunklist[..i];
      CopyInto(buf, bufcnt, ds.chunklist[i][..CHUNKSIZE]);
      bufcnt := bufcnt + CHUNKSIZE;
      i := i + 1;
    }
    assert ds.chunklist[..i] == ds.chunklist;
  }
}
