/** The order in which the ChronoVu LA8 sends its memory: sixteen interleaved parts of it, one pair of
parts after another, so that the place of a sample has to be computed from the block it came in. */
module La8Mangling {
  import opened Bytes

  const BS: nat := 4096
  const NUM_BLOCKS: nat := 2048
  const SDRAM_SIZE: nat := 8388608

  type Block = b: seq<Byte> | |b| == 4096 witness seq(4096, _ => 0)

  /** Where byte `i` of a block belongs. `single` is whether the divider count is 0. */
  function Index(single: bool, block: nat, i: nat): nat {
    var byteOffset := block * 4096;
    var m := byteOffset / 1048576;
    var mi := m * 1048576;
    var p := i % 2;
    assert mi <= byteOffset;
    m * 2 + (byteOffset + i - mi) / 2 * 16 + (if single then p else 1 - p)
  }

  /** A place on the wire: a block, and a byte in it. */
  datatype Place = Place(block: nat, byte: nat)

  /** The place on the wire of the sample that belongs at `x`. */
  function PlaceOf(single: bool, x: nat): Place {
    var p := if single then x % 2 else 1 - x % 2;
    var offset := x / 2 % 8 * 1048576 + x / 16 * 2 + p;
    Place(offset / 4096, offset % 4096)
  }

  /** Part `m` of the memory, byte pair `h` of it, and the byte `p` of the pair. */
  predicate AreParts(m: nat, h: nat, p: nat) {
    m < 8 && h < 524288 && p < 2
  }

  function PlaceInBuffer(single: bool, m: nat, h: nat, p: nat): nat
    requires p < 2
  {
    m * 2 + h * 16 + (if single then p else 1 - p)
  }

  lemma OffsetParts(block: nat, i: nat) returns (m: nat, h: nat, p: nat)
    requires block < NUM_BLOCKS && i < BS
    ensures AreParts(m, h, p) && p == i % 2
    ensures block * 4096 + i == m * 1048576 + h * 2 + p
  {
    m := block / 256;
    h := block % 256 * 2048 + i / 2;
    p := i % 2;
  }

  lemma IndexFromParts(single: bool, block: nat, i: nat, m: nat, h: nat, p: nat)
    requires block < NUM_BLOCKS && i < BS && AreParts(m, h, p)
    requires block * 4096 + i == m * 1048576 + h * 2 + p
    ensures Index(single, block, i) == PlaceInBuffer(single, m, h, p) < SDRAM_SIZE
  {
    assert block / 256 == m;
    assert block * 4096 / 1048576 == m;
    assert i % 2 == p;
    assert (block * 4096 + i - m * 1048576) / 2 == h;
  }

  lemma PlaceFromParts(single: bool, m: nat, h: nat, p: nat)
    requires AreParts(m, h, p)
    ensures
      var offset := m * 1048576 + h * 2 + p;
      PlaceOf(single, PlaceInBuffer(single, m, h, p)) == Place(offset / 4096, offset % 4096)
  {
    var x := PlaceInBuffer(single, m, h, p);
    assert x / 2 == m + 8 * h;
    assert x / 2 % 8 == m;
    assert x / 16 == h;
  }

  /** No byte is sent to a place outside the buffer, and its place tells where it came from. */
  lemma PlaceOfIndex(single: bool, block: nat, i: nat)
    requires block < NUM_BLOCKS && i < BS
    ensures Index(single, block, i) < SDRAM_SIZE
    ensures PlaceOf(single, Index(single, block, i)) == Place(block, i)
  {
    var m, h, p := OffsetParts(block, i);
    IndexFromParts(single, block, i, m, h, p);
    PlaceFromParts(single, m, h, p);
  }

  /** Every place in the buffer is reached. */
  lemma IndexOfPlace(single: bool, x: nat)
    requires x < SDRAM_SIZE
    ensures
      var place := PlaceOf(single, x);
      place.block < NUM_BLOCKS && place.byte < BS && Index(single, place.block, place.byte) == x
  {
    var m, h, p := BufferParts(single, x);
    PlaceFromParts(single, m, h, p);
    var block, byte := OffsetPlace(m, h, p);
    IndexFromParts(single, block, byte, m, h, p);
  }

  lemma BufferParts(single: bool, x: nat) returns (m: nat, h: nat, p: nat)
    requires x < SDRAM_SIZE
    ensures AreParts(m, h, p) && x == PlaceInBuffer(single, m, h, p)
  {
    m, h, p := x / 2 % 8, x / 16, if single then x % 2 else 1 - x % 2;
  }

  lemma OffsetPlace(m: nat, h: nat, p: nat) returns (block: nat, byte: nat)
    requires AreParts(m, h, p)
    ensures var offset := m * 1048576 + h * 2 + p;
            block == offset / 4096 && byte == offset % 4096 && block * 4096 + byte == offset
    ensures block < NUM_BLOCKS && byte < BS
  {
    var offset := m * 1048576 + h * 2 + p;
    block, byte := offset / 4096, offset % 4096;
  }

  /** No place is written twice. */
  lemma IndexIsInjective(single: bool, a: Place, b: Place)
    requires a.block < NUM_BLOCKS && a.byte < BS && b.block < NUM_BLOCKS && b.byte < BS
    requires Index(single, a.block, a.byte) == Index(single, b.block, b.byte)
    ensures a == b
  {
    PlaceOfIndex(single, a.block, a.byte);
    PlaceOfIndex(single, b.block, b.byte);
  }

  /** The buffer when all blocks have come in. */
  ghost predicate Demangled(single: bool, blocks: seq<Block>, buffer: seq<Byte>)
  {
    && |blocks| == NUM_BLOCKS
    && |buffer| == SDRAM_SIZE
    && forall b, i :: 0 <= b < NUM_BLOCKS && 0 <= i < BS ==> Sent(single, buffer, b, i) == blocks[b][i]
  }

  /** Byte `offset` of all that is sent. */
  function OnWire(blocks: seq<Block>, offset: nat): Byte
    requires |blocks| == NUM_BLOCKS && offset < SDRAM_SIZE
  {
    blocks[offset / 4096][offset % 4096]
  }

  /** The buffer is sent in eight parts. Part `m` holds the pairs of samples 2 * m and 2 * m + 1 of every
      sixteen; the samples of a pair are exchanged unless the divider count is 0. */
  ghost predicate SentInPairs(single: bool, blocks: seq<Block>, buffer: seq<Byte>) {
    && |blocks| == NUM_BLOCKS && |buffer| == SDRAM_SIZE
    && forall m, h :: 0 <= m < 8 && 0 <= h < 524288 ==> PairIsSent(single, blocks, buffer, m, h)
  }

  predicate PairIsSent(single: bool, blocks: seq<Block>, buffer: seq<Byte>, m: nat, h: nat)
    requires |blocks| == NUM_BLOCKS && |buffer| == SDRAM_SIZE && m < 8 && h < 524288
  {
    var first, second := OnWire(blocks, 1048576 * m + 2 * h), OnWire(blocks, 1048576 * m + 2 * h + 1);
    var earlier, later := buffer[16 * h + 2 * m], buffer[16 * h + 2 * m + 1];
    if single then first == earlier && second == later else first == later && second == earlier
  }

  lemma DemangledInPairs(single: bool, blocks: seq<Block>, buffer: seq<Byte>)
    requires Demangled(single, blocks, buffer)
    ensures SentInPairs(single, blocks, buffer)
  {
    forall m, h | 0 <= m < 8 && 0 <= h < 524288 ensures PairIsSent(single, blocks, buffer, m, h) {
      WireIsPlaced(single, blocks, buffer, m, h, 0);
      WireIsPlaced(single, blocks, buffer, m, h, 1);
    }
  }

  lemma WireIsPlaced(single: bool, blocks: seq<Block>, buffer: seq<Byte>, m: nat, h: nat, p: nat)
    requires Demangled(single, blocks, buffer) && AreParts(m, h, p)
    ensures PlaceInBuffer(single, m, h, p) < SDRAM_SIZE
    ensures OnWire(blocks, 1048576 * m + 2 * h + p) == buffer[PlaceInBuffer(single, m, h, p)]
  {
    var block, byte := OffsetPlace(m, h, p);
    IndexFromParts(single, block, byte, m, h, p);
    assert Sent(single, buffer, block, byte) == blocks[block][byte];
  }

  function Sent(single: bool, buffer: seq<Byte>, block: nat, i: nat): Byte
    requires |buffer| == SDRAM_SIZE && block < NUM_BLOCKS && i < BS
  {
    PlaceOfIndex(single, block, i);
    buffer[Index(single, block, i)]
  }

  /** The buffer determines what was sent, and what was sent determines the buffer. */
  lemma DemanglingIsPermuting(single: bool, blocks: seq<Block>, other: seq<Block>, buffer: seq<Byte>, another: seq<Byte>)
    requires Demangled(single, blocks, buffer) && Demangled(single, other, another)
    ensures blocks == other <==> buffer == another
  {
    if blocks == other {
      forall x | 0 <= x < SDRAM_SIZE ensures buffer[x] == another[x] {
        IndexOfPlace(single, x);
        var place := PlaceOf(single, x);
        assert Sent(single, buffer, place.block, place.byte) == Sent(single, another, place.block, place.byte);
      }
    }
    if buffer == another {
      forall b | 0 <= b < NUM_BLOCKS ensures blocks[b] == other[b] {
        forall i | 0 <= i < BS ensures blocks[b][i] == other[b][i] {
          assert Sent(single, buffer, b, i) == Sent(single, another, b, i);
        }
      }
    }
  }
}
