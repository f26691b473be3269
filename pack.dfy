/**
 * Moving a 16-byte block in and out of the bitsliced state
 * (store_byte_to_bitslice, store_bytes_to_bitslice, save_bitslice_to_bytes).
 *
 * The bytes of a block are taken column by column, as in FIPS 197: byte k of
 * the block is the state byte in row k % 4, column k / 4, which sits in lane
 * 4 * (k % 4) + k / 4.
 */
module Packing {
  import opened Bitslice

  /** LaneTable[k]: the lane holding byte k of a block, 4 * (k % 4) + k / 4. */
  const LaneTable: seq<Lane> := [0, 4, 8, 12, 1, 5, 9, 13, 2, 6, 10, 14, 3, 7, 11, 15]

  /** ByteTable[y]: the byte of a block held in lane y; the same transposition, read backwards. */
  const ByteTable: seq<nat> := [0, 4, 8, 12, 1, 5, 9, 13, 2, 6, 10, 14, 3, 7, 11, 15]

  function LaneOfByte(k: nat): Lane
    requires k < 16
  {
    LaneTable[k]
  }

  function ByteOfLane(y: Lane): (k: nat)
    ensures k < 16
  {
    ByteTable[y]
  }

  /** The two tables are inverse to each other, and each is the transposition of row and column. */
  lemma Transposition(k: nat, y: Lane)
    requires k < 16
    ensures ByteOfLane(LaneOfByte(k)) == k
    ensures LaneOfByte(ByteOfLane(y)) == y
  {
    ByteLane(k);
    LaneByteLane(y);
  }

  lemma ByteLane(k: nat)
    requires k < 16
    ensures ByteOfLane(LaneOfByte(k)) == k
  {
  }

  lemma LaneByteLane(y: Lane)
    ensures LaneOfByte(ByteOfLane(y)) == y
  {
  }

  /** The state holding a block: lane LaneOfByte(k) holds byte k. */
  function Pack(block: seq<bv8>): State
    requires |block| == 16
  {
    FromLanes(seq(16, (y: int) requires 0 <= y < 16 => block[ByteOfLane(y as Lane)]))
  }

  /** The block a state holds: byte k is the byte in lane LaneOfByte(k). */
  function Unpack(s: State): (block: seq<bv8>)
    ensures |block| == 16
  {
    seq(16, (k: int) requires 0 <= k < 16 => LaneByte(s, LaneOfByte(k)))
  }

  lemma PackLanes(block: seq<bv8>, k: nat)
    requires |block| == 16 && k < 16
    ensures LaneByte(Pack(block), LaneOfByte(k)) == block[k]
  {
    var r := seq(16, (y: int) requires 0 <= y < 16 => block[ByteOfLane(y as Lane)]);
    FromLanesLanes(r, LaneOfByte(k));
    Transposition(k, 0);
  }

  /** Packing a block and reading it back gives the block. */
  lemma UnpackPack(block: seq<bv8>)
    requires |block| == 16
    ensures Unpack(Pack(block)) == block
  {
    forall k | 0 <= k < 16
      ensures Unpack(Pack(block))[k] == block[k]
    {
      PackLanes(block, k);
    }
  }

  /** Reading a state out and packing it again gives the state. */
  lemma PackUnpack(s: State)
    ensures Pack(Unpack(s)) == s
  {
    forall y: Lane
      ensures LaneByte(Pack(Unpack(s)), y) == LaneByte(s, y)
    {
      Transposition(0, y);
      PackLanes(Unpack(s), ByteOfLane(y));
    }
    LanesDetermineState(Pack(Unpack(s)), s);
  }

  // ---------------------------------------------------------------- one byte

  /** The slice x with (uint16_t)bit shifted to position pos ORed in; positions past 15 fall off the 16-bit slice. */
  function OrBitAt(x: bv16, bit: bv8, pos: Lane): bv16
  {
    x | (((bit & 1) as bv16) << pos)
  }

  /** Bit i of the byte ORed into lane pos of slice i. */
  function StoreByteAt(dest: State, byte: bv8, pos: Lane): State
  {
    Slices(OrBitAt(dest.s0, byte >> 0, pos), OrBitAt(dest.s1, byte >> 1, pos),
           OrBitAt(dest.s2, byte >> 2, pos), OrBitAt(dest.s3, byte >> 3, pos),
           OrBitAt(dest.s4, byte >> 4, pos), OrBitAt(dest.s5, byte >> 5, pos),
           OrBitAt(dest.s6, byte >> 6, pos), OrBitAt(dest.s7, byte >> 7, pos))
  }

  /** store_byte_to_bitslice: bit i of the byte is ORed into lane 4 * row + column of slice i. */
  function StoreByte(dest: State, byte: bv8, row: nat, column: nat): State
  {
    if row * 4 + column < 16 then StoreByteAt(dest, byte, (row * 4 + column) as Lane) else dest
  }

  lemma OrBitAtBit(x: bv16, bit: bv8, q: Lane, y: Lane)
    ensures Bit(OrBitAt(x, bit, q), y) == if y == q then Bit(x, y) | (bit & 1) as bv1 else Bit(x, y)
  {
  }

  lemma GatherOr(u: Slices<bv1>, b: bv8)
    ensures Gather(Slices(u.s0 | (b & 1) as bv1, u.s1 | ((b >> 1) & 1) as bv1, u.s2 | ((b >> 2) & 1) as bv1,
                          u.s3 | ((b >> 3) & 1) as bv1, u.s4 | ((b >> 4) & 1) as bv1, u.s5 | ((b >> 5) & 1) as bv1,
                          u.s6 | ((b >> 6) & 1) as bv1, u.s7 | ((b >> 7) & 1) as bv1))
            == Gather(u) | b
  {
  }

  lemma StoreByteAtHere(dest: State, byte: bv8, q: Lane)
    ensures LaneByte(StoreByteAt(dest, byte, q), q) == LaneByte(dest, q) | byte
  {
    var t := StoreByteAt(dest, byte, q);
    OrBitAtBit(dest.s0, byte >> 0, q, q);
    OrBitAtBit(dest.s1, byte >> 1, q, q);
    OrBitAtBit(dest.s2, byte >> 2, q, q);
    OrBitAtBit(dest.s3, byte >> 3, q, q);
    OrBitAtBit(dest.s4, byte >> 4, q, q);
    OrBitAtBit(dest.s5, byte >> 5, q, q);
    OrBitAtBit(dest.s6, byte >> 6, q, q);
    OrBitAtBit(dest.s7, byte >> 7, q, q);
    LaneByteBits(t, q);
    LaneByteBits(dest, q);
    GatherOr(Slices(Bit(dest.s0, q), Bit(dest.s1, q), Bit(dest.s2, q), Bit(dest.s3, q),
                    Bit(dest.s4, q), Bit(dest.s5, q), Bit(dest.s6, q), Bit(dest.s7, q)), byte);
  }

  lemma StoreByteAtElsewhere(dest: State, byte: bv8, q: Lane, y: Lane)
    requires y != q
    ensures LaneByte(StoreByteAt(dest, byte, q), y) == LaneByte(dest, y)
  {
    var t := StoreByteAt(dest, byte, q);
    OrBitAtBit(dest.s0, byte >> 0, q, y);
    OrBitAtBit(dest.s1, byte >> 1, q, y);
    OrBitAtBit(dest.s2, byte >> 2, q, y);
    OrBitAtBit(dest.s3, byte >> 3, q, y);
    OrBitAtBit(dest.s4, byte >> 4, q, y);
    OrBitAtBit(dest.s5, byte >> 5, q, y);
    OrBitAtBit(dest.s6, byte >> 6, q, y);
    OrBitAtBit(dest.s7, byte >> 7, q, y);
    LaneByteBits(t, y);
    LaneByteBits(dest, y);
  }

  lemma StoreBytePosition(dest: State, byte: bv8, row: nat, column: nat)
    requires row < 4 && column < 4
    ensures StoreByte(dest, byte, row, column) == StoreByteAt(dest, byte, (4 * row + column) as Lane)
  {
  }

  lemma StoreByteAtLanes(dest: State, byte: bv8, q: Lane, y: Lane)
    ensures LaneByte(StoreByteAt(dest, byte, q), y) == if y == q then LaneByte(dest, y) | byte else LaneByte(dest, y)
  {
    if y == q {
      StoreByteAtHere(dest, byte, q);
    } else {
      StoreByteAtElsewhere(dest, byte, q, y);
    }
  }

  /** Storing a byte ORs it into the lane at its row and column and leaves every other lane alone. */
  lemma StoreByteLanes(dest: State, byte: bv8, row: nat, column: nat, y: Lane)
    requires row < 4 && column < 4
    ensures LaneByte(StoreByte(dest, byte, row, column), y)
            == if y == (4 * row + column) as Lane then LaneByte(dest, y) | byte else LaneByte(dest, y)
  {
    StoreBytePosition(dest, byte, row, column);
    StoreByteAtLanes(dest, byte, (4 * row + column) as Lane, y);
  }

  // ---------------------------------------------------------------- blocks

  /** s holds the first n bytes of block in their lanes and zero in the lanes of the others. */
  ghost predicate Filled(s: State, block: seq<bv8>, n: nat)
    requires |block| == 16
  {
    forall k :: 0 <= k < 16 ==> Unpack(s)[k] == if k < n then block[k] else 0
  }

  /** Byte k = 4 * column + row of a block goes to lane 4 * row + column. */
  lemma LaneOfRowColumn(row: nat, column: nat)
    requires row < 4 && column < 4
    ensures LaneOfByte(4 * column + row) == (4 * row + column) as Lane
  {
    if row == 0 {
      assert column == 0 || column == 1 || column == 2 || column == 3;
    } else if row == 1 {
      assert column == 0 || column == 1 || column == 2 || column == 3;
    } else if row == 2 {
      assert column == 0 || column == 1 || column == 2 || column == 3;
    } else {
      assert column == 0 || column == 1 || column == 2 || column == 3;
    }
  }

  lemma LaneOfByteInjective(k: nat, k0: nat)
    requires k < 16 && k0 < 16
    ensures LaneOfByte(k) == LaneOfByte(k0) <==> k == k0
  {
    ByteLane(k);
    ByteLane(k0);
  }

  /** Storing a byte at a row and column changes only the byte of the block at that row and column. */
  lemma StoreByteBytes(s: State, byte: bv8, row: nat, column: nat, k: nat)
    requires row < 4 && column < 4 && k < 16
    ensures Unpack(StoreByte(s, byte, row, column))[k] == if k == 4 * column + row then Unpack(s)[k] | byte else Unpack(s)[k]
  {
    LaneOfRowColumn(row, column);
    StoreByteLanes(s, byte, row, column, LaneOfByte(k));
    LaneOfByteInjective(k, 4 * column + row);
  }

  lemma FilledStep(s: State, block: seq<bv8>, row: nat, column: nat)
    requires |block| == 16 && row < 4 && column < 4
    requires Filled(s, block, 4 * column + row)
    ensures Filled(StoreByte(s, block[4 * column + row], row, column), block, 4 * column + row + 1)
  {
    var k0 := 4 * column + row;
    var t := StoreByte(s, block[k0], row, column);
    LaneOfRowColumn(row, column);
    forall k | 0 <= k < 16
      ensures Unpack(t)[k] == if k < k0 + 1 then block[k] else 0
    {
      StoreByteBytes(s, block[k0], row, column, k);
    }
  }

  lemma FilledPack(s: State, block: seq<bv8>)
    requires |block| == 16 && Filled(s, block, 16)
    ensures s == Pack(block)
  {
    assert Unpack(s) == block;
    PackUnpack(s);
  }

  /** store_bytes_to_bitslice: the sixteen bytes at src[off..] packed into a state. */
  method StoreBytes(src: array<bv8>, off: nat) returns (s: State)
    requires off + 16 <= src.Length
    ensures s == Pack(src[off..off + 16])
  {
    ghost var block := src[off..off + 16];
    s := Zero;
    var column := 0;
    while column < 4
      invariant column <= 4
      invariant Filled(s, block, 4 * column)
    {
      var row := 0;
      while row < 4
        invariant row <= 4
        invariant Filled(s, block, 4 * column + row)
      {
        assert src[off + 4 * column + row] == block[4 * column + row];
        FilledStep(s, block, row, column);
        s := StoreByte(s, src[off + 4 * column + row], row, column);
        row := row + 1;
      }
      column := column + 1;
    }
    FilledPack(s, block);
  }

  /** save_bitslice_to_bytes: the block a state holds, written to dest[off..off + 16]. */
  method Save(dest: array<bv8>, off: nat, s: State)
    requires off + 16 <= dest.Length
    modifies dest
    ensures dest[off..off + 16] == Unpack(s)
    ensures forall k :: 0 <= k < dest.Length && !(off <= k < off + 16) ==> dest[k] == old(dest[k])
  {
    var column := 0;
    while column < 4
      invariant column <= 4
      invariant forall k :: 0 <= k < 4 * column ==> dest[off + k] == Unpack(s)[k]
      invariant forall k :: 0 <= k < dest.Length && !(off <= k < off + 4 * column) ==> dest[k] == old(dest[k])
    {
      var row := 0;
      while row < 4
        invariant row <= 4
        invariant forall k :: 0 <= k < 4 * column + row ==> dest[off + k] == Unpack(s)[k]
        invariant forall k :: 0 <= k < dest.Length && !(off <= k < off + 4 * column + row) ==> dest[k] == old(dest[k])
      {
        dest[off + 4 * column + row] := LaneByte(s, LaneOfByte(4 * column + row));
        row := row + 1;
      }
      column := column + 1;
    }
  }

  /** Every byte of the zero state is zero. */
  lemma UnpackZero(k: nat)
    requires k < 16
    ensures Unpack(Zero)[k] == 0
  {
    LaneByteBits(Zero, LaneOfByte(k));
  }
}
