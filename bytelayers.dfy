/**
 * The transformations of FIPS 197 on 16-byte blocks, and the bitsliced
 * SubBytes, ShiftRows and their inverses read back as bytes.
 *
 * Byte 4c + r of a block is the byte in row r, column c of the state
 * (FIPS 197, 3.4).  Each transformation is written here straight from the
 * standard: SubBytes looks every byte up in the S-box table of Figure 7, and
 * ShiftRows moves row r left by r columns.
 */
module ByteLayers {
  import opened Bitslice
  import opened Packing
  import opened SubBytesCircuit
  import opened Rotations
  import opened KeyExpansion
  import opened BlockModes

  // ---------------------------------------------------------------- the transformations on bytes

  /** The inverse S-box of FIPS 197, Figure 14: byte 16x + y becomes the entry in row x, column y. */
  function InvSubByte(b: bv8): bv8
  {
    InvSboxRow((b >> 4) as bv4)[(b & 15) as bv4]
  }

  /** SubBytes (FIPS 197, 5.1.1): every byte through the S-box table. */
  function SubBytesBlock(b: Block): Block
  {
    seq(16, k requires 0 <= k < 16 => SubByte(b[k]))
  }

  /** InvSubBytes (FIPS 197, 5.3.2): every byte through the inverse S-box table. */
  function InvSubBytesBlock(b: Block): Block
  {
    seq(16, k requires 0 <= k < 16 => InvSubByte(b[k]))
  }

  /** ShiftRows (FIPS 197, 5.1.2): row r, column c takes the byte of row r, column (c + r) mod 4. */
  function ShiftRowsBlock(b: Block): Block
  {
    seq(16, k requires 0 <= k < 16 => b[4 * ((k / 4 + k % 4) % 4) + k % 4])
  }

  /** InvShiftRows (FIPS 197, 5.3.1): row r, column c takes the byte of row r, column (c - r) mod 4. */
  function InvShiftRowsBlock(b: Block): Block
  {
    seq(16, k requires 0 <= k < 16 => b[4 * ((k / 4 + 4 - k % 4) % 4) + k % 4])
  }

  /** The byte permutation ShiftRows makes, written out. */
  lemma ShiftRowsTable(b: Block)
    ensures ShiftRowsBlock(b) == [b[0], b[5], b[10], b[15], b[4], b[9], b[14], b[3], b[8], b[13], b[2], b[7], b[12], b[1], b[6], b[11]]
  {
  }

  /** The byte permutation InvShiftRows makes, written out. */
  lemma InvShiftRowsTable(b: Block)
    ensures InvShiftRowsBlock(b) == [b[0], b[13], b[10], b[7], b[4], b[1], b[14], b[11], b[8], b[5], b[2], b[15], b[12], b[9], b[6], b[3]]
  {
  }

  /** InvShiftRowsBlock undoes ShiftRowsBlock, and the other way round. */
  lemma ShiftRowsBlockInverse(b: Block)
    ensures InvShiftRowsBlock(ShiftRowsBlock(b)) == b
    ensures ShiftRowsBlock(InvShiftRowsBlock(b)) == b
  {
    ShiftRowsTable(b);
    InvShiftRowsTable(b);
    ShiftRowsTable(InvShiftRowsBlock(b));
    InvShiftRowsTable(ShiftRowsBlock(b));
  }

  /** The inverse S-box table undoes the S-box table, and the other way round. */
  lemma SubByteInverse(b: bv8)
    ensures InvSubByte(SubByte(b)) == b && SubByte(InvSubByte(b)) == b
  {
    SubByteIsSbox(b);
    InvSubByteIsInvSbox(SubByte(b));
    InvSubByteIsInvSbox(b);
    SubByteIsSbox(InvSubByte(b));
    SboxInverse(b);
  }

  /** InvSubBytesBlock undoes SubBytesBlock, and the other way round. */
  lemma SubBytesBlockInverse(b: Block)
    ensures InvSubBytesBlock(SubBytesBlock(b)) == b
    ensures SubBytesBlock(InvSubBytesBlock(b)) == b
  {
    forall k: nat | k < 16
      ensures InvSubBytesBlock(SubBytesBlock(b))[k] == b[k]
      ensures SubBytesBlock(InvSubBytesBlock(b))[k] == b[k]
    {
      SubByteInverse(b[k]);
    }
  }

  // ---------------------------------------------------------------- SubBytes read as bytes

  lemma InvSubByteIsInvSbox(b: bv8)
    ensures InvSubByte(b) == InvSbox(b)
  {
    var x, y := (b >> 4) as bv4, (b & 15) as bv4;
    assert b == ((x as bv8) << 4) | (y as bv8);
    SboxMatchesTable(x, y);
  }

  /** A state that holds the S-box of every lane of another holds SubBytes of its block. */
  lemma LanewiseSbox(t: State, s: State)
    requires forall p: Lane :: LaneByte(t, p) == Sbox(LaneByte(s, p))
    ensures Unpack(t) == SubBytesBlock(Unpack(s))
  {
    forall k: nat | k < 16
      ensures Unpack(t)[k] == SubBytesBlock(Unpack(s))[k]
    {
      SubByteIsSbox(Unpack(s)[k]);
    }
  }

  /** A state that holds the inverse S-box of every lane of another holds InvSubBytes of its block. */
  lemma LanewiseInvSbox(t: State, s: State)
    requires forall p: Lane :: LaneByte(t, p) == InvSbox(LaneByte(s, p))
    ensures Unpack(t) == InvSubBytesBlock(Unpack(s))
  {
    forall k: nat | k < 16
      ensures Unpack(t)[k] == InvSubBytesBlock(Unpack(s))[k]
    {
      InvSubByteIsInvSbox(Unpack(s)[k]);
    }
  }

  /** The bitsliced SubBytes is the table lookup of FIPS 197 on every byte. */
  lemma UnpackSubBytes(s: State)
    ensures Unpack(SubBytes(s)) == SubBytesBlock(Unpack(s))
  {
    forall p: Lane
      ensures LaneByte(SubBytes(s), p) == Sbox(LaneByte(s, p))
    {
      SubBytesLanes(s, p);
    }
    LanewiseSbox(SubBytes(s), s);
  }

  /** The bitsliced InvSubBytes is the inverse table lookup of FIPS 197 on every byte. */
  lemma UnpackInvSubBytes(s: State)
    ensures Unpack(InvSubBytes(s)) == InvSubBytesBlock(Unpack(s))
  {
    forall p: Lane
      ensures LaneByte(InvSubBytes(s), p) == InvSbox(LaneByte(s, p))
    {
      SubBytesLanes(s, p);
    }
    LanewiseInvSbox(InvSubBytes(s), s);
  }

  // ---------------------------------------------------------------- ShiftRows read as bytes

  /** ShiftRows moves the byte in lane ShiftSource(y) into lane y. */
  lemma ShiftRowsLane(s: State, y: Lane)
    ensures LaneByte(ShiftRows(s), y) == LaneByte(s, ShiftSource(y))
  {
    forall x: bv16
      ensures Bit(ShiftRowsSlice(x), y) == Bit(x, ShiftSource(y))
    {
      ShiftRowsSliceBits(x, y);
    }
    MapLaneByte(ShiftRowsSlice, s, y, ShiftSource(y));
  }

  /** InvShiftRows moves the byte in lane InvShiftSource(y) into lane y. */
  lemma InvShiftRowsLane(s: State, y: Lane)
    ensures LaneByte(InvShiftRows(s), y) == LaneByte(s, InvShiftSource(y))
  {
    forall x: bv16
      ensures Bit(InvShiftRowsSlice(x), y) == Bit(x, InvShiftSource(y))
    {
      ShiftRowsSliceBits(x, y);
    }
    MapLaneByte(InvShiftRowsSlice, s, y, InvShiftSource(y));
  }

  lemma LaneValues()
    ensures LaneOfByte(0) == 0 && LaneOfByte(1) == 4 && LaneOfByte(2) == 8 && LaneOfByte(3) == 12
    ensures LaneOfByte(4) == 1 && LaneOfByte(5) == 5 && LaneOfByte(6) == 9 && LaneOfByte(7) == 13
    ensures LaneOfByte(8) == 2 && LaneOfByte(9) == 6 && LaneOfByte(10) == 10 && LaneOfByte(11) == 14
    ensures LaneOfByte(12) == 3 && LaneOfByte(13) == 7 && LaneOfByte(14) == 11 && LaneOfByte(15) == 15
  {
  }

  lemma SourceValues()
    ensures ShiftSource(0) == 0 && ShiftSource(1) == 1 && ShiftSource(2) == 2 && ShiftSource(3) == 3
    ensures ShiftSource(4) == 5 && ShiftSource(5) == 6 && ShiftSource(6) == 7 && ShiftSource(7) == 4
    ensures ShiftSource(8) == 10 && ShiftSource(9) == 11 && ShiftSource(10) == 8 && ShiftSource(11) == 9
    ensures ShiftSource(12) == 15 && ShiftSource(13) == 12 && ShiftSource(14) == 13 && ShiftSource(15) == 14
    ensures InvShiftSource(0) == 0 && InvShiftSource(1) == 1 && InvShiftSource(2) == 2 && InvShiftSource(3) == 3
    ensures InvShiftSource(4) == 7 && InvShiftSource(5) == 4 && InvShiftSource(6) == 5 && InvShiftSource(7) == 6
    ensures InvShiftSource(8) == 10 && InvShiftSource(9) == 11 && InvShiftSource(10) == 8 && InvShiftSource(11) == 9
    ensures InvShiftSource(12) == 13 && InvShiftSource(13) == 14 && InvShiftSource(14) == 15 && InvShiftSource(15) == 12
  {
  }

  lemma SourceAt(t: State, s: State, k: nat, j: nat)
    requires forall y: Lane :: LaneByte(t, y) == LaneByte(s, ShiftSource(y))
    requires k < 16 && j < 16 && LaneOfByte(j) == ShiftSource(LaneOfByte(k))
    ensures Unpack(t)[k] == Unpack(s)[j]
  {
  }

  lemma InvSourceAt(t: State, s: State, k: nat, j: nat)
    requires forall y: Lane :: LaneByte(t, y) == LaneByte(s, InvShiftSource(y))
    requires k < 16 && j < 16 && LaneOfByte(j) == InvShiftSource(LaneOfByte(k))
    ensures Unpack(t)[k] == Unpack(s)[j]
  {
  }

  /** The bytes of a state that takes every lane from its ShiftSource lane in another. */
  lemma ShiftedBytes(t: State, s: State)
    requires forall y: Lane :: LaneByte(t, y) == LaneByte(s, ShiftSource(y))
    ensures Unpack(t)[0] == Unpack(s)[0] && Unpack(t)[1] == Unpack(s)[5] && Unpack(t)[2] == Unpack(s)[10] && Unpack(t)[3] == Unpack(s)[15]
    ensures Unpack(t)[4] == Unpack(s)[4] && Unpack(t)[5] == Unpack(s)[9] && Unpack(t)[6] == Unpack(s)[14] && Unpack(t)[7] == Unpack(s)[3]
    ensures Unpack(t)[8] == Unpack(s)[8] && Unpack(t)[9] == Unpack(s)[13] && Unpack(t)[10] == Unpack(s)[2] && Unpack(t)[11] == Unpack(s)[7]
    ensures Unpack(t)[12] == Unpack(s)[12] && Unpack(t)[13] == Unpack(s)[1] && Unpack(t)[14] == Unpack(s)[6] && Unpack(t)[15] == Unpack(s)[11]
  {
    LaneValues();
    SourceValues();
    SourceAt(t, s, 0, 0);
    SourceAt(t, s, 1, 5);
    SourceAt(t, s, 2, 10);
    SourceAt(t, s, 3, 15);
    SourceAt(t, s, 4, 4);
    SourceAt(t, s, 5, 9);
    SourceAt(t, s, 6, 14);
    SourceAt(t, s, 7, 3);
    SourceAt(t, s, 8, 8);
    SourceAt(t, s, 9, 13);
    SourceAt(t, s, 10, 2);
    SourceAt(t, s, 11, 7);
    SourceAt(t, s, 12, 12);
    SourceAt(t, s, 13, 1);
    SourceAt(t, s, 14, 6);
    SourceAt(t, s, 15, 11);
  }

  /** The bytes of a state that takes every lane from its InvShiftSource lane in another. */
  lemma InvShiftedBytes(t: State, s: State)
    requires forall y: Lane :: LaneByte(t, y) == LaneByte(s, InvShiftSource(y))
    ensures Unpack(t)[0] == Unpack(s)[0] && Unpack(t)[1] == Unpack(s)[13] && Unpack(t)[2] == Unpack(s)[10] && Unpack(t)[3] == Unpack(s)[7]
    ensures Unpack(t)[4] == Unpack(s)[4] && Unpack(t)[5] == Unpack(s)[1] && Unpack(t)[6] == Unpack(s)[14] && Unpack(t)[7] == Unpack(s)[11]
    ensures Unpack(t)[8] == Unpack(s)[8] && Unpack(t)[9] == Unpack(s)[5] && Unpack(t)[10] == Unpack(s)[2] && Unpack(t)[11] == Unpack(s)[15]
    ensures Unpack(t)[12] == Unpack(s)[12] && Unpack(t)[13] == Unpack(s)[9] && Unpack(t)[14] == Unpack(s)[6] && Unpack(t)[15] == Unpack(s)[3]
  {
    LaneValues();
    SourceValues();
    InvSourceAt(t, s, 0, 0);
    InvSourceAt(t, s, 1, 13);
    InvSourceAt(t, s, 2, 10);
    InvSourceAt(t, s, 3, 7);
    InvSourceAt(t, s, 4, 4);
    InvSourceAt(t, s, 5, 1);
    InvSourceAt(t, s, 6, 14);
    InvSourceAt(t, s, 7, 11);
    InvSourceAt(t, s, 8, 8);
    InvSourceAt(t, s, 9, 5);
    InvSourceAt(t, s, 10, 2);
    InvSourceAt(t, s, 11, 15);
    InvSourceAt(t, s, 12, 12);
    InvSourceAt(t, s, 13, 9);
    InvSourceAt(t, s, 14, 6);
    InvSourceAt(t, s, 15, 3);
  }

  /** Sixteen values in a row. */
  lemma Sixteen<T>(a: seq<T>, x0: T, x1: T, x2: T, x3: T, x4: T, x5: T, x6: T, x7: T, x8: T, x9: T, x10: T, x11: T, x12: T, x13: T, x14: T, x15: T)
    requires |a| == 16
    requires a[0] == x0 && a[1] == x1 && a[2] == x2 && a[3] == x3
    requires a[4] == x4 && a[5] == x5 && a[6] == x6 && a[7] == x7
    requires a[8] == x8 && a[9] == x9 && a[10] == x10 && a[11] == x11
    requires a[12] == x12 && a[13] == x13 && a[14] == x14 && a[15] == x15
    ensures a == [x0, x1, x2, x3, x4, x5, x6, x7, x8, x9, x10, x11, x12, x13, x14, x15]
  {
  }

  /** The bitsliced ShiftRows moves the bytes of the block as ShiftRows of FIPS 197 does. */
  lemma UnpackShiftRows(s: State)
    ensures Unpack(ShiftRows(s)) == ShiftRowsBlock(Unpack(s))
  {
    var t, b := ShiftRows(s), Unpack(s);
    forall y: Lane
      ensures LaneByte(t, y) == LaneByte(s, ShiftSource(y))
    {
      ShiftRowsLane(s, y);
    }
    ShiftedBytes(t, s);
    ShiftRowsTable(b);
    Sixteen(Unpack(t), b[0], b[5], b[10], b[15], b[4], b[9], b[14], b[3], b[8], b[13], b[2], b[7], b[12], b[1], b[6], b[11]);
  }

  /** The bitsliced InvShiftRows moves the bytes of the block as InvShiftRows of FIPS 197 does. */
  lemma UnpackInvShiftRows(s: State)
    ensures Unpack(InvShiftRows(s)) == InvShiftRowsBlock(Unpack(s))
  {
    var t, b := InvShiftRows(s), Unpack(s);
    forall y: Lane
      ensures LaneByte(t, y) == LaneByte(s, InvShiftSource(y))
    {
      InvShiftRowsLane(s, y);
    }
    InvShiftedBytes(t, s);
    InvShiftRowsTable(b);
    Sixteen(Unpack(t), b[0], b[13], b[10], b[7], b[4], b[1], b[14], b[11], b[8], b[5], b[2], b[15], b[12], b[9], b[6], b[3]);
  }
}
