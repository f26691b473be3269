/**
 * Bit rotations and ShiftRows on the bitsliced state.
 *
 * Row r of the AES state occupies lanes 4 * r .. 4 * r + 3 of every slice, one
 * lane per column.  ShiftRows rotates the four lanes of row r so that column c
 * receives the byte from column (c + r) mod 4 (FIPS 197, section 5.1.2).
 */
module Rotations {
  import opened Bitslice

  /** extract_bits_u16: the bits begin .. end - 1 of value, moved down to bit 0. */
  function ExtractBits(value: bv16, begin: bv64, end: bv64): bv16
    requires begin <= end <= 16
  {
    (value >> begin) & (((1 as bv32 << (end - begin)) - 1) as bv16)
  }

  /**
   * rotl_4bit_u16: on a 4-bit value, moves bit i + c down to bit i (indices mod
   * 4).  The arithmetic is done on int after promotion; only the low 16 bits
   * are returned, which are the same as those computed here on 16 bits.
   */
  function Rotl4Bit(n: bv16, c: bv8): bv16
    requires c <= 4
  {
    (n >> c) | ((n << (4 - c)) & 0xf)
  }

  /** rotr_4bit_u16: on a 4-bit value, moves bit i up to bit i + c (indices mod 4). */
  function Rotr4Bit(n: bv16, c: bv8): bv16
    requires c <= 4
  {
    ((n << c) & 0xf) | (n >> (4 - c))
  }

  lemma Rotate4Bits(n: bv16, c: bv8, i: Lane)
    requires n < 16 && c <= 4 && i < 4
    ensures Rotl4Bit(n, c) < 16 && Rotr4Bit(n, c) < 16
    ensures Bit(Rotl4Bit(n, c), i) == Bit(n, (i + c as Lane) & 3)
    ensures Bit(Rotr4Bit(n, c), (i + c as Lane) & 3) == Bit(n, i)
  {
  }

  /** On 4-bit values the two rotations by the same amount undo each other. */
  lemma Rotate4Inverse(n: bv16, c: bv8)
    requires n < 16 && c <= 4
    ensures Rotr4Bit(Rotl4Bit(n, c), c) == n
    ensures Rotl4Bit(Rotr4Bit(n, c), c) == n
  {
  }

  /** aesbs_ShiftRows on one slice. */
  function ShiftRowsSlice(b: bv16): bv16
  {
    ExtractBits(b, 0, 4)
    | (Rotr4Bit(ExtractBits(b, 4, 8), 3) << 4)
    | (Rotr4Bit(ExtractBits(b, 8, 12), 2) << 8)
    | (Rotr4Bit(ExtractBits(b, 12, 16), 1) << 12)
  }

  /** aesbs_InvShiftRows on one slice. */
  function InvShiftRowsSlice(b: bv16): bv16
  {
    ExtractBits(b, 0, 4)
    | (Rotl4Bit(ExtractBits(b, 4, 8), 3) << 4)
    | (Rotl4Bit(ExtractBits(b, 8, 12), 2) << 8)
    | (Rotl4Bit(ExtractBits(b, 12, 16), 1) << 12)
  }

  function ShiftRows(s: State): State
  {
    Map(ShiftRowsSlice, s)
  }

  function InvShiftRows(s: State): State
  {
    Map(InvShiftRowsSlice, s)
  }

  /** The lane 4 * r + (c + r) mod 4 that ShiftRows moves into lane y = 4 * r + c. */
  function ShiftSource(y: Lane): Lane
  {
    (y & 12) | ((y + (y >> 2)) & 3)
  }

  /** The lane 4 * r + (c - r) mod 4 that InvShiftRows moves into lane y = 4 * r + c. */
  function InvShiftSource(y: Lane): Lane
  {
    (y & 12) | ((y - (y >> 2)) & 3)
  }

  lemma ShiftRowsSliceBits(b: bv16, y: Lane)
    ensures Bit(ShiftRowsSlice(b), y) == Bit(b, ShiftSource(y))
    ensures Bit(InvShiftRowsSlice(b), y) == Bit(b, InvShiftSource(y))
  {
  }

  lemma ShiftRowsSliceInverse(b: bv16)
    ensures InvShiftRowsSlice(ShiftRowsSlice(b)) == b
    ensures ShiftRowsSlice(InvShiftRowsSlice(b)) == b
  {
  }

  /** ShiftRows leaves row 0 (lanes 0 to 3) alone, in both directions. */
  lemma ShiftRowsRowZero(b: bv16)
    ensures ShiftRowsSlice(b) & 0xf == b & 0xf
    ensures InvShiftRowsSlice(b) & 0xf == b & 0xf
  {
  }

  /** Lane by lane: the byte in row r, column c after ShiftRows is the one that was in column (c + r) mod 4. */
  lemma ShiftRowsLanes(s: State, row: Lane, column: Lane)
    requires row < 4 && column < 4
    ensures LaneByte(ShiftRows(s), 4 * row + column) == LaneByte(s, 4 * row + (column + row) % 4)
  {
    var y := 4 * row + column;
    var z := 4 * row + (column + row) % 4;
    SourceLanes(row, column);
    forall x: bv16
      ensures Bit(ShiftRowsSlice(x), y) == Bit(x, z)
    {
      ShiftRowsSliceBits(x, y);
    }
    MapLaneByte(ShiftRowsSlice, s, y, z);
  }

  /** InvShiftRows moves the byte in row r, column (c + r) mod 4 back to column c. */
  lemma InvShiftRowsLanes(s: State, row: Lane, column: Lane)
    requires row < 4 && column < 4
    ensures LaneByte(InvShiftRows(s), 4 * row + (column + row) % 4) == LaneByte(s, 4 * row + column)
  {
    var y := 4 * row + column;
    var z := 4 * row + (column + row) % 4;
    SourceLanes(row, column);
    forall x: bv16
      ensures Bit(InvShiftRowsSlice(x), z) == Bit(x, y)
    {
      ShiftRowsSliceBits(x, z);
    }
    MapLaneByte(InvShiftRowsSlice, s, z, y);
  }

  lemma SourceLanes(row: Lane, column: Lane)
    requires row < 4 && column < 4
    ensures ShiftSource(4 * row + column) == 4 * row + (column + row) % 4
    ensures InvShiftSource(4 * row + (column + row) % 4) == 4 * row + column
  {
  }

  /** A slice map that reads lane q from lane p moves the whole byte of lane p to lane q. */
  lemma MapLaneByte(h: bv16 -> bv16, s: State, q: Lane, p: Lane)
    requires forall x :: Bit(h(x), q) == Bit(x, p)
    ensures LaneByte(Map(h, s), q) == LaneByte(s, p)
  {
    assert Bit(h(s.s0), q) == Bit(s.s0, p) && Bit(h(s.s1), q) == Bit(s.s1, p);
    assert Bit(h(s.s2), q) == Bit(s.s2, p) && Bit(h(s.s3), q) == Bit(s.s3, p);
    assert Bit(h(s.s4), q) == Bit(s.s4, p) && Bit(h(s.s5), q) == Bit(s.s5, p);
    assert Bit(h(s.s6), q) == Bit(s.s6, p) && Bit(h(s.s7), q) == Bit(s.s7, p);
  }

  /** InvShiftRows undoes ShiftRows, and the other way round. */
  lemma ShiftRowsInverse(s: State)
    ensures InvShiftRows(ShiftRows(s)) == s
    ensures ShiftRows(InvShiftRows(s)) == s
  {
    ShiftRowsSliceInverse(s.s0);
    ShiftRowsSliceInverse(s.s1);
    ShiftRowsSliceInverse(s.s2);
    ShiftRowsSliceInverse(s.s3);
    ShiftRowsSliceInverse(s.s4);
    ShiftRowsSliceInverse(s.s5);
    ShiftRowsSliceInverse(s.s6);
    ShiftRowsSliceInverse(s.s7);
  }

  // ---------------------------------------------------------------- 16-bit rotations

  /**
   * rotr16 (generic_rotr on a uint16_t): shift right by c & 15, or in the
   * bits shifted left by (-c) & 15.  The int arithmetic after promotion is cut
   * back to 16 bits on return, which is what 16-bit shifts compute.
   */
  function Rotr16(n: bv16, c: bv8): bv16
  {
    (n >> ((c & 15) as Lane)) | (n << ((-c & 15) as Lane))
  }

  /** rotl16 (generic_rotl on a uint16_t). */
  function Rotl16(n: bv16, c: bv8): bv16
  {
    (n << ((c & 15) as Lane)) | (n >> ((-c & 15) as Lane))
  }

  /** rotr16 moves bit y + c (mod 16) down to bit y; rotl16 moves it back. */
  lemma Rotate16(n: bv16, c: bv8, y: Lane)
    ensures Bit(Rotr16(n, c), y) == Bit(n, y + (c & 15) as Lane)
  {
  }

  lemma Rotate16Left(n: bv16, c: bv8, y: Lane)
    ensures Bit(Rotl16(n, c), y + (c & 15) as Lane) == Bit(n, y)
  {
  }

  lemma Rotate16Inverse(n: bv16, c: bv8)
    ensures Rotl16(Rotr16(n, c), c) == n
  {
  }

  lemma Rotate16InverseLeft(n: bv16, c: bv8)
    ensures Rotr16(Rotl16(n, c), c) == n
  {
  }
}
