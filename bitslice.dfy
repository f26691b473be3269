/**
 * The bitsliced representation of one AES block (struct AesBsState).
 *
 * A block of 16 bytes is held as eight 16-bit slices: slice i holds bit i of
 * every byte, and the byte in row r, column c of the AES state sits in lane
 * (bit position) 4 * r + c of each slice.  Every byte-wise operation is then a
 * sequence of word-wide boolean operations that act on all 16 lanes at once.
 */
module Bitslice {

  /** Eight slices; slice i holds bit i of every lane. */
  datatype Slices<T> = Slices(s0: T, s1: T, s2: T, s3: T, s4: T, s5: T, s6: T, s7: T)

  /** struct AesBsState: eight uint16_t slices. */
  type State = Slices<bv16>

  /** The boolean operations a bitsliced circuit is built from. */
  datatype Ops<!T> = Ops(xor: (T, T) -> T, and: (T, T) -> T, not: T -> T)

  /** The operations on uint16_t slices, acting on all 16 lanes at once. */
  const SliceOps: Ops<bv16> := Ops((x: bv16, y: bv16) => x ^ y, (x: bv16, y: bv16) => x & y, (x: bv16) => !x)

  /** The same operations on a single lane. */
  const LaneOps: Ops<bv1> := Ops((x: bv1, y: bv1) => x ^ y, (x: bv1, y: bv1) => x & y, (x: bv1) => !x)

  const Zero: State := Slices(0, 0, 0, 0, 0, 0, 0, 0)

  /** aes__xor_state: the slice-wise exclusive or of two states. */
  function XorState(a: State, b: State): State
  {
    Slices(a.s0 ^ b.s0, a.s1 ^ b.s1, a.s2 ^ b.s2, a.s3 ^ b.s3, a.s4 ^ b.s4, a.s5 ^ b.s5, a.s6 ^ b.s6, a.s7 ^ b.s7)
  }

  function Map<T, U>(h: T -> U, u: Slices<T>): Slices<U>
  {
    Slices(h(u.s0), h(u.s1), h(u.s2), h(u.s3), h(u.s4), h(u.s5), h(u.s6), h(u.s7))
  }

  /** h maps every operation of a onto the matching operation of b. */
  ghost predicate IsHom<T(!new), U>(h: T -> U, a: Ops<T>, b: Ops<U>)
  {
    && (forall x, y :: h(a.xor(x, y)) == b.xor(h(x), h(y)))
    && (forall x, y :: h(a.and(x, y)) == b.and(h(x), h(y)))
    && (forall x :: h(a.not(x)) == b.not(h(x)))
  }

  // ---------------------------------------------------------------- lanes

  /** The 16 lanes of a slice are numbered by 4-bit values. */
  type Lane = bv4

  /** Lane p of a slice. */
  function Bit(x: bv16, p: Lane): bv1
  {
    ((x >> p) & 1) as bv1
  }

  function LaneOf(p: Lane): bv16 -> bv1
  {
    (x: bv16) => Bit(x, p)
  }

  /** The exclusive or of two lanes, as a function value. */
  function BitXorOf(a: bv1, b: bv1): bv1
  {
    a ^ b
  }

  lemma BitXor(p: Lane, x: bv16, y: bv16)
    ensures Bit(x ^ y, p) == Bit(x, p) ^ Bit(y, p)
  {
  }

  lemma LaneXor(p: Lane, x: bv16, y: bv16)
    ensures LaneOf(p)(SliceOps.xor(x, y)) == LaneOps.xor(LaneOf(p)(x), LaneOf(p)(y))
  {
    BitXor(p, x, y);
  }

  lemma BitAnd(p: Lane, x: bv16, y: bv16)
    ensures Bit(x & y, p) == Bit(x, p) & Bit(y, p)
  {
  }

  lemma LaneAnd(p: Lane, x: bv16, y: bv16)
    ensures LaneOf(p)(SliceOps.and(x, y)) == LaneOps.and(LaneOf(p)(x), LaneOf(p)(y))
  {
    BitAnd(p, x, y);
  }

  lemma LaneNot(p: Lane, x: bv16)
    ensures LaneOf(p)(SliceOps.not(x)) == LaneOps.not(LaneOf(p)(x))
  {
    assert Bit(!x, p) == !Bit(x, p);
  }

  /** Reading one lane commutes with every slice operation: the lanes never mix. */
  lemma LaneIsHom(p: Lane)
    ensures IsHom(LaneOf(p), SliceOps, LaneOps)
  {
    forall x: bv16, y: bv16
      ensures LaneOf(p)(SliceOps.xor(x, y)) == LaneOps.xor(LaneOf(p)(x), LaneOf(p)(y))
    {
      LaneXor(p, x, y);
    }
    forall x: bv16, y: bv16
      ensures LaneOf(p)(SliceOps.and(x, y)) == LaneOps.and(LaneOf(p)(x), LaneOf(p)(y))
    {
      LaneAnd(p, x, y);
    }
    forall x: bv16
      ensures LaneOf(p)(SliceOps.not(x)) == LaneOps.not(LaneOf(p)(x))
    {
      LaneNot(p, x);
    }
  }

  /** The byte whose bit i is u.si. */
  function Gather(u: Slices<bv1>): bv8
  {
    (u.s0 as bv8) | ((u.s1 as bv8) << 1) | ((u.s2 as bv8) << 2) | ((u.s3 as bv8) << 3) |
    ((u.s4 as bv8) << 4) | ((u.s5 as bv8) << 5) | ((u.s6 as bv8) << 6) | ((u.s7 as bv8) << 7)
  }

  /** The bits of a byte, bit i in si. */
  function Spread(b: bv8): (u: Slices<bv1>)
    ensures Gather(u) == b
  {
    Slices(((b >> 0) & 1) as bv1, ((b >> 1) & 1) as bv1, ((b >> 2) & 1) as bv1, ((b >> 3) & 1) as bv1,
           ((b >> 4) & 1) as bv1, ((b >> 5) & 1) as bv1, ((b >> 6) & 1) as bv1, ((b >> 7) & 1) as bv1)
  }

  lemma SpreadGather(u: Slices<bv1>)
    ensures Spread(Gather(u)) == u
  {
  }

  /** The byte held in lane p. */
  function LaneByte(s: State, p: Lane): bv8
  {
    Gather(Map(LaneOf(p), s))
  }

  /** The byte in lane y, bit by bit. */
  lemma LaneByteBits(s: State, y: Lane)
    ensures LaneByte(s, y) == Gather(Slices(Bit(s.s0, y), Bit(s.s1, y), Bit(s.s2, y), Bit(s.s3, y),
                                            Bit(s.s4, y), Bit(s.s5, y), Bit(s.s6, y), Bit(s.s7, y)))
  {
  }

  /** A slice is determined by its 16 lanes. */
  lemma BitsDetermineSlice(x: bv16, y: bv16)
    requires forall p: Lane :: Bit(x, p) == Bit(y, p)
    ensures x == y
  {
    assert Bit(x, 0) == Bit(y, 0) && Bit(x, 1) == Bit(y, 1) && Bit(x, 2) == Bit(y, 2) && Bit(x, 3) == Bit(y, 3);
    assert Bit(x, 4) == Bit(y, 4) && Bit(x, 5) == Bit(y, 5) && Bit(x, 6) == Bit(y, 6) && Bit(x, 7) == Bit(y, 7);
    assert Bit(x, 8) == Bit(y, 8) && Bit(x, 9) == Bit(y, 9) && Bit(x, 10) == Bit(y, 10) && Bit(x, 11) == Bit(y, 11);
    assert Bit(x, 12) == Bit(y, 12) && Bit(x, 13) == Bit(y, 13) && Bit(x, 14) == Bit(y, 14) && Bit(x, 15) == Bit(y, 15);
  }

  /** Two states are equal exactly when all 16 lanes hold the same byte. */
  lemma LanesDetermineState(a: State, b: State)
    requires forall p: Lane :: LaneByte(a, p) == LaneByte(b, p)
    ensures a == b
  {
    forall p: Lane
      ensures && Bit(a.s0, p) == Bit(b.s0, p) && Bit(a.s1, p) == Bit(b.s1, p)
              && Bit(a.s2, p) == Bit(b.s2, p) && Bit(a.s3, p) == Bit(b.s3, p)
              && Bit(a.s4, p) == Bit(b.s4, p) && Bit(a.s5, p) == Bit(b.s5, p)
              && Bit(a.s6, p) == Bit(b.s6, p) && Bit(a.s7, p) == Bit(b.s7, p)
    {
      assert LaneByte(a, p) == LaneByte(b, p);
      SpreadGather(Map(LaneOf(p), a));
      SpreadGather(Map(LaneOf(p), b));
    }
    BitsDetermineSlice(a.s0, b.s0);
    BitsDetermineSlice(a.s1, b.s1);
    BitsDetermineSlice(a.s2, b.s2);
    BitsDetermineSlice(a.s3, b.s3);
    BitsDetermineSlice(a.s4, b.s4);
    BitsDetermineSlice(a.s5, b.s5);
    BitsDetermineSlice(a.s6, b.s6);
    BitsDetermineSlice(a.s7, b.s7);
  }

  /** Slice i of the state whose lane y holds r[y]. */
  function LanesSlice(r: seq<bv8>, i: bv3): bv16
    requires |r| == 16
  {
    ((r[0] >> i) & 1) as bv16 |
    ((((r[1] >> i) & 1) as bv16) << 1) |
    ((((r[2] >> i) & 1) as bv16) << 2) |
    ((((r[3] >> i) & 1) as bv16) << 3) |
    ((((r[4] >> i) & 1) as bv16) << 4) |
    ((((r[5] >> i) & 1) as bv16) << 5) |
    ((((r[6] >> i) & 1) as bv16) << 6) |
    ((((r[7] >> i) & 1) as bv16) << 7) |
    ((((r[8] >> i) & 1) as bv16) << 8) |
    ((((r[9] >> i) & 1) as bv16) << 9) |
    ((((r[10] >> i) & 1) as bv16) << 10) |
    ((((r[11] >> i) & 1) as bv16) << 11) |
    ((((r[12] >> i) & 1) as bv16) << 12) |
    ((((r[13] >> i) & 1) as bv16) << 13) |
    ((((r[14] >> i) & 1) as bv16) << 14) |
    ((((r[15] >> i) & 1) as bv16) << 15)
  }

  /** The state whose lane y holds r[y]. */
  function FromLanes(r: seq<bv8>): State
    requires |r| == 16
  {
    Slices(LanesSlice(r, 0), LanesSlice(r, 1), LanesSlice(r, 2), LanesSlice(r, 3),
           LanesSlice(r, 4), LanesSlice(r, 5), LanesSlice(r, 6), LanesSlice(r, 7))
  }

  lemma FromLanesLanes(r: seq<bv8>, y: Lane)
    requires |r| == 16
    ensures LaneByte(FromLanes(r), y) == r[y]
  {
  }
}
