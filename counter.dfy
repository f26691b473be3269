/**
 * The counter block of CTR mode (aesbs_add_bitslice, aesbs_increment_bitslice).
 *
 * aesbs_add_bitslice is a ripple-carry adder run on the slices: step i adds
 * bit i of every lane and passes a carry slice on to step i + 1.  Since the
 * carry of lane y only ever meets lane y, the adder adds the two states byte
 * by byte, modulo 256, and no carry crosses from one byte into another.
 */
module CounterAdd {
  import opened Bitslice
  import opened Packing
  import opened Linearity

  /** Slice i of a state (state.slice[i]). */
  function SliceAt<T>(s: Slices<T>, i: nat): T
    requires i < 8
  {
    match i
    case 0 => s.s0
    case 1 => s.s1
    case 2 => s.s2
    case 3 => s.s3
    case 4 => s.s4
    case 5 => s.s5
    case 6 => s.s6
    case _ => s.s7
  }

  /** The operations of a ripple-carry adder on slices of type T. */
  datatype AdderOps<!T> = AdderOps(xor: (T, T) -> T, and: (T, T) -> T, or: (T, T) -> T, zero: T)

  function BvAnd(a: bv16, b: bv16): bv16 { a & b }
  function BvOr(a: bv16, b: bv16): bv16 { a | b }
  function BitXorOp(a: bv1, b: bv1): bv1 { a ^ b }
  function BitAndOp(a: bv1, b: bv1): bv1 { a & b }
  function BitOrOp(a: bv1, b: bv1): bv1 { a | b }

  /** The adder on uint16_t slices, all lanes at once. */
  const SliceAdder: AdderOps<bv16> := AdderOps(BvXor, BvAnd, BvOr, 0)

  /** The adder on a single lane. */
  const LaneAdder: AdderOps<bv1> := AdderOps(BitXorOp, BitAndOp, BitOrOp, 0)

  /** The carry of aesbs_add_bitslice: (l & r) | (l & c) | (r & c). */
  function CarryOut<T>(o: AdderOps<T>, l: T, r: T, c: T): T
  {
    o.or(o.or(o.and(l, r), o.and(l, c)), o.and(r, c))
  }

  /** The carry slice entering step i of the adder. */
  function Carry<T>(o: AdderOps<T>, lhs: Slices<T>, rhs: Slices<T>, i: nat): T
    requires i <= 8
  {
    if i == 0 then o.zero else CarryOut(o, SliceAt(lhs, i - 1), SliceAt(rhs, i - 1), Carry(o, lhs, rhs, i - 1))
  }

  /** Slice i of the sum: lhs ^ rhs ^ carry. */
  function Sum<T>(o: AdderOps<T>, lhs: Slices<T>, rhs: Slices<T>, i: nat): T
    requires i < 8
  {
    o.xor(o.xor(SliceAt(lhs, i), SliceAt(rhs, i)), Carry(o, lhs, rhs, i))
  }

  /** h maps every adder operation of a onto the matching one of b. */
  ghost predicate IsAdderHom<T(!new), U>(h: T -> U, a: AdderOps<T>, b: AdderOps<U>)
  {
    && (forall x, y :: h(a.xor(x, y)) == b.xor(h(x), h(y)))
    && (forall x, y :: h(a.and(x, y)) == b.and(h(x), h(y)))
    && (forall x, y :: h(a.or(x, y)) == b.or(h(x), h(y)))
    && h(a.zero) == b.zero
  }

  lemma SliceAtMap<T, U>(h: T -> U, s: Slices<T>, i: nat)
    requires i < 8
    ensures SliceAt(Map(h, s), i) == h(SliceAt(s, i))
  {
  }

  /** The carries commute with any map that commutes with the adder operations. */
  lemma {:induction false} CarryCommutes<T(!new), U>(h: T -> U, a: AdderOps<T>, b: AdderOps<U>, lhs: Slices<T>, rhs: Slices<T>, i: nat)
    requires i <= 8 && IsAdderHom(h, a, b)
    ensures h(Carry(a, lhs, rhs, i)) == Carry(b, Map(h, lhs), Map(h, rhs), i)
  {
    if i > 0 {
      CarryCommutes(h, a, b, lhs, rhs, i - 1);
      SliceAtMap(h, lhs, i - 1);
      SliceAtMap(h, rhs, i - 1);
    }
  }

  lemma SumCommutes<T(!new), U>(h: T -> U, a: AdderOps<T>, b: AdderOps<U>, lhs: Slices<T>, rhs: Slices<T>, i: nat)
    requires i < 8 && IsAdderHom(h, a, b)
    ensures h(Sum(a, lhs, rhs, i)) == Sum(b, Map(h, lhs), Map(h, rhs), i)
  {
    CarryCommutes(h, a, b, lhs, rhs, i);
    SliceAtMap(h, lhs, i);
    SliceAtMap(h, rhs, i);
  }

  lemma BitOr(p: Lane, x: bv16, y: bv16)
    ensures Bit(x | y, p) == Bit(x, p) | Bit(y, p)
  {
  }

  lemma LaneAdderXor(p: Lane, x: bv16, y: bv16)
    ensures LaneOf(p)(SliceAdder.xor(x, y)) == LaneAdder.xor(LaneOf(p)(x), LaneOf(p)(y))
  {
    BitXor(p, x, y);
  }

  lemma LaneAdderAnd(p: Lane, x: bv16, y: bv16)
    ensures LaneOf(p)(SliceAdder.and(x, y)) == LaneAdder.and(LaneOf(p)(x), LaneOf(p)(y))
  {
    BitAnd(p, x, y);
  }

  lemma LaneAdderOr(p: Lane, x: bv16, y: bv16)
    ensures LaneOf(p)(SliceAdder.or(x, y)) == LaneAdder.or(LaneOf(p)(x), LaneOf(p)(y))
  {
    BitOr(p, x, y);
  }

  lemma LaneAdderZero(p: Lane)
    ensures LaneOf(p)(SliceAdder.zero) == LaneAdder.zero
  {
    assert Bit(0, p) == 0;
  }

  lemma LaneXorHom(p: Lane)
    ensures forall x: bv16, y: bv16 :: LaneOf(p)(SliceAdder.xor(x, y)) == LaneAdder.xor(LaneOf(p)(x), LaneOf(p)(y))
  {
    forall x: bv16, y: bv16
      ensures LaneOf(p)(SliceAdder.xor(x, y)) == LaneAdder.xor(LaneOf(p)(x), LaneOf(p)(y))
    {
      LaneAdderXor(p, x, y);
    }
  }

  lemma LaneAndHom(p: Lane)
    ensures forall x: bv16, y: bv16 :: LaneOf(p)(SliceAdder.and(x, y)) == LaneAdder.and(LaneOf(p)(x), LaneOf(p)(y))
  {
    forall x: bv16, y: bv16
      ensures LaneOf(p)(SliceAdder.and(x, y)) == LaneAdder.and(LaneOf(p)(x), LaneOf(p)(y))
    {
      LaneAdderAnd(p, x, y);
    }
  }

  lemma LaneOrHom(p: Lane)
    ensures forall x: bv16, y: bv16 :: LaneOf(p)(SliceAdder.or(x, y)) == LaneAdder.or(LaneOf(p)(x), LaneOf(p)(y))
  {
    forall x: bv16, y: bv16
      ensures LaneOf(p)(SliceAdder.or(x, y)) == LaneAdder.or(LaneOf(p)(x), LaneOf(p)(y))
    {
      LaneAdderOr(p, x, y);
    }
  }

  /** Reading lane p commutes with the adder operations: the lanes never mix. */
  lemma LaneIsAdderHom(p: Lane)
    ensures IsAdderHom(LaneOf(p), SliceAdder, LaneAdder)
  {
    LaneXorHom(p);
    LaneAndHom(p);
    LaneOrHom(p);
    LaneAdderZero(p);
  }

  /** The eight sum slices as a state. */
  function SumState<T>(o: AdderOps<T>, lhs: Slices<T>, rhs: Slices<T>): Slices<T>
  {
    Slices(Sum(o, lhs, rhs, 0), Sum(o, lhs, rhs, 1), Sum(o, lhs, rhs, 2), Sum(o, lhs, rhs, 3),
           Sum(o, lhs, rhs, 4), Sum(o, lhs, rhs, 5), Sum(o, lhs, rhs, 6), Sum(o, lhs, rhs, 7))
  }

  lemma SumStateCommutes<T(!new), U>(h: T -> U, a: AdderOps<T>, b: AdderOps<U>, lhs: Slices<T>, rhs: Slices<T>)
    requires IsAdderHom(h, a, b)
    ensures Map(h, SumState(a, lhs, rhs)) == SumState(b, Map(h, lhs), Map(h, rhs))
  {
    SumCommutes(h, a, b, lhs, rhs, 0);
    SumCommutes(h, a, b, lhs, rhs, 1);
    SumCommutes(h, a, b, lhs, rhs, 2);
    SumCommutes(h, a, b, lhs, rhs, 3);
    SumCommutes(h, a, b, lhs, rhs, 4);
    SumCommutes(h, a, b, lhs, rhs, 5);
    SumCommutes(h, a, b, lhs, rhs, 6);
    SumCommutes(h, a, b, lhs, rhs, 7);
  }

  // ---------------------------------------------------------------- one lane: binary addition

  /** Bit i of a byte. */
  function ByteBit(b: bv8, i: bv3): bv1
  {
    ((b >> i) & 1) as bv1
  }

  /** The bits of a byte below bit i. */
  function Mask(i: bv3): bv8
  {
    ((1 as bv8) << i) - 1
  }

  /** The carry into bit i when adding a and b: bit i of the sum of their bits below i. */
  function CarryInto(a: bv8, b: bv8, i: bv3): bv1
  {
    ((((a & Mask(i)) as bv16 + (b & Mask(i)) as bv16) >> i) & 1) as bv1
  }

  /** Bit i of a + b is the exclusive or of bit i of each and the carry into bit i. */
  lemma SumBit(a: bv8, b: bv8, i: bv3)
    ensures ByteBit(a + b, i) == ByteBit(a, i) ^ ByteBit(b, i) ^ CarryInto(a, b, i)
  {
  }

  /** The carry into bit i + 1 is the majority of bit i of each operand and the carry into bit i. */
  lemma CarryStep(a: bv8, b: bv8, i: bv3)
    requires i < 7
    ensures CarryInto(a, b, i + 1) == (ByteBit(a, i) & ByteBit(b, i)) | (ByteBit(a, i) & CarryInto(a, b, i)) | (ByteBit(b, i) & CarryInto(a, b, i))
  {
  }

  /** Slice index i as a bit index. */
  function Index(i: nat): bv3
    requires i < 8
  {
    match i
    case 0 => 0
    case 1 => 1
    case 2 => 2
    case 3 => 3
    case 4 => 4
    case 5 => 5
    case 6 => 6
    case _ => 7
  }

  lemma IndexNext(i: nat)
    requires i < 7
    ensures Index(i + 1) == Index(i) + 1 && Index(i) < 7
  {
  }

  /** Bit i of a gathered byte is slice i. */
  lemma GatherBit(u: Slices<bv1>, i: nat)
    requires i < 8
    ensures ByteBit(Gather(u), Index(i)) == SliceAt(u, i)
  {
    if i == 0 {
    } else if i == 1 {
    } else if i == 2 {
    } else if i == 3 {
    } else if i == 4 {
    } else if i == 5 {
    } else if i == 6 {
    } else {
    }
  }

  /** The full-adder carry of LaneAdder is the majority. */
  lemma LaneCarryOut(x: bv1, y: bv1, c: bv1)
    ensures CarryOut(LaneAdder, x, y, c) == (x & y) | (x & c) | (y & c)
  {
  }

  lemma LaneXor3(x: bv1, y: bv1, c: bv1)
    ensures LaneAdder.xor(LaneAdder.xor(x, y), c) == x ^ y ^ c
  {
  }

  /** On one lane, the carries of the adder are the carries of binary addition. */
  lemma {:induction false} LaneCarry(u: Slices<bv1>, v: Slices<bv1>, i: nat)
    requires i < 8
    ensures Carry(LaneAdder, u, v, i) == CarryInto(Gather(u), Gather(v), Index(i))
  {
    if i > 0 {
      var a, b := Gather(u), Gather(v);
      var j := Index(i - 1);
      LaneCarry(u, v, i - 1);
      GatherBit(u, i - 1);
      GatherBit(v, i - 1);
      LaneCarryOut(ByteBit(a, j), ByteBit(b, j), CarryInto(a, b, j));
      IndexNext(i - 1);
      CarryStep(a, b, j);
    }
  }

  /** Slice i of the lane adder is the exclusive or of bit i of each byte and the carry into bit i. */
  lemma LaneSumBits(u: Slices<bv1>, v: Slices<bv1>, i: nat)
    requires i < 8
    ensures Sum(LaneAdder, u, v, i)
         == ByteBit(Gather(u), Index(i)) ^ ByteBit(Gather(v), Index(i)) ^ CarryInto(Gather(u), Gather(v), Index(i))
  {
    LaneXor3(SliceAt(u, i), SliceAt(v, i), Carry(LaneAdder, u, v, i));
    LaneCarry(u, v, i);
    GatherBit(u, i);
    GatherBit(v, i);
  }

  /** On one lane, the adder computes the bits of the sum of the two bytes, modulo 256. */
  lemma LaneSum(u: Slices<bv1>, v: Slices<bv1>, i: nat)
    requires i < 8
    ensures Sum(LaneAdder, u, v, i) == ByteBit(Gather(u) + Gather(v), Index(i))
  {
    LaneSumBits(u, v, i);
    SumBit(Gather(u), Gather(v), Index(i));
  }

  /** A byte is made of its eight bits. */
  lemma GatherBits(b: bv8)
    ensures Gather(Slices(ByteBit(b, 0), ByteBit(b, 1), ByteBit(b, 2), ByteBit(b, 3),
                          ByteBit(b, 4), ByteBit(b, 5), ByteBit(b, 6), ByteBit(b, 7))) == b
  {
  }

  /** On one lane, the adder gives the sum of the two bytes, modulo 256. */
  lemma LaneAdd(u: Slices<bv1>, v: Slices<bv1>)
    ensures Gather(SumState(LaneAdder, u, v)) == Gather(u) + Gather(v)
  {
    LaneSum(u, v, 0);
    LaneSum(u, v, 1);
    LaneSum(u, v, 2);
    LaneSum(u, v, 3);
    LaneSum(u, v, 4);
    LaneSum(u, v, 5);
    LaneSum(u, v, 6);
    LaneSum(u, v, 7);
    GatherBits(Gather(u) + Gather(v));
  }

  /** Reading lane y of the sum state gives the lane adder on lane y of the operands. */
  lemma SumStateLane(y: Lane, lhs: State, rhs: State)
    ensures Map(LaneOf(y), SumState(SliceAdder, lhs, rhs)) == SumState(LaneAdder, Map(LaneOf(y), lhs), Map(LaneOf(y), rhs))
  {
    LaneIsAdderHom(y);
    SumStateCommutes(LaneOf(y), SliceAdder, LaneAdder, lhs, rhs);
  }

  /** Through any map onto the lane adder, the sum state holds the byte sum. */
  lemma SumStateGather(h: bv16 -> bv1, sum: State, lhs: State, rhs: State)
    requires Map(h, sum) == SumState(LaneAdder, Map(h, lhs), Map(h, rhs))
    ensures Gather(Map(h, sum)) == Gather(Map(h, lhs)) + Gather(Map(h, rhs))
  {
    LaneAdd(Map(h, lhs), Map(h, rhs));
  }

  /** Lane y of the sum state holds the sum of the bytes in lane y, modulo 256. */
  lemma SumStateLanes(sum: State, lhs: State, rhs: State)
    requires sum == SumState(SliceAdder, lhs, rhs)
    ensures forall y: Lane :: LaneByte(sum, y) == LaneByte(lhs, y) + LaneByte(rhs, y)
  {
    forall y: Lane
      ensures LaneByte(sum, y) == LaneByte(lhs, y) + LaneByte(rhs, y)
    {
      SumStateLane(y, lhs, rhs);
      SumStateGather(LaneOf(y), sum, lhs, rhs);
    }
  }

  /** Slices 0 to i - 1 of the sum, in order. */
  function SumSlices<T>(o: AdderOps<T>, lhs: Slices<T>, rhs: Slices<T>, i: nat): (r: seq<T>)
    requires i <= 8
    ensures |r| == i
  {
    if i == 0 then [] else SumSlices(o, lhs, rhs, i - 1) + [Sum(o, lhs, rhs, i - 1)]
  }

  lemma {:induction false} SumSlicesAt<T>(o: AdderOps<T>, lhs: Slices<T>, rhs: Slices<T>, i: nat, k: nat)
    requires k < i <= 8
    ensures SumSlices(o, lhs, rhs, i)[k] == Sum(o, lhs, rhs, k)
  {
    if k < i - 1 {
      SumSlicesAt(o, lhs, rhs, i - 1, k);
    }
  }

  /** All eight slices of the sum make up the sum state. */
  lemma SumSlicesState<T>(o: AdderOps<T>, lhs: Slices<T>, rhs: Slices<T>)
    ensures var s := SumSlices(o, lhs, rhs, 8);
      SumState(o, lhs, rhs) == Slices(s[0], s[1], s[2], s[3], s[4], s[5], s[6], s[7])
  {
    SumSlicesAt(o, lhs, rhs, 8, 0);
    SumSlicesAt(o, lhs, rhs, 8, 1);
    SumSlicesAt(o, lhs, rhs, 8, 2);
    SumSlicesAt(o, lhs, rhs, 8, 3);
    SumSlicesAt(o, lhs, rhs, 8, 4);
    SumSlicesAt(o, lhs, rhs, 8, 5);
    SumSlicesAt(o, lhs, rhs, 8, 6);
    SumSlicesAt(o, lhs, rhs, 8, 7);
  }

  /**
   * aesbs_add_bitslice: a ripple-carry adder over the slices.  Every lane of
   * the result holds the sum, modulo 256, of the bytes in the same lane of
   * the two operands.
   */
  method AddBitslice(lhs: State, rhs: State) returns (result: State)
    ensures forall y: Lane :: LaneByte(result, y) == LaneByte(lhs, y) + LaneByte(rhs, y)
  {
    var out: seq<bv16> := [];
    var carry: bv16 := 0;
    var i := 0;
    while i < 8
      invariant i <= 8 && |out| == i
      invariant out == SumSlices(SliceAdder, lhs, rhs, i)
      invariant carry == Carry(SliceAdder, lhs, rhs, i)
    {
      var l, r := SliceAt(lhs, i), SliceAt(rhs, i);
      out := out + [BvXor(BvXor(l, r), carry)];
      carry := BvOr(BvOr(BvAnd(l, r), BvAnd(l, carry)), BvAnd(r, carry));
      i := i + 1;
    }
    result := Slices(out[0], out[1], out[2], out[3], out[4], out[5], out[6], out[7]);
    SumSlicesState(SliceAdder, lhs, rhs);
    SumStateLanes(result, lhs, rhs);
  }

  /** The block aesbs_increment_bitslice adds: 1 in byte 15, 0 elsewhere. */
  const OneBlock: seq<bv8> := [0, 0, 0, 0, 0, 0, 0, 0, 0, 0, 0, 0, 0, 0, 0, 1]

  /** Byte 15 sits in lane 15 (row 3, column 3), and no other byte does. */
  lemma LaneFifteen(y: Lane)
    ensures ByteOfLane(y) == 15 <==> y == 15
  {
    LaneByteLane(y);
    ByteLane(15);
  }

  lemma OneBlockAt(k: nat)
    requires k < 16
    ensures OneBlock[k] == if k == 15 then 1 else 0
  {
  }

  /** The packed one block is 1 in lane 15 and 0 in the other lanes. */
  lemma OneLanes()
    ensures forall y: Lane :: LaneByte(Pack(OneBlock), y) == if y == 15 then 1 else 0
  {
    forall y: Lane
      ensures LaneByte(Pack(OneBlock), y) == if y == 15 then 1 else 0
    {
      var r := seq(16, (z: int) requires 0 <= z < 16 => OneBlock[ByteOfLane(z as Lane)]);
      FromLanesLanes(r, y);
      LaneFifteen(y);
      OneBlockAt(ByteOfLane(y));
    }
  }

  /** Adding the one block adds 1 to lane 15 and keeps the other lanes. */
  lemma AddOneLanes(a: State, one: State, r: State)
    requires forall y: Lane :: LaneByte(one, y) == if y == 15 then 1 else 0
    requires forall y: Lane :: LaneByte(r, y) == LaneByte(a, y) + LaneByte(one, y)
    ensures LaneByte(r, 15) == LaneByte(a, 15) + 1
    ensures forall y: Lane :: y != 15 ==> LaneByte(r, y) == LaneByte(a, y)
  {
    forall y: Lane | y != 15
      ensures LaneByte(r, y) == LaneByte(a, y)
    {
      AddZero(LaneByte(r, y), LaneByte(a, y), LaneByte(one, y));
    }
  }

  lemma AddZero(x: bv8, a: bv8, z: bv8)
    requires z == 0 && x == a + z
    ensures x == a
  {
  }

  /** Lane 15 holds byte 15 and every other lane holds another byte: the block has byte 15 incremented. */
  lemma IncrementUnpack(a: State, r: State)
    requires LaneByte(r, 15) == LaneByte(a, 15) + 1
    requires forall y: Lane :: y != 15 ==> LaneByte(r, y) == LaneByte(a, y)
    ensures Unpack(r) == Unpack(a)[15 := Unpack(a)[15] + 1]
  {
    forall k | 0 <= k < 16
      ensures Unpack(r)[k] == Unpack(a)[15 := Unpack(a)[15] + 1][k]
    {
      if k != 15 {
        ByteLane(k);
        ByteLane(15);
      }
    }
  }

  /**
   * aesbs_increment_bitslice: adds the state holding the block whose byte 15
   * is 1 and whose other bytes are 0.  Byte 15 of the counter block goes up
   * by one modulo 256 and the other fifteen bytes stay as they are: the carry
   * out of byte 15 is dropped.
   */
  method IncrementBitslice(a: State) returns (r: State)
    ensures Unpack(r) == Unpack(a)[15 := Unpack(a)[15] + 1]
  {
    var bytesOne := new bv8[16](_ => 0);
    bytesOne[15] := 1;
    var one := StoreBytes(bytesOne, 0);
    assert bytesOne[0..16] == OneBlock;
    OneLanes();
    r := AddBitslice(a, one);
    AddOneLanes(a, one, r);
    IncrementUnpack(a, r);
  }
}
